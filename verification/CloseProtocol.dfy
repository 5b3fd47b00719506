/**
 * Closing a session (common/session.py): `Reader.stop` calls `AsyncSession.close`, which calls `Reader.stop`.
 * Awaits are calls; a drain is the one place where `close` is left and taken up again later.
 */
module CloseProtocol {

  /** `on_close_coro`: none, the user's, or (for a server session) the session's own `close`. */
  datatype Handler = NoHandler | UserHandler | CloseItself

  datatype Task = NoTask | Pending(drain: bool) | Started

  datatype Event =
    | HeartbeatsStarted
    | ConnectionLost
    | HeartbeatTrip
    | Logout                       // the reader met an end of session, or a handler raised
    | InitiateClose(drain: bool)
    | ClosingTaskRuns
    | CloseCalled(drain: bool)
    | DrainPassed
    | ApplicationDrain(begins: bool)

  class Session {
    const handler: Handler
    const graceful: bool
    const connected: bool       // connection_made has run: there are a transport and a reader
    var closed: bool
    var monitors: bool
    var draining: bool
    var inDrain: bool           // the application is inside a drain of its own
    var raised: bool            // a closing drain was refused inside it, after the session was marked closed
    var queueClosed: bool
    var readerStopped: bool
    var closingTask: Task
    var handlerRuns: nat
    ghost var completed: bool

    /** What holds even in the middle of closing. */
    ghost predicate Consistent()
      reads this
    {
      && handlerRuns == (if completed && handler.UserHandler? then 1 else 0)
      && (draining || completed || readerStopped || queueClosed || raised ==> closed)
      && (draining ==> !completed) && (raised ==> !completed && !draining)
      && (completed ==> queueClosed && (connected ==> readerStopped))
    }

    /** What holds between events: a session marked closed has been closed, waits for its drain, or had it refused. */
    ghost predicate Settled()
      reads this
    {
      Consistent() && (closed ==> completed || draining || raised)
    }

    constructor (handler: Handler, graceful: bool, connected: bool)
      ensures Settled() && !closed && handlerRuns == 0
      ensures this.handler == handler && this.graceful == graceful && this.connected == connected
    {
      this.handler, this.graceful, this.connected := handler, graceful, connected;
      closed, monitors, draining, queueClosed, readerStopped := false, false, false, false, false;
      inDrain, raised := false, false;
      closingTask, handlerRuns, completed := NoTask, 0, false;
    }

    /**
     * Closing again does nothing. Closing for the first time completes, unless it has to drain first: then it waits,
     * or, inside a drain of the application, raises with the session marked closed and nothing stopped.
     */
    method Close(drain: bool)
      requires Consistent()
      modifies this
      ensures Consistent() && closed && closingTask == old(closingTask)
      ensures old(closed) ==> draining == old(draining) && completed == old(completed)
                              && readerStopped == old(readerStopped) && queueClosed == old(queueClosed)
                              && monitors == old(monitors)
      ensures old(closed) ==> raised == old(raised)
      ensures !old(closed) ==> draining == (drain && !inDrain) && raised == (drain && inDrain) && completed == !drain
      ensures !old(closed) ==> !monitors && (raised ==> handlerRuns == 0)
      ensures inDrain == old(inDrain)
      decreases if closed then 0 else 3
    {
      if !closed {
        closed := true;
        monitors := false;
        if drain && inDrain {
          raised := true;
        } else if drain {
          draining := true;
        } else {
          Finish();
        }
      }
    }

    /** The part of `close` after the drain. */
    method Finish()
      requires Consistent() && closed && !completed && !draining && !raised
      modifies this
      ensures Consistent() && closed && completed && !draining && !raised && inDrain == old(inDrain)
      ensures closingTask == old(closingTask) && monitors == old(monitors)
      decreases 2
    {
      queueClosed := true;
      if connected { ReaderStop(); }
      match handler {
        case NoHandler =>
        case UserHandler => handlerRuns := handlerRuns + 1;
        case CloseItself => Close(false);
      }
      completed := true;
    }

    method ReaderStop()
      requires Consistent() && connected
      modifies this
      ensures Consistent() && closed && readerStopped && closingTask == old(closingTask)
      ensures old(closed) ==> draining == old(draining) && completed == old(completed)
                              && queueClosed == old(queueClosed) && monitors == old(monitors)
      ensures old(closed) ==> raised == old(raised)
      ensures !old(closed) ==> !draining && completed && !monitors
      ensures inDrain == old(inDrain)
      decreases if closed then 1 else 4
    {
      if readerStopped { return; }
      Close(false);
      readerStopped := true;
    }

    method InitiateClose(drain: bool)
      modifies this`closingTask
      ensures closingTask == if closed || !old(closingTask).NoTask? then old(closingTask) else Pending(drain)
    {
      if closed || !closingTask.NoTask? { return; }
      closingTask := Pending(drain);
    }

    /**
     * A lost connection, or a request to close, makes one closing task, for a drain as configured or as requested.
     * What calls `close`, with a drain or without, closes an open session: without one it completes at once, with one
     * it starts to drain, or is refused inside a drain of the application. A closed session is left as it is.
     */
    method Handle(e: Event)
      requires Settled()
      modifies this
      ensures Settled() && (old(closed) ==> closed) && (old(completed) ==> completed)
      ensures var asked := Closes(e, connected, old(monitors), old(closingTask));
              && (asked.Asked? ==> closed)
              && (asked.Asked? && !old(closed) ==>
                    && !monitors && draining == (asked.drain && !old(inDrain))
                    && raised == (asked.drain && old(inDrain)) && completed == !asked.drain)
              && ((asked.Asked? && old(closed)) || (asked.NotAsked? && !e.DrainPassed?) ==>
                    && closed == old(closed) && draining == old(draining) && raised == old(raised)
                    && completed == old(completed))
      ensures e.ConnectionLost? && !old(closed) && old(closingTask).NoTask? ==> closingTask == Pending(graceful)
      ensures e.InitiateClose? && !old(closed) && old(closingTask).NoTask? ==> closingTask == Pending(e.drain)
      ensures e.ConnectionLost? || e.InitiateClose? ==>
                (old(closed) || !old(closingTask).NoTask? ==> closingTask == old(closingTask))
      ensures !e.ConnectionLost? && !e.InitiateClose? ==>
                closingTask == if e.ClosingTaskRuns? && old(closingTask).Pending? then Started else old(closingTask)
      ensures e.DrainPassed? && connected ==> !draining && (old(draining) ==> completed)
      ensures inDrain == if e.ApplicationDrain? then e.begins else old(inDrain)
      ensures e.HeartbeatsStarted? ==> monitors
    {
      match e {
        case HeartbeatsStarted => monitors := true;
        case ConnectionLost => InitiateClose(graceful);
        case HeartbeatTrip => if monitors { Close(false); }
        case Logout => if connected { ReaderStop(); }
        case InitiateClose(drain) => InitiateClose(drain);
        case ClosingTaskRuns =>
          if closingTask.Pending? {
            var drain := closingTask.drain;
            closingTask := Started;
            Close(drain);
          }
        case CloseCalled(drain) => Close(drain);
        case ApplicationDrain(begins) => inDrain := begins;
        case DrainPassed =>
          if draining && connected {       // without a reader there is nothing to wait on: an AttributeError
            draining := false;
            Finish();
          }
      }
    }

    /**
     * Any events in any order: the user's handler runs at most once, and exactly once when the session has been
     * closed, its drain included and not refused; then its queue and reader are stopped for good.
     */
    method Run(events: seq<Event>)
      requires Settled()
      modifies this
      ensures Settled()
      ensures handlerRuns <= 1
      ensures closed && !draining && !raised ==>
                queueClosed && (connected ==> readerStopped) && (handler.UserHandler? ==> handlerRuns == 1)
      ensures !closed || raised ==> handlerRuns == 0
      ensures (exists i :: 0 <= i < |events| && events[i].CloseCalled?) ==> closed
    {
      var i := 0;
      while i < |events|
        invariant 0 <= i <= |events| && Settled()
        invariant (exists k :: 0 <= k < i && events[k].CloseCalled?) ==> closed
      {
        Handle(events[i]);
        i := i + 1;
      }
    }
  }

  datatype Request = NotAsked | Asked(drain: bool)

  /** Which events call `close`, and whether for a drain. */
  function Closes(e: Event, connected: bool, monitors: bool, task: Task): Request {
    match e
    case HeartbeatTrip => if monitors then Asked(false) else NotAsked
    case Logout => if connected then Asked(false) else NotAsked
    case ClosingTaskRuns => if task.Pending? then Asked(task.drain) else NotAsked
    case CloseCalled(drain) => Asked(drain)
    case _ => NotAsked
  }
}
