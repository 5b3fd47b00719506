/** An AsyncSession as an object: its reader and its queue, with every event one step of the state machine. */
module AsyncSession {
  import opened Bytes
  import opened Framing
  import opened StreamReader
  import opened SessionDrain
  import Q = MessageQueue

  class AsyncSession<M(!new)> {
    const reader: Reader<M>
    const queue: Q.Queue<M>
    var phase: Phase
    var closed: bool
    var halfClosed: bool
    var handlerRuns: nat

    ghost function State(): Session<M>
      reads this, reader, queue
      requires reader.Valid()
    {
      Session(reader.Look(), queue.State(), phase, closed, halfClosed, handlerRuns)
    }

    /** The drain's phase, the reader's drain buffer and the side queue go together. */
    ghost predicate Valid()
      reads this, reader, queue
    {
      reader.Valid() && WellPhased(reader.protocol, State())
    }

    /** `connection_made`: a reader of the protocol, and a dispatcher if the session has a handler already. */
    constructor (protocol: Protocol<M>, dispatching: bool)
      requires Incremental(protocol)
      ensures Valid() && fresh(reader) && fresh(queue)
      ensures reader.protocol == protocol && State() == Initial(dispatching)
    {
      reader := new Reader(protocol);
      queue := new Q.Queue(dispatching);
      phase, closed, halfClosed, handlerRuns := Idle, false, false, 0;
    }

    /** One turn of the reader task: `on_message` puts on the queue, an end of session closes. */
    method TakeTurn()
      requires Valid()
      modifies this, reader, queue
      ensures reader.Valid() && State() == Next(reader.protocol, old(State()), ReaderTurn)
    {
      if reader.stopped || reader.crashed { return; }
      var turn := reader.Process();
      match turn {
        case Quiet =>
        case Message(m) => queue.PutMessage(m);
        case Logout => CloseRest(false);
      }
    }

    /** The part of `close` that stops the queue and calls the close handler. */
    method CloseRest(own: bool)
      requires reader.Valid()
      modifies this, queue
      ensures reader.Valid() && State() == Closed(old(State()), own)
    {
      if closed { return; }
      closed := true;
      var r := queue.StopQueue(own);
      handlerRuns := handlerRuns + 1;
    }

    method CloseNow(own: bool)
      requires Valid()
      modifies this, reader, queue
      ensures reader.Valid() && State() == Next(reader.protocol, old(State()), Close(own))
    {
      if closed { return; }
      reader.Stop();
      CloseRest(own);
    }

    /** A turn of a task, or a call of the application. */
    method ConsumeEntry(c: Q.Call<M>)
      requires Valid()
      modifies queue
      ensures reader.Valid() && State() == Next(reader.protocol, old(State()), Consume(c))
    {
      hide Q.Step;
      match c {
        case GetNowait => var r := queue.GetMessageNowait();
        case Get => var r := queue.GetMessage();
        case Wake => var r := queue.WakeReader();
        case Start => var r := queue.StartDispatching(true);
        case Pause(own) => var r := queue.PauseDispatching(own);
        case Resume => ResumeQueue();
        case _ => TaskTurn(c);
      }
    }

    /** A turn of a dispatcher task, known or forgotten; other calls are not the consumer's. */
    method TaskTurn(c: Q.Call<M>)
      requires Valid()
      requires !(c.GetNowait? || c.Get? || c.Wake? || c.Start? || c.Pause? || c.Resume?)
      modifies queue
      ensures reader.Valid() && State() == Next(reader.protocol, old(State()), Consume(c))
    {
      hide Q.Step;
      match c {
        case Dispatch => var r := queue.DispatchOne();
        case Rest => queue.RestDispatcher();
        case Forgotten(k, turn) => var r := queue.OrphanTurn(k, turn);
        case _ =>
      }
    }

    /** A pause that was not entered cannot be left. */
    method ResumeQueue()
      requires Valid()
      modifies queue
      ensures reader.Valid() && State() == Next(reader.protocol, old(State()), Consume(Q.Resume))
    {
      if queue.pauses > 0 { queue.ResumeDispatching(); }
    }

    /**
     * Entering the session's `buffer_until_drained`, or `close(drain=True)`: while a drain is in progress the first
     * is refused, and the second is refused after it has marked the session closed.
     */
    method BeginDrain(closing: bool)
      requires Valid()
      modifies this, reader
      ensures reader.Valid() && State() == Next(reader.protocol, old(State()), StartDrain(closing))
    {
      if closing && closed { return; }
      closed := closed || closing;
      var ok := reader.StartDrain();
      if ok { phase := AwaitReader(closing); } else if closing { halfClosed := true; }
    }

    /** Both waits of a drain; each is passed only when what it waits for has happened. */
    method PassWait(e: Event<M>)
      requires Valid() && (e.ReaderDrained? || e.QueueDrained?)
      modifies this, queue
      ensures reader.Valid() && State() == Next(reader.protocol, old(State()), e)
    {
      if e.ReaderDrained? && phase.AwaitReader? && reader.drainMode == Some(true) {
        var r := queue.EnterBuffering();
        phase := AwaitQueue(phase.closing);
      } else if e.QueueDrained? && phase.AwaitQueue? && queue.main == [] {
        phase := Past(phase.closing);
      }
    }

    /** Leaving a drain: the queue's part first, then the reader's, then the rest of a closing `close`. */
    method FinishDrain(discard: bool, own: bool)
      requires Valid()
      modifies this, reader, queue
      ensures reader.Valid() && State() == Next(reader.protocol, old(State()), EndDrain(discard, own))
    {
      hide Q.Step;
      if !phase.Past? || (phase.closing && !discard) { return; }
      queue.LeaveBuffering(discard, own);
      reader.EndDrain(discard);
      if phase.closing { StopAll(own); }
      phase := Idle;
    }

    /** The end of a closing `close`: reader and queue are stopped and the close handler is called. */
    method StopAll(own: bool)
      requires reader.Valid()
      modifies this`handlerRuns, reader, queue
      ensures reader.Valid() && reader.Look() == old(reader.Look()).(loop := Stopped)
      ensures queue.State() == Q.Step(old(queue.State()), Q.Stop(own)).0 && handlerRuns == old(handlerRuns) + 1
    {
      hide Q.Step;
      reader.Stop();
      var r := queue.StopQueue(own);
      handlerRuns := handlerRuns + 1;
    }

    method Handle(e: Event<M>)
      requires Valid()
      modifies this, reader, queue
      ensures Valid() && State() == Next(reader.protocol, old(State()), e)
    {
      hide WellPhased, Next;
      WellPhasedNext(reader.protocol, State(), e);
      match e {
        case Data(bytes) => Receive(bytes);
        case ReaderTurn => TakeTurn();
        case Consume(c) => ConsumeEntry(c);
        case StartDrain(closing) => BeginDrain(closing);
        case ReaderDrained => PassWait(e);
        case QueueDrained => PassWait(e);
        case EndDrain(discard, own) => FinishDrain(discard, own);
        case Close(own) => CloseNow(own);
      }
    }

    /** `data_received`. */
    method Receive(bytes: Bytes)
      requires Valid()
      modifies reader
      ensures reader.Valid() && State() == Next(reader.protocol, old(State()), Data(bytes))
    {
      reader.OnData(bytes);
    }

    /** Any events in any order: the object goes through the states of the machine, event by event. */
    method RunEvents(events: seq<Event<M>>)
      requires Valid()
      modifies this, reader, queue
      ensures Valid() && State() == Run(reader.protocol, old(State()), events)
    {
      hide Next, WellPhased;
      var i := 0;
      while i < |events|
        invariant i <= |events| && Valid()
        invariant Run(reader.protocol, State(), events[i..]) == Run(reader.protocol, old(State()), events)
      {
        assert events[i..][0] == events[i] && events[i..][1..] == events[i + 1..];
        Handle(events[i]);
        i := i + 1;
      }
    }
  }
}
