/** How a session ends by itself: at an end-of-session message, and not at anything else that is read. */
module SessionEnds {
  import opened Bytes
  import opened Framing
  import opened StreamReader
  import opened SessionDrain
  import Q = MessageQueue

  // ---------------------------------------------------------------- one turn

  /** An open session whose next frame ends it is closed in that turn, and the frame is consumed. */
  lemma {:induction false} LogoutTurnCloses<M(!new)>(p: Protocol<M>, s: Session<M>)
    requires Incremental(p) && s.reader.loop.Reading? && !s.closed && !s.queue.closed
    requires p.peek(s.reader.pending).Frame? && p.isLogout(p.peek(s.reader.pending).msg)
    ensures var s', size := Next(p, s, ReaderTurn), p.peek(s.reader.pending).size;
            && s'.closed && s'.queue.closed && !s'.queue.dispatching && s'.handlerRuns == s.handlerRuns + 1
            && s'.reader.loop == Stopped && 0 < size <= |s.reader.pending|
            && s'.reader.pending == s.reader.pending[size..]
            && s'.queue.main == s.queue.main && s'.queue.delivered == s.queue.delivered
  {
    FrameFits(p, s.reader.pending);
  }

  /** Nothing else that a turn reads closes a session: neither a message, a heartbeat nor an exception. */
  lemma {:induction false} OtherTurnsKeepOpen<M(!new)>(p: Protocol<M>, s: Session<M>)
    requires s.reader.loop.Reading?
    requires !(p.peek(s.reader.pending).Frame? && p.isLogout(p.peek(s.reader.pending).msg))
    ensures var s' := Next(p, s, ReaderTurn);
            && s'.closed == s.closed && s'.queue.closed == s.queue.closed && s'.handlerRuns == s.handlerRuns
            && s'.queue.dispatching == s.queue.dispatching && !s'.reader.loop.Stopped?
            && (s'.reader.loop.Crashed? <==> s.reader.pending != [] && p.peek(s.reader.pending).Broken?)
  {
  }

  /** A plain close stops the reader and the queue and runs the handler; what is queued stays where it is. */
  lemma {:induction false} CloseEnds<M>(p: Protocol<M>, s: Session<M>, own: bool)
    requires !s.closed && !s.queue.closed
    ensures var s' := Next(p, s, Close(own));
            && s'.closed && s'.queue.closed && !s'.queue.dispatching && s'.handlerRuns == s.handlerRuns + 1
            && s'.reader == s.reader.(loop := Stopped)
            && s'.queue.main == s.queue.main && s'.queue.delivered == s.queue.delivered
            && Next(p, s', Close(own)) == s'
  {
  }

  // ---------------------------------------------------------------- over whole runs

  /** Nobody closes the session from outside. */
  ghost predicate LeftAlone<M>(events: seq<Event<M>>) {
    forall e :: e in events ==> !e.Close? && !(e.StartDrain? && e.closing)
  }

  /** Closed for good, with its handler run once, if the reader was stopped; and otherwise as open as ever. */
  ghost predicate EndsWithReader<M>(s: Session<M>) {
    && (s.closed <==> s.reader.loop.Stopped?)
    && (s.queue.closed <==> s.closed)
    && s.handlerRuns == (if s.closed then 1 else 0)
    && !s.halfClosed && (!s.phase.Idle? ==> !s.phase.closing)
  }

  lemma {:induction false} EndsNext<M(!new)>(p: Protocol<M>, s: Session<M>, e: Event<M>)
    requires EndsWithReader(s) && !e.Close? && !(e.StartDrain? && e.closing)
    ensures EndsWithReader(Next(p, s, e))
  {
    if e.Consume? && Consumer(e.call) {
      hide Turned, Q.OrphanStep, Q.Taken, Q.Swapped;
      Q.StepShape(s.queue, e.call);
    } else if e.EndDrain? {
      hide Turned, Q.LeftBehind;
    } else {
      hide Q.OrphanStep, Q.Taken, Q.Swapped;
    }
  }

  lemma {:induction false} EndsRun<M(!new)>(p: Protocol<M>, s: Session<M>, events: seq<Event<M>>)
    requires EndsWithReader(s) && LeftAlone(events)
    ensures EndsWithReader(Run(p, s, events))
    decreases |events|
  {
    hide Next, EndsWithReader;
    if events != [] {
      assert events[0] in events && forall e :: e in events[1..] ==> e in events;
      EndsNext(p, s, events[0]);
      EndsRun(p, Next(p, s, events[0]), events[1..]);
    }
  }

  /**
   * A session that nobody closes, over every run, with any number of the application's own drains: it is closed
   * exactly when its reader has read an end-of-session message. Its queue is then stopped, its handler has run once,
   * and the messages before that one are all there. An exception of the reader leaves the session open.
   */
  lemma {:induction false} ClosedByLogout<M(!new)>(p: Protocol<M>, dispatching: bool, events: seq<Event<M>>)
    requires Incremental(p) && Lossless(events) && LeftAlone(events)
    ensures var s, all := Run(p, Initial(dispatching), events), Scan(p, Received(events));
            && (!s.reader.loop.Reading? ==> (s.closed <==> all.end.LoggedOut?) && s.queue.Accepted() == all.msgs)
            && (s.reader.loop.Reading? ==> !s.closed)
            && (s.closed ==> s.queue.closed && s.handlerRuns == 1 && s.reader.loop.Stopped? && all.end.LoggedOut?)
            && (!s.closed ==> !s.queue.closed && s.handlerRuns == 0)
  {
    hide Scan, Incremental, Run, Received;
    EndsRun(p, Initial(dispatching), events);
    ChunkingIndependence(p, dispatching, events);
    InitialConserves(p, dispatching);
    Conservation(p, Initial(dispatching), events, []);
    assert [] + Received(events) == Received(events);
  }

  // ---------------------------------------------------------------- an end of session is reached

  /** Data, turns of the reader, and turns of the dispatcher or reads, but no drain and no close. */
  ghost predicate Plainly<M>(events: seq<Event<M>>) {
    forall e :: e in events ==> e.Data? || e.ReaderTurn? || e.Consume?
  }

  /** How many bytes there are up to the end-of-session message, that included. */
  ghost function UpToLogout<M(!new)>(p: Protocol<M>, b: Bytes): int
    requires Incremental(p)
  {
    |b| - |Scan(p, b).rest|
  }

  /** An unread end-of-session message closes the session once the reader had a turn for every byte before its end. */
  lemma {:induction false} LogoutReached<M(!new)>(p: Protocol<M>, s: Session<M>, events: seq<Event<M>>)
    requires Incremental(p) && EndsWithReader(s) && s.reader.loop.Reading? && s.reader.held.None?
    requires Scan(p, s.reader.pending).end.LoggedOut?
    requires Plainly(events) && ReaderTurns(events) >= UpToLogout(p, s.reader.pending)
    ensures var s' := Run(p, s, events);
            s'.closed && s'.queue.closed && s'.handlerRuns == 1 && s'.reader.loop.Stopped?
    decreases |events|
  {
    hide Scan, Incremental, Next, Run, EndsWithReader, UpToLogout;
    BytesToLogout(p, s.reader.pending);
    assert events != [];
    assert events[0] in events && forall e :: e in events[1..] ==> e in events;
    var s' := Next(p, s, events[0]);
    EndsNext(p, s, events[0]);
    TowardsLogout(p, s, events[0]);
    RunFirst(p, s, events);
    if s'.reader.loop.Reading? {
      LogoutReached(p, s', events[1..]);
    } else {
      EndsRun(p, s', events[1..]);
      StoppedForGood(p, s', events[1..]);
      Ended(Run(p, s', events[1..]));
    }
  }

  lemma {:induction false} Ended<M>(s: Session<M>)
    requires EndsWithReader(s) && s.reader.loop.Stopped?
    ensures s.closed && s.queue.closed && s.handlerRuns == 1
  {
  }

  lemma {:induction false} RunFirst<M(!new)>(p: Protocol<M>, s: Session<M>, events: seq<Event<M>>)
    requires events != []
    ensures Run(p, s, events) == Run(p, Next(p, s, events[0]), events[1..])
    ensures ReaderTurns(events) == (if events[0].ReaderTurn? then 1 else 0) + ReaderTurns(events[1..])
  {
    hide Next;
  }

  lemma {:induction false} StoppedForGood<M(!new)>(p: Protocol<M>, s: Session<M>, events: seq<Event<M>>)
    requires Plainly(events) && s.reader.loop.Stopped?
    ensures Run(p, s, events).reader.loop.Stopped?
    decreases |events|
  {
    hide Turned, Q.Step;
    if events != [] {
      assert events[0] in events && forall e :: e in events[1..] ==> e in events;
      StoppedForGood(p, Next(p, s, events[0]), events[1..]);
    }
  }

  /** A frame takes at least one byte. */
  lemma {:induction false} BytesToLogout<M(!new)>(p: Protocol<M>, b: Bytes)
    requires Incremental(p) && Scan(p, b).end.LoggedOut?
    ensures p.peek(b).Frame? && 0 < p.peek(b).size <= |b|
    ensures UpToLogout(p, b) >= p.peek(b).size
    decreases |b|
  {
    ScanStep(p, b);
    if p.peek(b).Frame? && !p.isLogout(p.peek(b).msg) { BytesToLogout(p, b[p.peek(b).size..]); }
  }

  lemma {:induction false} TowardsLogout<M(!new)>(p: Protocol<M>, s: Session<M>, e: Event<M>)
    requires Incremental(p) && s.reader.loop.Reading? && s.reader.held.None?
    requires Scan(p, s.reader.pending).end.LoggedOut? && (e.Data? || e.ReaderTurn? || e.Consume?)
    ensures var s' := Next(p, s, e);
            && s'.reader.held.None?
            && (s'.reader.loop.Reading? ==>
                  && Scan(p, s'.reader.pending).end.LoggedOut?
                  && UpToLogout(p, s'.reader.pending)
                     <= UpToLogout(p, s.reader.pending) - (if e.ReaderTurn? then 1 else 0))
            && (!s'.reader.loop.Reading? ==> s'.reader.loop.Stopped?)
  {
    hide Scan, Incremental, Q.Step;
    var b := s.reader.pending;
    if e.Data? {
      ScanExtended(p, b, e.bytes);
    } else if e.ReaderTurn? {
      BytesToLogout(p, b);
      ScanStep(p, b);
    }
  }
}
