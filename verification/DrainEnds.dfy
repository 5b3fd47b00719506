/** When a drain ends and what has been delivered then; what closing a session keeps and what it loses. */
module DrainEnds {
  import opened Bytes
  import opened Framing
  import opened StreamReader
  import opened SessionDrain
  import Q = MessageQueue

  // ---------------------------------------------------------------- runs during a drain

  /** Events while a drain waits: it is not left, and nobody closes a session that is still open. */
  ghost predicate Undisturbed<M>(s: Session<M>, events: seq<Event<M>>) {
    forall e :: e in events ==> !e.EndDrain? && (e.Close? ==> s.closed)
  }

  lemma {:induction false} UndisturbedParts<M>(p: Protocol<M>, s: Session<M>, events: seq<Event<M>>)
    requires Undisturbed(s, events) && events != []
    ensures !events[0].EndDrain? && (events[0].Close? ==> s.closed)
    ensures Undisturbed(Next(p, s, events[0]), events[1..])
  {
    assert events[0] in events && forall e :: e in events[1..] ==> e in events;
    if s.closed { ClosedStays(p, s, events[0]); }
  }

  lemma {:induction false} ClosedStays<M>(p: Protocol<M>, s: Session<M>, e: Event<M>)
    requires s.closed
    ensures Next(p, s, e).closed
  {
  }

  lemma {:induction false} RunAppend<M>(p: Protocol<M>, s: Session<M>, a: seq<Event<M>>, b: seq<Event<M>>)
    ensures Run(p, s, a + b) == Run(p, Run(p, s, a), b)
    decreases |a|
  {
    hide Next;
    if a == [] {
      assert a + b == b;
    } else {
      assert (a + b)[1..] == a[1..] + b;
      RunAppend(p, Next(p, s, a[0]), a[1..], b);
    }
  }

  lemma {:induction false} RunOne<M>(p: Protocol<M>, s: Session<M>, e: Event<M>)
    ensures Run(p, s, [e]) == Next(p, s, e)
  {
    hide Next;
    assert [e][1..] == [];
  }

  lemma {:induction false} UndisturbedLater<M>(p: Protocol<M>, s: Session<M>, a: seq<Event<M>>, b: seq<Event<M>>)
    requires Undisturbed(s, a + b)
    ensures Undisturbed(s, a) && Undisturbed(Run(p, s, a), b)
    decreases |a|
  {
    hide Next;
    assert (forall e :: e in a ==> e in a + b) && forall e :: e in b ==> e in a + b;
    if a != [] {
      assert (a + b)[1..] == a[1..] + b;
      UndisturbedParts(p, s, a + b);
      UndisturbedLater(p, Next(p, s, a[0]), a[1..], b);
    }
  }

  // ---------------------------------------------------------------- nothing is lost while a drain waits

  /** From the start of a drain on: `before` was accepted, `pending` was buffered, nothing of it is lost. */
  ghost predicate Draining<M(!new)>(p: Protocol<M>, s: Session<M>, before: seq<M>, pending: Bytes)
    requires Incremental(p)
  {
    && WellPhased(p, s) && !s.phase.Idle?
    && (s.reader.drained ==> s.reader.loop.Reading?)
    && var start := Scan(p, pending);
       if s.reader.loop.Reading? then
         var left := Scan(p, s.reader.pending);
         s.queue.Accepted() + left.msgs == before + start.msgs && left.end == start.end
       else start.end == if s.reader.loop.Crashed? then Failed else LoggedOut
  }

  lemma {:induction false} PhaseStays<M(!new)>(p: Protocol<M>, s: Session<M>, e: Event<M>)
    requires !s.phase.Idle? && !e.EndDrain?
    ensures !Next(p, s, e).phase.Idle? && Next(p, s, e).phase.closing == s.phase.closing
    ensures !s.phase.AwaitReader? ==> !Next(p, s, e).phase.AwaitReader?
  {
    hide Turned;
  }

  lemma {:induction false} PendingStays<M(!new)>(p: Protocol<M>, s: Session<M>, e: Event<M>)
    requires WellPhased(p, s) && !s.phase.Idle? && e.Data?
    ensures Next(p, s, e).reader.pending == s.reader.pending && Next(p, s, e).reader.loop == s.reader.loop
  {
  }

  lemma {:induction false} DrainingTurn<M(!new)>(p: Protocol<M>, s: Session<M>, before: seq<M>, pending: Bytes)
    requires Incremental(p) && Draining(p, s, before, pending) && s.reader.loop.Reading?
    ensures Draining(p, Next(p, s, ReaderTurn), before, pending)
  {
    hide Scan, Incremental, Turned;
    WellPhasedNext(p, s, ReaderTurn);
    PhaseStays(p, s, ReaderTurn);
    TurnScans(p, s.reader, []);
    TurnDrains(p, s.reader);
    TurnAccepts(p, s);
    var (v, t) := Turned(p, s.reader);
    Associates(s.reader.pending, [], []);
    Associates(v.pending, [], []);
    var got := if t.Message? then [t.msg] else [];
    Associates(s.queue.Accepted(), got, Scan(p, v.pending).msgs);
    Associates(got, [], []);
  }

  /** A turn that stops the reader or ends its task does not set the drain event. */
  lemma {:induction false} TurnDrains<M>(p: Protocol<M>, v: View)
    requires v.loop.Reading?
    ensures !Turned(p, v).0.loop.Reading? ==> Turned(p, v).0.drained == v.drained
    ensures v.drained && v.held.Some? && p.peek(v.pending).Wait? ==> Turned(p, v).0.loop.Reading?
  {
  }

  lemma {:induction false} DrainingNext<M(!new)>(p: Protocol<M>, s: Session<M>, e: Event<M>, before: seq<M>,
                                          pending: Bytes)
    requires Incremental(p) && Draining(p, s, before, pending) && !e.EndDrain? && (e.Close? ==> s.closed)
    ensures Draining(p, Next(p, s, e), before, pending)
  {
    hide Scan, Incremental, Turned, Draining;
    if e.ReaderTurn? && s.reader.loop.Reading? {
      DrainingStart(p, s, before, pending);
      DrainingTurn(p, s, before, pending);
    } else {
      DrainingOther(p, s, e, before, pending);
    }
  }

  lemma {:induction false} DrainingStart<M(!new)>(p: Protocol<M>, s: Session<M>, before: seq<M>, pending: Bytes)
    requires Incremental(p) && Draining(p, s, before, pending)
    ensures WellPhased(p, s) && !s.phase.Idle?
  {
  }

  lemma {:induction false} DrainingOther<M(!new)>(p: Protocol<M>, s: Session<M>, e: Event<M>, before: seq<M>,
                                           pending: Bytes)
    requires Incremental(p) && Draining(p, s, before, pending) && !e.EndDrain? && (e.Close? ==> s.closed)
    requires e.ReaderTurn? ==> !s.reader.loop.Reading?
    ensures Draining(p, Next(p, s, e), before, pending)
  {
    hide Scan, Incremental, Turned, WellPhased;
    WellPhasedNext(p, s, e);
    PhaseStays(p, s, e);
    Associates(s.queue.Accepted(), [], []);
    match e
    case Data(_) => PendingStays(p, s, e);
    case Consume(c) => if Consumer(c) { Q.StepAccepts(s.queue, c); }
    case ReaderDrained => Q.StepAccepts(s.queue, Q.StartBuffering);
    case _ =>
  }

  lemma {:induction false} DrainingRun<M(!new)>(p: Protocol<M>, s: Session<M>, events: seq<Event<M>>,
                                                before: seq<M>, pending: Bytes)
    requires Incremental(p) && Draining(p, s, before, pending) && Undisturbed(s, events)
    ensures Draining(p, Run(p, s, events), before, pending)
    decreases |events|
  {
    hide Draining, Next;
    if events != [] {
      UndisturbedParts(p, s, events);
      DrainingNext(p, s, events[0], before, pending);
      DrainingRun(p, Next(p, s, events[0]), events[1..], before, pending);
    }
  }

  lemma {:induction false} DrainingPast<M(!new)>(p: Protocol<M>, s: Session<M>, before: seq<M>, pending: Bytes)
    requires Incremental(p) && Draining(p, s, before, pending) && s.reader.drained
    ensures s.queue.Accepted() == before + Scan(p, pending).msgs && Scan(p, pending).end.Open?
    ensures !s.phase.AwaitReader? ==> s.queue.Accepted() == s.queue.delivered + s.queue.main
    ensures s.reader.loop.Reading?
  {
    Associates(s.queue.Accepted(), [], []);
    Associates(s.queue.delivered + s.queue.main, [], []);
  }

  /** The beginning of a drain. */
  lemma {:induction false} DrainBegins<M(!new)>(p: Protocol<M>, s: Session<M>)
    requires Incremental(p) && WellPhased(p, s) && s.phase.AwaitReader? && s.reader.loop.Reading?
    ensures Draining(p, s, s.queue.Accepted(), s.reader.pending)
    ensures s.queue.Accepted() == s.queue.delivered + s.queue.main
  {
    Associates(s.queue.delivered + s.queue.main, [], []);
  }

  // ---------------------------------------------------------------- what the consumer takes

  /** The event hands an entry to the handler or to a reading application. */
  predicate Takes<M>(s: Session<M>, e: Event<M>) {
    e.Consume? && Consumer(e.call) && Q.Step(s.queue, e.call).1.Item?
  }

  /** How many entries a run takes. */
  function Taken<M>(p: Protocol<M>, s: Session<M>, events: seq<Event<M>>): nat
    decreases |events|
  {
    if events == [] then 0 else (if Takes(s, events[0]) then 1 else 0) + Taken(p, Next(p, s, events[0]), events[1..])
  }

  lemma {:induction false} TakenCounts<M>(p: Protocol<M>, s: Session<M>, events: seq<Event<M>>)
    ensures |Run(p, s, events).queue.delivered| == |s.queue.delivered| + Taken(p, s, events)
    decreases |events|
  {
    hide Next;
    if events != [] {
      NextDelivers(p, s, events[0]);
      TakenCounts(p, Next(p, s, events[0]), events[1..]);
    }
  }

  lemma {:induction false} NextDelivers<M>(p: Protocol<M>, s: Session<M>, e: Event<M>)
    ensures |Next(p, s, e).queue.delivered| == |s.queue.delivered| + if Takes(s, e) then 1 else 0
  {
    hide Turned, Q.Step;
    match e
    case ReaderTurn =>
      var (v, t) := Turned(p, s.reader);
      if t.Message? { Q.StepDelivers(s.queue, Q.Put(t.msg)); }
      Q.StepDelivers(s.queue, Q.Stop(false));
    case Consume(c) => Q.StepDelivers(s.queue, c);
    case ReaderDrained => Q.StepDelivers(s.queue, Q.StartBuffering);
    case EndDrain(discard, own) =>
      Q.StepDelivers(s.queue, Q.EndBuffering(discard, own));
      Q.StepDelivers(Q.Step(s.queue, Q.EndBuffering(discard, own)).0, Q.Stop(own));
    case Close(own) => Q.StepDelivers(s.queue, Q.Stop(own));
    case _ =>
  }

  // ---------------------------------------------------------------- the reader's part

  /**
   * The reader's part of a drain ends: with no logout and no malformed frame pending, more turns than pending
   * bytes set the drain event, whatever happens in between.
   */
  lemma {:induction false} DrainProgress<M(!new)>(p: Protocol<M>, s: Session<M>, events: seq<Event<M>>)
    requires Incremental(p) && WellPhased(p, s) && !s.phase.Idle? && Undisturbed(s, events)
    requires s.reader.loop.Reading? && Scan(p, s.reader.pending).end.Open?
    requires ReaderTurns(events) > |s.reader.pending|
    ensures Run(p, s, events).reader.drained
    decreases |events|
  {
    if s.reader.drained {
      DrainedStays(p, s, events);
    } else {
      var e := events[0];
      UndisturbedParts(p, s, events);
      WellPhasedNext(p, s, e);
      PhaseStays(p, s, e);
      var s' := Next(p, s, e);
      if e.ReaderTurn? {
        QuietTurnWaits(p, s.reader);
        TurnScans(p, s.reader, []);
        assert s.reader.pending + [] == s.reader.pending && s'.reader.pending + [] == s'.reader.pending;
      }
      if s'.reader.drained { DrainedStays(p, s', events[1..]); } else { DrainProgress(p, s', events[1..]); }
    }
  }

  lemma {:induction false} DrainedStays<M(!new)>(p: Protocol<M>, s: Session<M>, events: seq<Event<M>>)
    requires Incremental(p) && WellPhased(p, s) && !s.phase.Idle? && s.reader.drained && Undisturbed(s, events)
    ensures Run(p, s, events).reader.drained
    decreases |events|
  {
    if events != [] {
      UndisturbedParts(p, s, events);
      WellPhasedNext(p, s, events[0]);
      PhaseStays(p, s, events[0]);
      DrainedStays(p, Next(p, s, events[0]), events[1..]);
    }
  }

  /** Once the reader has stopped before its event was set, the drain never gets past. */
  lemma {:induction false} StoppedStays<M(!new)>(p: Protocol<M>, s: Session<M>, events: seq<Event<M>>)
    requires Incremental(p) && WellPhased(p, s) && s.phase.AwaitReader? && !s.reader.loop.Reading? && !s.reader.drained
    ensures var done := Run(p, s, events);
            done.phase.AwaitReader? && !done.reader.loop.Reading? && !done.reader.drained
    decreases |events|
  {
    if events != [] {
      WellPhasedNext(p, s, events[0]);
      StoppedStays(p, Next(p, s, events[0]), events[1..]);
    }
  }

  // ---------------------------------------------------------------- the whole drain

  /** The entries a drain has to get rid of: those queued and those the pending bytes still hold. */
  ghost function Entries<M(!new)>(p: Protocol<M>, s: Session<M>): nat
    requires Incremental(p)
  {
    |s.queue.main| + |Scan(p, s.reader.pending).msgs|
  }

  /** In any run, a drain that got past had no logout or malformed frame to read and every entry taken. */
  lemma {:induction false} PastNeeds<M(!new)>(p: Protocol<M>, s: Session<M>, events: seq<Event<M>>)
    requires Incremental(p) && WellPhased(p, s) && s.phase.AwaitReader? && s.reader.loop.Reading?
    requires Undisturbed(s, events) && Run(p, s, events).phase.Past?
    ensures Scan(p, s.reader.pending).end.Open? && Taken(p, s, events) == Entries(p, s)
  {
    hide Next, Draining, Scan, Incremental;
    DrainBegins(p, s);
    DrainingRun(p, s, events, s.queue.Accepted(), s.reader.pending);
    var done := Run(p, s, events);
    DrainingStart(p, done, s.queue.Accepted(), s.reader.pending);
    DrainingPast(p, done, s.queue.Accepted(), s.reader.pending);
    TakenCounts(p, s, events);
  }

  /**
   * A whole drain whose waits are given their chance: more reader turns than pending bytes, the reader's wait,
   * the consumer, the queue's wait. It gets past if and only if the pending bytes hold no logout and no malformed
   * frame, and every entry queued or still to be read is taken by the dispatcher or by reads.
   */
  lemma {:induction false} DrainEndsExactly<M(!new)>(p: Protocol<M>, s: Session<M>, reading: seq<Event<M>>,
                                              taking: seq<Event<M>>)
    requires Incremental(p) && WellPhased(p, s) && s.phase.AwaitReader? && s.reader.loop.Reading?
    requires ReaderTurns(reading) > |s.reader.pending|
    requires Undisturbed(s, reading + [ReaderDrained] + taking + [QueueDrained])
    ensures Run(p, s, reading + [ReaderDrained] + taking + [QueueDrained]).phase.Past? <==>
            Scan(p, s.reader.pending).end.Open? && Taken(p, s, reading + [ReaderDrained] + taking) == Entries(p, s)
  {
    hide Next, Draining, Scan, Incremental, Undisturbed, WellPhased;
    var first := reading + [ReaderDrained] + taking;
    var all := first + [QueueDrained];
    if Run(p, s, all).phase.Past? {
      PastNeeds(p, s, all);
      TakenCounts(p, s, all);
      TakenCounts(p, s, first);
      RunAppend(p, s, first, [QueueDrained]);
      RunOne(p, Run(p, s, first), QueueDrained);
      NextDelivers(p, Run(p, s, first), QueueDrained);
    } else if Scan(p, s.reader.pending).end.Open? {
      UndisturbedLater(p, s, first, [QueueDrained]);
      assert first == reading + ([ReaderDrained] + taking);
      UndisturbedLater(p, s, reading, [ReaderDrained] + taking);
      ReaderDone(p, s, reading, taking);
      QueueNotEmpty(p, s, first);
    }
  }

  /** After the reader's part the drain waits for the queue, or is past. */
  lemma {:induction false} ReaderDone<M(!new)>(p: Protocol<M>, s: Session<M>, reading: seq<Event<M>>,
                                        taking: seq<Event<M>>)
    requires Incremental(p) && WellPhased(p, s) && s.phase.AwaitReader? && s.reader.loop.Reading?
    requires Scan(p, s.reader.pending).end.Open? && ReaderTurns(reading) > |s.reader.pending|
    requires Undisturbed(s, reading) && Undisturbed(Run(p, s, reading), [ReaderDrained] + taking)
    ensures var done := Run(p, s, reading + [ReaderDrained] + taking);
            WellPhased(p, done) && (done.phase.AwaitQueue? || done.phase.Past?)
  {
    hide Draining, Scan, Incremental, Undisturbed, Turned;
    DrainBegins(p, s);
    DrainProgress(p, s, reading);
    DrainingRun(p, s, reading, s.queue.Accepted(), s.reader.pending);
    var read := Run(p, s, reading);
    DrainingStart(p, read, s.queue.Accepted(), s.reader.pending);
    var after := Next(p, read, ReaderDrained);
    assert !after.phase.AwaitReader?;
    RunAppend(p, s, reading, [ReaderDrained] + taking);
    assert reading + [ReaderDrained] + taking == reading + ([ReaderDrained] + taking);
    RunAppend(p, read, [ReaderDrained], taking);
    RunOne(p, read, ReaderDrained);
    UndisturbedParts(p, read, [ReaderDrained] + taking);
    assert ([ReaderDrained] + taking)[1..] == taking;
    WellPhasedNext(p, read, ReaderDrained);
    OnwardStays(p, after, taking);
  }

  lemma {:induction false} OnwardStays<M(!new)>(p: Protocol<M>, s: Session<M>, events: seq<Event<M>>)
    requires Incremental(p) && WellPhased(p, s) && (s.phase.AwaitQueue? || s.phase.Past?) && Undisturbed(s, events)
    ensures var done := Run(p, s, events);
            WellPhased(p, done) && (done.phase.AwaitQueue? || done.phase.Past?)
    decreases |events|
  {
    hide Next, Incremental, WellPhased;
    if events != [] {
      UndisturbedParts(p, s, events);
      WellPhasedNext(p, s, events[0]);
      PhaseStays(p, s, events[0]);
      OnwardStays(p, Next(p, s, events[0]), events[1..]);
    }
  }

  /** A drain that waits for the queue and would not get past now has entries left that nobody took. */
  lemma {:induction false} QueueNotEmpty<M(!new)>(p: Protocol<M>, s: Session<M>, first: seq<Event<M>>)
    requires Incremental(p) && WellPhased(p, s) && s.phase.AwaitReader? && s.reader.loop.Reading?
    requires Undisturbed(s, first) && WellPhased(p, Run(p, s, first))
    requires Run(p, s, first).phase.AwaitQueue? || Run(p, s, first).phase.Past?
    ensures Run(p, s, first + [QueueDrained]).phase.Past? || Taken(p, s, first) < Entries(p, s)
  {
    hide Draining, Scan, Incremental, Undisturbed, Turned;
    var done := Run(p, s, first);
    DrainBegins(p, s);
    DrainingRun(p, s, first, s.queue.Accepted(), s.reader.pending);
    DrainingPast(p, done, s.queue.Accepted(), s.reader.pending);
    TakenCounts(p, s, first);
    RunAppend(p, s, first, [QueueDrained]);
    RunOne(p, done, QueueDrained);
  }

  // ---------------------------------------------------------------- consumers

  function DispatchTurns<M>(events: seq<Event<M>>): nat
    decreases |events|
  {
    if events == [] then 0
    else (if events[0].Consume? && events[0].call.Dispatch? then 1 else 0) + DispatchTurns(events[1..])
  }

  /** The application leaves the queue to its dispatcher. */
  predicate DispatcherOnly<M>(events: seq<Event<M>>) {
    forall i :: 0 <= i < |events| && events[i].Consume? ==> events[i].call.Dispatch? || events[i].call.Rest?
  }

  /** With a dispatcher running, as many turns of it as entries empty the queue of a drain. */
  lemma {:induction false} DispatcherEmpties<M(!new)>(p: Protocol<M>, s: Session<M>, events: seq<Event<M>>)
    requires Incremental(p) && WellPhased(p, s) && (s.phase.AwaitQueue? || s.phase.Past?)
    requires Undisturbed(s, events) && s.reader.loop.Reading? && s.queue.dispatching && DispatcherOnly(events)
    requires DispatchTurns(events) >= |s.queue.main|
    ensures Run(p, s, events).queue.main == []
    decreases |events|
  {
    hide Incremental, Undisturbed, Next, WellPhased;
    if events != [] {
      var e := events[0];
      UndisturbedParts(p, s, events);
      WellPhasedNext(p, s, e);
      PhaseStays(p, s, e);
      DispatcherNext(p, s, e);
      assert forall i :: 0 <= i < |events[1..]| ==> events[1..][i] == events[i + 1];
      DispatcherEmpties(p, Next(p, s, e), events[1..]);
    }
  }

  lemma {:induction false} DispatcherNext<M(!new)>(p: Protocol<M>, s: Session<M>, e: Event<M>)
    requires Incremental(p) && WellPhased(p, s) && (s.phase.AwaitQueue? || s.phase.Past?)
    requires !e.EndDrain? && (e.Close? ==> s.closed) && (e.Consume? ==> e.call.Dispatch? || e.call.Rest?)
    requires s.reader.loop.Reading? && s.queue.dispatching
    ensures var s' := Next(p, s, e);
            && s'.reader.loop.Reading? && s'.queue.dispatching && |s'.queue.main| <= |s.queue.main|
            && (e.Consume? && e.call.Dispatch? && s.queue.main != [] ==> |s'.queue.main| == |s.queue.main| - 1)
  {
    hide Q.Step, Incremental;
    if e.Consume? { Q.StepShape(s.queue, e.call); }
  }

  lemma {:induction false} DispatchingStays<M(!new)>(p: Protocol<M>, s: Session<M>, events: seq<Event<M>>)
    requires Incremental(p) && WellPhased(p, s) && !s.phase.Idle? && Undisturbed(s, events)
    requires s.reader.loop.Reading? && Scan(p, s.reader.pending).end.Open?
    requires s.queue.dispatching && DispatcherOnly(events)
    ensures Run(p, s, events).queue.dispatching
    decreases |events|
  {
    hide Incremental, Undisturbed, Scan, Next, WellPhased;
    if events != [] {
      var e := events[0];
      UndisturbedParts(p, s, events);
      WellPhasedNext(p, s, e);
      PhaseStays(p, s, e);
      DispatchingNext(p, s, e);
      assert forall i :: 0 <= i < |events[1..]| ==> events[1..][i] == events[i + 1];
      DispatchingStays(p, Next(p, s, e), events[1..]);
    }
  }

  lemma {:induction false} DispatchingNext<M(!new)>(p: Protocol<M>, s: Session<M>, e: Event<M>)
    requires Incremental(p) && WellPhased(p, s) && !s.phase.Idle?
    requires !e.EndDrain? && (e.Close? ==> s.closed) && (e.Consume? ==> e.call.Dispatch? || e.call.Rest?)
    requires s.reader.loop.Reading? && Scan(p, s.reader.pending).end.Open? && s.queue.dispatching
    ensures var s' := Next(p, s, e);
            s'.reader.loop.Reading? && Scan(p, s'.reader.pending).end.Open? && s'.queue.dispatching
  {
    hide Q.Step, Incremental, Scan, Turned;
    if e.Consume? { Q.StepShape(s.queue, e.call); }
    if e.ReaderDrained? { Q.StepShape(s.queue, Q.StartBuffering); }
    if e.ReaderTurn? {
      var (v, t) := Turned(p, s.reader);
      TurnScans(p, s.reader, []);
      Associates(s.reader.pending, [], []);
      Associates(v.pending, [], []);
      if t.Message? { Q.StepShape(s.queue, Q.Put(t.msg)); }
    }
  }

  /**
   * With a dispatcher running and nothing but ordinary frames pending, every schedule that gives the reader more
   * turns than pending bytes, and then the dispatcher as many turns as there are entries, gets past.
   */
  lemma {:induction false} DispatchedDrainEnds<M(!new)>(p: Protocol<M>, s: Session<M>, reading: seq<Event<M>>,
                                                 taking: seq<Event<M>>)
    requires Incremental(p) && WellPhased(p, s) && s.phase.AwaitReader? && s.reader.loop.Reading?
    requires Scan(p, s.reader.pending).end.Open? && s.queue.dispatching
    requires Undisturbed(s, reading + [ReaderDrained] + taking + [QueueDrained])
    requires DispatcherOnly(reading) && DispatcherOnly(taking)
    requires ReaderTurns(reading) > |s.reader.pending| && DispatchTurns(taking) >= Entries(p, s)
    ensures Run(p, s, reading + [ReaderDrained] + taking + [QueueDrained]).phase.Past?
  {
    hide Scan, Incremental, Undisturbed, Turned, Draining;
    var rest := [ReaderDrained] + taking + [QueueDrained];
    assert reading + [ReaderDrained] + taking + [QueueDrained] == reading + rest;
    UndisturbedLater(p, s, reading, rest);
    var read := Run(p, s, reading);
    assert rest == ([ReaderDrained] + taking) + [QueueDrained];
    UndisturbedLater(p, read, [ReaderDrained] + taking, [QueueDrained]);
    UndisturbedLater(p, read, [ReaderDrained], taking);
    var none: seq<Event<M>>, one: seq<Event<M>> := [], [ReaderDrained];
    assert one + none == one;
    ReaderDone(p, s, reading, none);
    assert reading + one + none == reading + one;
    DispatchingStays(p, s, reading);
    DrainBegins(p, s);
    DrainingRun(p, s, reading, s.queue.Accepted(), s.reader.pending);
    DrainProgress(p, s, reading);
    DrainingPast(p, read, s.queue.Accepted(), s.reader.pending);
    RunAppend(p, s, reading, [ReaderDrained]);
    RunOne(p, read, ReaderDrained);
    var after := Next(p, read, ReaderDrained);
    MainBounded(p, s, reading);
    DispatcherEmpties(p, after, taking);
    OnwardStays(p, after, taking);
    RunAppend(p, read, [ReaderDrained], taking);
    RunAppend(p, read, [ReaderDrained] + taking, [QueueDrained]);
    RunOne(p, Run(p, after, taking), QueueDrained);
    RunAppend(p, s, reading, rest);
  }

  /** When the reader is done, no more entries wait than there were to get rid of. */
  lemma {:induction false} MainBounded<M(!new)>(p: Protocol<M>, s: Session<M>, reading: seq<Event<M>>)
    requires Incremental(p) && WellPhased(p, s) && s.phase.AwaitReader? && s.reader.loop.Reading?
    requires Undisturbed(s, reading) && Run(p, s, reading).reader.drained
    ensures |Run(p, s, reading).queue.main| <= Entries(p, s)
  {
    hide Scan, Incremental, Undisturbed, Draining;
    var read := Run(p, s, reading);
    DrainBegins(p, s);
    DrainingRun(p, s, reading, s.queue.Accepted(), s.reader.pending);
    DrainingPast(p, read, s.queue.Accepted(), s.reader.pending);
    TakenCounts(p, s, reading);
  }

  /** Turns of whatever tasks there are, as opposed to calls of the application. */
  predicate TaskTurn<M>(c: Q.Call<M>) {
    c.Dispatch? || c.Rest? || c.Wake? || c.Forgotten?
  }

  /** No task takes entries: no dispatcher, none forgotten, no waiting read. */
  predicate NoTaker<M>(q: Q.Store<M>) {
    !q.dispatching && !q.handling && !q.Stray() && !q.reading.Waiting?
  }

  /** Nothing takes entries: there is no task to do it, and the application does not read or start dispatching. */
  ghost predicate Unconsumed<M>(s: Session<M>, events: seq<Event<M>>) {
    NoTaker(s.queue) && forall e :: e in events && e.Consume? ==> TaskTurn(e.call)
  }

  lemma {:induction false} NoTakerStep<M>(q: Q.Store<M>, c: Q.Call<M>)
    requires NoTaker(q) && TaskTurn(c)
    ensures Q.Step(q, c).0 == q && !Q.Step(q, c).1.Item?
  {
  }

  lemma {:induction false} UnconsumedNext<M>(p: Protocol<M>, s: Session<M>, e: Event<M>)
    requires NoTaker(s.queue) && !e.EndDrain? && (e.Close? ==> s.closed) && (e.Consume? ==> TaskTurn(e.call))
    ensures NoTaker(Next(p, s, e).queue) && !Takes(s, e)
  {
    hide Turned;
    if e.Consume? { NoTakerStep(s.queue, e.call); }
  }

  lemma {:induction false} UnconsumedTakesNothing<M>(p: Protocol<M>, s: Session<M>, events: seq<Event<M>>)
    requires Unconsumed(s, events) && Undisturbed(s, events)
    ensures Taken(p, s, events) == 0
    decreases |events|
  {
    hide Undisturbed, Next;
    if events != [] {
      UndisturbedParts(p, s, events);
      assert events[0] in events && forall e :: e in events[1..] ==> e in events;
      UnconsumedNext(p, s, events[0]);
      UnconsumedTakesNothing(p, Next(p, s, events[0]), events[1..]);
    }
  }

  /** A drain with an entry to get rid of and nobody to take it never gets past, in any run. */
  lemma {:induction false} UnconsumedNeverEnds<M(!new)>(p: Protocol<M>, s: Session<M>, events: seq<Event<M>>)
    requires Incremental(p) && WellPhased(p, s) && s.phase.AwaitReader? && s.reader.loop.Reading?
    requires Undisturbed(s, events) && Unconsumed(s, events) && Entries(p, s) > 0
    ensures !Run(p, s, events).phase.Past?
  {
    hide Undisturbed, Unconsumed, Scan, Incremental;
    UnconsumedTakesNothing(p, s, events);
    if Run(p, s, events).phase.Past? { PastNeeds(p, s, events); }
  }

  // ---------------------------------------------------------------- graceful close

  /**
   * Graceful close. In any run, when a drain begun after `before` gets past its waiting, then exactly the
   * messages of the bytes received before it began have been delivered, each once and in arrival order;
   * and those bytes held no logout and no malformed frame.
   */
  lemma {:induction false} GracefulClose<M(!new)>(p: Protocol<M>, dispatching: bool, before: seq<Event<M>>,
                                                  closing: bool, after: seq<Event<M>>)
    requires Incremental(p) && Lossless(before)
    requires var s := Run(p, Initial(dispatching), before);
             s.phase.Idle? && !s.closed && Undisturbed(Next(p, s, StartDrain(closing)), after)
    requires Run(p, Next(p, Run(p, Initial(dispatching), before), StartDrain(closing)), after).phase.Past?
    ensures var done := Run(p, Next(p, Run(p, Initial(dispatching), before), StartDrain(closing)), after);
            && Scan(p, Received(before)).end.Open?
            && done.queue.delivered == Scan(p, Received(before)).msgs
  {
    var s := Run(p, Initial(dispatching), before);
    var s1 := Next(p, s, StartDrain(closing));
    InitialConserves(p, dispatching);
    Conservation(p, Initial(dispatching), before, []);
    assert [] + Received(before) == Received(before);
    WellPhasedNext(p, s, StartDrain(closing));
    assert s.reader.Unread() == s.reader.pending + [] == s.reader.pending;
    if s.reader.loop.Reading? {
      DrainBegins(p, s1);
      DrainingRun(p, s1, after, s1.queue.Accepted(), s.reader.pending);
      var done := Run(p, s1, after);
      DrainingPast(p, done, s1.queue.Accepted(), s.reader.pending);
      Associates(done.queue.delivered, [], []);
    } else {
      StoppedStays(p, s1, after);
    }
  }

  // ---------------------------------------------------------------- graceful close on a stream of frames

  lemma {:induction false} StoppedNeverCrashes<M>(p: Protocol<M>, s: Session<M>, events: seq<Event<M>>)
    requires s.reader.loop.Stopped?
    ensures NeverCrashes(p, s, events)
    decreases |events|
  {
    if events != [] { StoppedNeverCrashes(p, Next(p, s, events[0]), events[1..]); }
  }

  /** While a drain waits, no exception ends the reader unless the pending bytes hold a malformed frame. */
  lemma {:induction false} DrainingNeverCrashes<M(!new)>(p: Protocol<M>, s: Session<M>, events: seq<Event<M>>,
                                                         before: seq<M>, pending: Bytes)
    requires Incremental(p) && Draining(p, s, before, pending) && Undisturbed(s, events)
    requires Scan(p, pending).end != Failed
    ensures NeverCrashes(p, s, events)
    decreases |events|
  {
    hide Next, Scan, Incremental, Undisturbed;
    if events != [] {
      UndisturbedParts(p, s, events);
      DrainingNext(p, s, events[0], before, pending);
      DrainingNeverCrashes(p, Next(p, s, events[0]), events[1..], before, pending);
    }
  }

  /**
   * On a stream of frames a reader that gives up early and the one it guards go through the same drain: neither is
   * ended by an exception, before the drain or in it.
   */
  lemma {:induction false} DrainAgrees<M(!new)>(q: Protocol<M>, p: Protocol<M>, frames: seq<Bytes>, msgs: seq<M>,
                                                k: nat, dispatching: bool, before: seq<Event<M>>, closing: bool,
                                                after: seq<Event<M>>)
    requires Incremental(q) && Guards(q, p) && |frames| == |msgs| && k <= |Concat(frames)|
    requires forall i :: 0 <= i < |frames| ==> Frames(q, frames[i], msgs[i])
    requires Received(before) == Concat(frames)[..k] && Lossless(before)
    requires var s := Run(p, Initial(dispatching), before);
             s.phase.Idle? && !s.closed && Undisturbed(Next(p, s, StartDrain(closing)), after)
    ensures var s := Run(q, Initial(dispatching), before);
            && s == Run(p, Initial(dispatching), before)
            && Next(q, s, StartDrain(closing)) == Next(p, s, StartDrain(closing))
            && Run(q, Next(q, s, StartDrain(closing)), after) == Run(p, Next(p, s, StartDrain(closing)), after)
  {
    hide Scan, Incremental, Undisturbed, Frames, Guards, Concat, Received, Draining;
    FramesNeverCrash(q, frames, msgs, k, dispatching, before);
    RunAgrees(q, p, Initial(dispatching), before);
    var s := Run(q, Initial(dispatching), before);
    var s1 := Next(q, s, StartDrain(closing));
    InitialConserves(q, dispatching);
    Conservation(q, Initial(dispatching), before, []);
    Associates(Received(before), [], []);
    WellPhasedNext(q, s, StartDrain(closing));
    ScanFrames(q, frames, msgs, k);
    if s.reader.loop.Reading? {
      DrainBegins(q, s1);
      Associates(s.reader.pending, [], []);
      DrainingNeverCrashes(q, s1, after, s1.queue.Accepted(), s.reader.pending);
    } else {
      StoppedNeverCrashes(q, s1, after);
    }
    RunAgrees(q, p, s1, after);
  }

  // ---------------------------------------------------------------- the close handler

  /** `close` has got through to its end. */
  predicate Completed<M>(s: Session<M>) {
    s.closed && !s.halfClosed && (s.phase.Idle? || !s.phase.closing)
  }

  /** The close handler has run once if a close has completed, else never. */
  ghost predicate HandlerCounted<M>(s: Session<M>) {
    && s.handlerRuns == (if Completed(s) then 1 else 0)
    && (s.queue.closed <==> Completed(s))
    && (!s.phase.Idle? && s.phase.closing ==> s.closed && !s.halfClosed)
    && (s.halfClosed ==> s.closed)
  }

  lemma {:induction false} HandlerNext<M>(p: Protocol<M>, s: Session<M>, e: Event<M>)
    requires HandlerCounted(s)
    ensures HandlerCounted(Next(p, s, e))
  {
    hide Turned;
    if e.Consume? && Consumer(e.call) { ConsumerOpen(s.queue, e.call); }
  }

  lemma {:induction false} ConsumerOpen<M>(q: Q.Store<M>, c: Q.Call<M>)
    requires Consumer(c)
    ensures Q.Step(q, c).0.closed == q.closed && Q.Step(q, c).0.side == q.side
  {
  }

  /** Over every run the close handler runs at most once, and exactly once when a close has completed. */
  lemma {:induction false} HandlerOnce<M>(p: Protocol<M>, s: Session<M>, events: seq<Event<M>>)
    requires HandlerCounted(s)
    ensures HandlerCounted(Run(p, s, events))
    decreases |events|
  {
    hide Next;
    if events != [] {
      HandlerNext(p, s, events[0]);
      HandlerOnce(p, Next(p, s, events[0]), events[1..]);
    }
  }

  /** While a closing drain is not left, the close handler does not run. */
  lemma {:induction false} HandlerWaits<M>(p: Protocol<M>, s: Session<M>, events: seq<Event<M>>)
    requires s.closed && !s.phase.Idle? && s.phase.closing
    requires forall e :: e in events ==> !e.EndDrain?
    ensures Run(p, s, events).handlerRuns == s.handlerRuns
    decreases |events|
  {
    hide Turned;
    if events != [] {
      assert events[0] in events && forall e :: e in events[1..] ==> e in events;
      HandlerWaits(p, Next(p, s, events[0]), events[1..]);
    }
  }

  /**
   * `close(drain=True)` that completes: before its handler runs for the first and only time, exactly what was
   * received before the close has been delivered; afterwards nothing more is.
   */
  lemma {:induction false} HandlerAfterDrain<M(!new)>(p: Protocol<M>, dispatching: bool, before: seq<Event<M>>,
                                                      after: seq<Event<M>>, own: bool)
    requires Incremental(p) && Lossless(before)
    requires var s := Run(p, Initial(dispatching), before);
             s.phase.Idle? && !s.closed && Undisturbed(Next(p, s, StartDrain(true)), after)
    requires Run(p, Next(p, Run(p, Initial(dispatching), before), StartDrain(true)), after).phase.Past?
    ensures var done := Run(p, Next(p, Run(p, Initial(dispatching), before), StartDrain(true)), after);
            var end := Next(p, done, EndDrain(true, own));
            && done.handlerRuns == 0 && end.handlerRuns == 1
            && end.queue.Accepted() == end.queue.delivered == Scan(p, Received(before)).msgs
            && end.reader.loop.Stopped? && !end.queue.dispatching
  {
    hide Scan, Incremental, Undisturbed, Turned;
    GracefulClose(p, dispatching, before, true, after);
    var s := Run(p, Initial(dispatching), before);
    var s1 := Next(p, s, StartDrain(true));
    HandlerOnce(p, Initial(dispatching), before);
    HandlerOnce(p, s1, after);
    var done := Run(p, s1, after);
    PastPhased(p, dispatching, before, after);
    var end := Next(p, done, EndDrain(true, own));
    Associates(end.queue.delivered, [], []);
  }

  lemma {:induction false} PastPhased<M(!new)>(p: Protocol<M>, dispatching: bool, before: seq<Event<M>>,
                                        after: seq<Event<M>>)
    requires Incremental(p) && Lossless(before)
    requires var s := Run(p, Initial(dispatching), before);
             s.phase.Idle? && !s.closed && Undisturbed(Next(p, s, StartDrain(true)), after)
    ensures var done := Run(p, Next(p, Run(p, Initial(dispatching), before), StartDrain(true)), after);
            WellPhased(p, done) && !done.phase.Idle? && done.phase.closing && done.closed
  {
    hide Scan, Incremental, Undisturbed, WellPhased;
    InitialConserves(p, dispatching);
    PhasedRun(p, Initial(dispatching), before);
    var s := Run(p, Initial(dispatching), before);
    WellPhasedNext(p, s, StartDrain(true));
    ClosingRun(p, Next(p, s, StartDrain(true)), after);
  }

  lemma {:induction false} PhasedRun<M(!new)>(p: Protocol<M>, s: Session<M>, events: seq<Event<M>>)
    requires Incremental(p) && WellPhased(p, s)
    ensures WellPhased(p, Run(p, s, events))
    decreases |events|
  {
    hide Next, WellPhased, Incremental;
    if events != [] {
      WellPhasedNext(p, s, events[0]);
      PhasedRun(p, Next(p, s, events[0]), events[1..]);
    }
  }

  lemma {:induction false} ClosingRun<M(!new)>(p: Protocol<M>, s: Session<M>, events: seq<Event<M>>)
    requires Incremental(p) && WellPhased(p, s) && !s.phase.Idle? && s.phase.closing && s.closed &&
             Undisturbed(s, events)
    ensures var done := Run(p, s, events);
            WellPhased(p, done) && !done.phase.Idle? && done.phase.closing && done.closed
    decreases |events|
  {
    hide Next, WellPhased, Incremental, Undisturbed;
    if events != [] {
      UndisturbedParts(p, s, events);
      WellPhasedNext(p, s, events[0]);
      PhaseStays(p, s, events[0]);
      ClosedStays(p, s, events[0]);
      ClosingRun(p, Next(p, s, events[0]), events[1..]);
    }
  }

  // ---------------------------------------------------------------- a close that cannot drain

  /**
   * Half closed for good: in every later run, with any further closes, the close handler does not run and the queue
   * is not stopped.
   */
  lemma {:induction false} HalfClosedStays<M>(p: Protocol<M>, s: Session<M>, events: seq<Event<M>>)
    requires HandlerCounted(s) && s.halfClosed
    ensures var end := Run(p, s, events);
            end.closed && end.halfClosed && end.handlerRuns == 0 && !end.queue.closed
    decreases |events|
  {
    hide Next;
    if events != [] {
      HandlerNext(p, s, events[0]);
      HalfNext(p, s, events[0]);
      HalfClosedStays(p, Next(p, s, events[0]), events[1..]);
    }
  }

  lemma {:induction false} HalfNext<M>(p: Protocol<M>, s: Session<M>, e: Event<M>)
    requires s.halfClosed && s.closed
    ensures Next(p, s, e).halfClosed
  {
    hide Turned;
  }

  /**
   * `close(drain=True)` of an open session enters its drain if and only if no drain is in progress. If one is, the
   * session is marked closed and nothing else changes; it is half closed from then on, in every run.
   */
  lemma {:induction false} ClosingDrainEntered<M>(p: Protocol<M>, s: Session<M>, later: seq<Event<M>>)
    requires HandlerCounted(s) && !s.closed
    ensures var s' := Next(p, s, StartDrain(true));
            && (s'.phase == AwaitReader(true) <==> s.phase.Idle?)
            && (s.phase.Idle? ==> !s'.halfClosed)
            && (!s.phase.Idle? ==>
                  && s' == s.(closed := true, halfClosed := true)
                  && var end := Run(p, s', later);
                     end.closed && end.halfClosed && end.handlerRuns == 0 && !end.queue.closed)
  {
    HandlerNext(p, s, StartDrain(true));
    var s' := Next(p, s, StartDrain(true));
    if s'.halfClosed { HalfClosedStays(p, s', later); }
  }

  /** A connection lost while the application drains: the session is half closed whatever follows. */
  lemma {:induction false} ConnectionLostWhileDraining<M>(p: Protocol<M>, dispatching: bool, later: seq<Event<M>>)
    ensures var end := Run(p, Initial(dispatching), [StartDrain(false), StartDrain(true)] + later);
            end.closed && end.halfClosed && end.handlerRuns == 0 && !end.queue.closed
  {
    var s := Initial<M>(dispatching);
    var a: seq<Event<M>>, b: seq<Event<M>> := [StartDrain(false)], [StartDrain(true)];
    assert [StartDrain(false), StartDrain(true)] == a + b;
    RunAppend(p, s, a + b, later);
    RunAppend(p, s, a, b);
    RunOne(p, s, StartDrain(false));
    RunOne(p, Next(p, s, StartDrain(false)), StartDrain(true));
    HalfClosedStays(p, Run(p, s, a + b), later);
  }

  // ---------------------------------------------------------------- plain close

  /** After a plain close no task is left that could take entries, or there are none to take. */
  predicate Silenced<M>(s: Session<M>, own: bool) {
    s.queue.main == [] || (!s.queue.Stray() && !s.queue.Own(own))
  }

  /** Later events that are no calls of the application on the queue. */
  ghost predicate Unattended<M>(events: seq<Event<M>>) {
    forall e :: e in events && e.Consume? ==> TaskTurn(e.call)
  }

  /**
   * What a plain close loses. With no drain in progress, nothing more is delivered in any later run without calls of
   * the application if and only if the close is not made by the dispatcher's own handler and no dispatcher was
   * forgotten before, or nothing is queued. Then the messages lost are exactly those queued or unread when it came.
   */
  lemma {:induction false} PlainCloseLoses<M(!new)>(p: Protocol<M>, dispatching: bool, before: seq<Event<M>>, own: bool)
    requires Incremental(p) && Lossless(before)
    requires var s := Run(p, Initial(dispatching), before);
             !s.closed && s.reader.loop.Reading? && s.phase.Idle?
    ensures var s := Run(p, Initial(dispatching), before);
            var now := Next(p, s, Close(own));
            && now.handlerRuns == 1
            && Scan(p, Received(before)).msgs == s.queue.delivered + s.queue.main + Scan(p, s.reader.pending).msgs
            && ((forall after :: Unattended(after) ==> Run(p, now, after).queue.delivered == s.queue.delivered)
                <==> Silenced(s, own))
  {
    hide Scan, Incremental, Turned, Unattended;
    InitialConserves(p, dispatching);
    Conservation(p, Initial(dispatching), before, []);
    Associates(Received(before), [], []);
    HandlerOnce(p, Initial(dispatching), before);
    var s := Run(p, Initial(dispatching), before);
    Associates(s.queue.delivered + s.queue.main, [], []);
    Associates(s.reader.pending, [], []);
    var now := Next(p, s, Close(own));
    if Silenced(s, own) {
      forall after | Unattended(after) ensures Run(p, now, after).queue.delivered == s.queue.delivered {
        SilentQueue(p, now, after);
      }
    } else {
      var k := StrayIndex(s, own);
      OneMoreDelivered(p, now, k);
      assert Run(p, now, [Consume(Q.Forgotten(k, Q.Takes))]).queue.delivered != s.queue.delivered;
    }
  }

  /** A closed session with nothing to take, or nobody to take it, and no drain that could still be left. */
  ghost predicate Silent<M>(s: Session<M>) {
    && s.closed && !s.reader.loop.Reading? && (s.phase.Idle? || (s.phase.AwaitReader? && !s.reader.drained))
    && !s.queue.dispatching && !s.queue.handling && !s.queue.reading.Waiting?
    && (s.queue.main == [] || !s.queue.Stray())
  }

  lemma {:induction false} SilentQueue<M>(p: Protocol<M>, s: Session<M>, events: seq<Event<M>>)
    requires Silent(s) && Unattended(events) && (!s.phase.Idle? ==> !s.phase.closing)
    ensures Run(p, s, events).queue.delivered == s.queue.delivered
    decreases |events|
  {
    hide Next, Silent;
    if events != [] {
      assert events[0] in events && forall e :: e in events[1..] ==> e in events;
      SilentNext(p, s, events[0]);
      SilentQueue(p, Next(p, s, events[0]), events[1..]);
    }
  }

  lemma {:induction false} SilentNext<M>(p: Protocol<M>, s: Session<M>, e: Event<M>)
    requires Silent(s) && (!s.phase.Idle? ==> !s.phase.closing) && (e.Consume? ==> TaskTurn(e.call))
    ensures var s' := Next(p, s, e);
            Silent(s') && s'.queue.delivered == s.queue.delivered && (!s'.phase.Idle? ==> !s'.phase.closing)
  {
    hide Turned;
    if e.Consume? && Consumer(e.call) { SilentStep(s.queue, e.call); }
  }

  lemma {:induction false} SilentStep<M>(q: Q.Store<M>, c: Q.Call<M>)
    requires !q.dispatching && !q.handling && !q.reading.Waiting? && TaskTurn(c)
    requires q.main == [] || !q.Stray()
    ensures var q' := Q.Step(q, c).0;
            && q'.delivered == q.delivered && q'.main == q.main && (q.Stray() || !q'.Stray())
            && !q'.dispatching && !q'.handling && !q'.reading.Waiting?
  {
  }

  /** The forgotten dispatcher that goes on: one there was, or the one whose handler makes the call. */
  lemma {:induction false} StrayIndex<M>(s: Session<M>, own: bool) returns (k: nat)
    requires !s.closed && !s.queue.closed && !Silenced(s, own)
    ensures var q := Q.Step(s.queue, Q.Stop(own)).0;
            k < |q.orphans| && !q.orphans[k].Gone? && q.main == s.queue.main != []
  {
    if s.queue.Own(own) {
      k := |s.queue.orphans|;
    } else {
      k :| 0 <= k < |s.queue.orphans| && s.queue.orphans[k] != Q.Gone;
    }
  }

  lemma {:induction false} OneMoreDelivered<M>(p: Protocol<M>, s: Session<M>, k: nat)
    requires k < |s.queue.orphans| && !s.queue.orphans[k].Gone? && s.queue.main != []
    ensures var one: seq<Event<M>> := [Consume(Q.Forgotten(k, Q.Takes))];
            Unattended(one) && Run(p, s, one).queue.delivered == s.queue.delivered + [s.queue.main[0]]
  {
    RunOne(p, s, Consume(Q.Forgotten(k, Q.Takes)));
  }
}
