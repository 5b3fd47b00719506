/** DispatchableMessageQueue of common/message_queue.py: a queue, a side queue and dispatcher tasks. */
module MessageQueue {
  import opened Bytes

  /**
   * A dispatcher task that the queue no longer knows: waiting for an entry, inside its handler, inside its handler
   * with a cancellation that its next suspension will raise, or gone.
   */
  datatype Orphan = Idle | Busy | Doomed | Gone

  /** A blocking `get`: none, waiting on the main queue, or waiting on a queue that has been replaced. */
  datatype Reading = NotReading | Waiting | Stale

  /**
   * A queue: what waits, what is held aside while draining, what a handler or a reader has got; whether there is a
   * known dispatcher task and whether it is inside its handler; how many pauses are open; the forgotten tasks.
   */
  datatype Store<M> = Store(main: seq<M>, side: Option<seq<M>>, delivered: seq<M>,
                            dispatching: bool, handling: bool, pauses: nat, orphans: seq<Orphan>,
                            reading: Reading, closed: bool) {
    /** What is held aside. */
    function Held(): seq<M> { if side.Some? then side.value else [] }

    /** Everything accepted so far, in the order it was put. */
    function Accepted(): seq<M> { delivered + main + Held() }

    /** Some forgotten task is still there. */
    predicate Stray() { exists k :: 0 <= k < |orphans| && orphans[k] != Gone }

    /** A call made by the handler that the known dispatcher is running. */
    predicate Own(own: bool) { own && dispatching && handling }
  }

  function Fresh<M>(dispatching: bool): Store<M> {
    Store([], None, [], dispatching, false, 0, [], NotReading, false)
  }

  /** What a forgotten task does: take an entry, wait, end by its cancellation, or have that swallowed. */
  datatype Turn = Takes | Rests | Ends | Spared

  /** Calls, and turns of tasks; `own` tells a call that the dispatcher's own handler makes. */
  datatype Call<M> =
    | Put(msg: M) | GetNowait | Get | Wake
    | Start | Dispatch | Rest | Pause(own: bool) | Resume
    | StartBuffering | EndBuffering(discard: bool, own: bool) | Stop(own: bool)
    | Forgotten(k: nat, turn: Turn)

  datatype Reply<M> = Done | Item(msg: M) | Pending | Nothing | StateError | EndOfQueue

  /**
   * One call, or one turn of a task; what cannot happen leaves the queue as it is. Cancelling the asyncio task that
   * makes the call does not end it: stopping, pausing or leaving a drain from the dispatcher's own handler forgets it
   * with its cancellation pending. Leaving a pause makes a new task whatever has been started inside it. When the side
   * queue replaces the main queue, whoever waits on the old one waits for good. The reply to `Stop` is what a waiting
   * `get` gets.
   */
  function Step<M>(s: Store<M>, c: Call<M>): (Store<M>, Reply<M>) {
    match c
    case Put(m) =>
      (if s.side.Some? then s.(side := Some(s.side.value + [m])) else s.(main := s.main + [m]), Done)
    case GetNowait => Read(s)
    case Get =>
      var (s', r) := Read(s);
      if r.Nothing? && s.reading.NotReading? then (s.(reading := Waiting), Pending) else (s', r)
    case Wake =>
      if !s.reading.Waiting? || s.main == [] then (s, Nothing)
      else (Taken(s).(reading := NotReading), Item(s.main[0]))
    case Start =>
      if s.dispatching then (s, StateError) else (s.(dispatching := true, handling := false), Done)
    case Dispatch =>
      if !s.dispatching || s.main == [] then (s, Nothing)
      else (Taken(s).(handling := true), Item(s.main[0]))
    case Rest =>
      if !s.handling || s.main != [] then (s, Nothing) else (s.(handling := false), Done)
    case Pause(own) =>
      if !s.dispatching then (s, StateError)
      else (Forgetting(s, own).(dispatching := false, handling := false, pauses := s.pauses + 1), Done)
    case Resume =>
      if s.pauses == 0 then (s, Nothing)
      else
        var forgotten := if s.dispatching then [if s.handling then Busy else Idle] else [];
        (s.(dispatching := true, handling := false, pauses := s.pauses - 1, orphans := s.orphans + forgotten), Done)
    case StartBuffering =>
      if s.side.Some? then (s, StateError) else (s.(side := Some([])), Done)
    case EndBuffering(discard, own) =>
      if s.side.None? || s.main != [] then (s, Nothing)
      else if discard then (s.(side := None), Done)
      else (Swapped(Forgetting(s, own)), Done)
    case Stop(own) =>
      if s.closed then (s, Done)
      else
        (Forgetting(s, own).(closed := true, dispatching := false, handling := false, reading := NotReading),
         if s.reading.NotReading? then Done else EndOfQueue)
    case Forgotten(k, turn) => if k < |s.orphans| then OrphanStep(s, k, turn) else (s, Nothing)
  }

  /** `get_nowait`. */
  function Read<M>(s: Store<M>): (Store<M>, Reply<M>) {
    if s.dispatching then (s, StateError)
    else if s.main == [] then (s, if s.closed then EndOfQueue else Nothing)
    else (Taken(s), Item(s.main[0]))
  }

  /** The first entry handed over. */
  function Taken<M>(s: Store<M>): Store<M>
    requires s.main != []
  {
    s.(main := s.main[1..], delivered := s.delivered + [s.main[0]])
  }

  /** The known dispatcher cancelled: awaited and gone, unless it is the caller. */
  function Forgetting<M>(s: Store<M>, own: bool): Store<M> {
    if s.Own(own) then s.(orphans := s.orphans + [Doomed]) else s
  }

  /** The side queue in place of the main queue, the known dispatcher started afresh on it. */
  function Swapped<M>(s: Store<M>): Store<M>
    requires s.side.Some?
  {
    s.(main := s.side.value, side := None, handling := false, orphans := LeftBehind(s.orphans),
       reading := if s.reading.Waiting? then Stale else s.reading)
  }

  /** A task inside its handler comes back to the new queue; one that waits stays with the old. */
  function LeftBehind(orphans: seq<Orphan>): (r: seq<Orphan>)
    ensures |r| == |orphans|
    ensures forall k :: 0 <= k < |r| ==> r[k] == if orphans[k].Idle? then Gone else orphans[k]
  {
    if orphans == [] then [] else [if orphans[0].Idle? then Gone else orphans[0]] + LeftBehind(orphans[1..])
  }

  function OrphanStep<M>(s: Store<M>, k: nat, turn: Turn): (Store<M>, Reply<M>)
    requires k < |s.orphans|
  {
    match turn
    case Takes =>
      if s.orphans[k].Gone? || s.main == [] then (s, Nothing)
      else (Taken(s).(orphans := s.orphans[k := if s.orphans[k].Doomed? then Doomed else Busy]), Item(s.main[0]))
    case Rests =>
      if s.orphans[k].Busy? && s.main == [] then (s.(orphans := s.orphans[k := Idle]), Done) else (s, Nothing)
    case Ends => if s.orphans[k].Doomed? then (s.(orphans := s.orphans[k := Gone]), Done) else (s, Nothing)
    case Spared => if s.orphans[k].Doomed? then (s.(orphans := s.orphans[k := Busy]), Done) else (s, Nothing)
  }

  function Run<M>(s: Store<M>, calls: seq<Call<M>>): Store<M>
    decreases |calls|
  {
    if calls == [] then s else Run(Step(s, calls[0]).0, calls[1..])
  }

  lemma {:induction false} RunAppend<M>(s: Store<M>, a: seq<Call<M>>, b: seq<Call<M>>)
    ensures Run(s, a + b) == Run(Run(s, a), b)
    decreases |a|
  {
    hide Step;
    if a == [] {
      assert a + b == b;
    } else {
      assert (a + b)[1..] == a[1..] + b;
      RunAppend(Step(s, a[0]).0, a[1..], b);
    }
  }

  lemma {:induction false} RunCons<M>(s: Store<M>, c: Call<M>, calls: seq<Call<M>>)
    ensures Run(s, [c] + calls) == Run(Step(s, c).0, calls)
    ensures Run(s, []) == s
  {
    hide Step;
    assert ([c] + calls)[1..] == calls;
  }

  // ---------------------------------------------------------------- conservation

  function PutsOf<M>(calls: seq<Call<M>>): seq<M> {
    if calls == [] then []
    else (if calls[0].Put? then [calls[0].msg] else []) + PutsOf(calls[1..])
  }

  predicate Discards<M>(c: Call<M>) {
    c.EndBuffering? && c.discard
  }

  lemma {:induction false} TakenAccepts<M>(s: Store<M>)
    requires s.main != []
    ensures Taken(s).Accepted() == s.Accepted()
  {
    assert s.delivered + [s.main[0]] + s.main[1..] == s.delivered + s.main;
  }

  lemma {:induction false} PutAccepts<M>(s: Store<M>, m: M)
    ensures Step(s, Put(m)).0.Accepted() == s.Accepted() + [m]
  {
    if s.side.Some? {
      Associates(s.delivered + s.main, s.side.value, [m]);
    } else {
      Associates(s.delivered, s.main, [m]);
      Associates(s.delivered + s.main, [], []);
      Associates(s.delivered + s.main + [m], [], []);
    }
  }

  lemma {:induction false} SwappedAccepts<M>(s: Store<M>)
    requires s.side.Some? && s.main == []
    ensures Swapped(s).Accepted() == s.Accepted()
  {
    Associates(s.delivered, [], []);
    Associates(s.delivered + s.side.value, [], []);
  }

  /** Which calls touch the side queue, and which can fill the main queue. */
  lemma {:induction false} StepShape<M>(s: Store<M>, c: Call<M>)
    ensures var s' := Step(s, c).0;
            && (!c.StartBuffering? && !c.EndBuffering? && !c.Put? ==>
                  s'.side == s.side && |s'.main| <= |s.main| && (c.Stop? || c.Rest? ==> s'.main == s.main))
            && (c.Put? ==> (s'.side.None? <==> s.side.None?))
            && (c.StartBuffering? ==> s'.main == s.main && s'.side == if s.side.None? then Some([]) else s.side)
            && (c.EndBuffering? && s.side.Some? && s.main == [] ==> s'.side.None?)
            && (c.Dispatch? || c.Rest? || c.Put? || c.StartBuffering? ==> s'.dispatching == s.dispatching)
            && (c.Dispatch? && s.dispatching && s.main != [] ==> |s'.main| == |s.main| - 1)
  {
    hide LeftBehind;
  }

  /** Leaving `buffer_until_drained` loses something accepted exactly if it discards something held aside. */
  lemma {:induction false} EndAccepts<M>(s: Store<M>, discard: bool, own: bool)
    requires s.side.Some? && s.main == []
    ensures Step(s, EndBuffering(discard, own)).0.Accepted() == s.Accepted() <==> !discard || s.side.value == []
  {
    if discard {
      Associates(s.delivered, [], []);
      assert |s.Accepted()| == |s.delivered| + |s.side.value|;
    } else {
      SwappedAccepts(Forgetting(s, own));
    }
  }

  /** What a read, a wake-up or a turn of a task does with the entries: takes the first, or nothing. */
  lemma {:induction false} TakersTake<M>(s: Store<M>, c: Call<M>)
    requires c.GetNowait? || c.Get? || c.Wake? || c.Dispatch? || c.Forgotten?
    ensures var s' := Step(s, c).0;
            && s'.side == s.side
            && if Step(s, c).1.Item? then
                 && s.main != [] && Step(s, c).1.msg == s.main[0]
                 && s'.main == s.main[1..] && s'.delivered == s.delivered + [s.main[0]]
               else s'.main == s.main && s'.delivered == s.delivered
  {
  }

  /** A call delivers one entry exactly when it replies with one. */
  lemma {:induction false} StepDelivers<M>(s: Store<M>, c: Call<M>)
    ensures |Step(s, c).0.delivered| == |s.delivered| + if Step(s, c).1.Item? then 1 else 0
    ensures c.Put? || c.StartBuffering? || c.EndBuffering? || c.Stop? ==> !Step(s, c).1.Item?
  {
    hide Swapped, LeftBehind;
    if s.side.Some? { SwappedDelivers(s); }
    if c.GetNowait? || c.Get? || c.Wake? || c.Dispatch? || c.Forgotten? {
      hide Step;
      TakersTake(s, c);
    } else if c.EndBuffering? && s.side.Some? {
      SwappedDelivers(Forgetting(s, c.own));
    }
  }

  lemma {:induction false} SwappedDelivers<M>(s: Store<M>)
    requires s.side.Some?
    ensures Swapped(s).delivered == s.delivered
  {
  }

  lemma {:induction false} TakersAccept<M>(s: Store<M>, c: Call<M>)
    requires c.GetNowait? || c.Get? || c.Wake? || c.Dispatch? || c.Forgotten?
    ensures Step(s, c).0.Accepted() == s.Accepted()
  {
    hide Step;
    TakersTake(s, c);
    if s.main != [] { TakenAccepts(s); }
  }

  lemma {:induction false} StepAccepts<M>(s: Store<M>, c: Call<M>)
    requires !Discards(c)
    ensures Step(s, c).0.Accepted() == s.Accepted() + if c.Put? then [c.msg] else []
  {
    hide Step;
    Associates(s.Accepted(), [], []);
    if c.Put? {
      PutAccepts(s, c.msg);
    } else if c.GetNowait? || c.Get? || c.Wake? || c.Dispatch? || c.Forgotten? {
      TakersAccept(s, c);
    } else {
      ControlAccepts(s, c);
    }
  }

  /** Starting, pausing, draining and stopping touch no entry. */
  lemma {:induction false} ControlAccepts<M>(s: Store<M>, c: Call<M>)
    requires !Discards(c) && !c.Put?
    requires !(c.GetNowait? || c.Get? || c.Wake? || c.Dispatch? || c.Forgotten?)
    ensures Step(s, c).0.Accepted() == s.Accepted()
  {
    hide Swapped, LeftBehind;
    if c.EndBuffering? && s.side.Some? && s.main == [] { SwappedAccepts(Forgetting(s, c.own)); }
    if c.StartBuffering? { assert Step(s, c).0.Held() == s.Held(); }
  }

  /** Over every run that discards nothing, what was put is what was delivered and what still waits. */
  lemma {:induction false} Conservation<M>(s: Store<M>, calls: seq<Call<M>>)
    requires forall c :: c in calls ==> !Discards(c)
    ensures Run(s, calls).Accepted() == s.Accepted() + PutsOf(calls)
    decreases |calls|
  {
    hide Step;
    if calls != [] {
      assert calls[0] in calls && forall c :: c in calls[1..] ==> c in calls;
      StepAccepts(s, calls[0]);
      Conservation(Step(s, calls[0]).0, calls[1..]);
      Associates(s.Accepted(), if calls[0].Put? then [calls[0].msg] else [], PutsOf(calls[1..]));
    } else {
      Associates(s.Accepted(), [], []);
    }
  }

  // ---------------------------------------------------------------- what comes out after stop

  /** The replies to the reads in a run. */
  function Reads<M>(s: Store<M>, calls: seq<Call<M>>): seq<Reply<M>>
    decreases |calls|
  {
    if calls == [] then []
    else
      (if calls[0].GetNowait? || calls[0].Get? then [Step(s, calls[0]).1] else [])
      + Reads(Step(s, calls[0]).0, calls[1..])
  }

  lemma {:induction false} ReadsCons<M>(s: Store<M>, c: Call<M>, calls: seq<Call<M>>)
    ensures Reads(s, [c] + calls) ==
            (if c.GetNowait? || c.Get? then [Step(s, c).1] else []) + Reads(Step(s, c).0, calls)
    ensures Reads(s, []) == []
  {
    hide Step;
    assert ([c] + calls)[1..] == calls;
  }

  /** The given entries one by one, and then the end of the queue. */
  ghost predicate InOrder<M>(entries: seq<M>, replies: seq<Reply<M>>) {
    forall i :: 0 <= i < |replies| ==> replies[i] == if i < |entries| then Item(entries[i]) else EndOfQueue
  }

  /** Reads by the application, and turns of any tasks there are. */
  ghost predicate OnlyReads<M>(calls: seq<Call<M>>) {
    forall c :: c in calls ==> c.GetNowait? || c.Get? || c.Wake? || c.Dispatch? || c.Rest? || c.Forgotten?
  }

  /** A stopped queue with no known dispatcher and no `get` waiting. */
  ghost predicate AtRest<M>(s: Store<M>) {
    s.closed && !s.dispatching && !s.handling && s.reading.NotReading?
  }

  lemma {:induction false} RestedStep<M>(s: Store<M>, c: Call<M>)
    requires AtRest(s) && (!s.Stray() || s.main == []) && OnlyReads([c])
    ensures var (s', r) := Step(s, c);
            && AtRest(s') && (!s'.Stray() || s'.main == [])
            && (!(c.GetNowait? || c.Get?) ==> s'.main == s.main)
            && (c.GetNowait? || c.Get? ==>
                  if s.main == [] then r == EndOfQueue && s'.main == []
                  else r == Item(s.main[0]) && s'.main == s.main[1..])
  {
    assert c in [c];
  }

  lemma {:induction false} RemainderInOrder<M>(s: Store<M>, calls: seq<Call<M>>)
    requires AtRest(s) && (!s.Stray() || s.main == []) && OnlyReads(calls)
    ensures InOrder(s.main, Reads(s, calls))
    decreases |calls|
  {
    hide Step, AtRest;
    if calls != [] {
      var c, s' := calls[0], Step(s, calls[0]).0;
      assert c in calls && forall x :: x in calls[1..] ==> x in calls;
      RestedStep(s, c);
      RemainderInOrder(s', calls[1..]);
      var later := Reads(s', calls[1..]);
      if c.GetNowait? || c.Get? { FirstInOrder(s.main, Step(s, c).1, later); }
    }
  }

  lemma {:induction false} FirstInOrder<M>(entries: seq<M>, first: Reply<M>, later: seq<Reply<M>>)
    requires if entries == [] then first == EndOfQueue && InOrder(entries, later)
             else first == Item(entries[0]) && InOrder(entries[1..], later)
    ensures InOrder(entries, [first] + later)
  {
    var all := [first] + later;
    forall i | 0 <= i < |all| ensures all[i] == if i < |entries| then Item(entries[i]) else EndOfQueue {
      if i > 0 { assert all[i] == later[i - 1]; }
    }
  }

  function Repeat<M>(c: Call<M>, n: nat): (r: seq<Call<M>>)
    ensures |r| == n && forall x :: x in r ==> x == c
  {
    if n == 0 then [] else [c] + Repeat(c, n - 1)
  }

  /** A forgotten task can take everything before the next read. */
  lemma {:induction false} OrphanTakesAll<M>(s: Store<M>, k: nat)
    requires AtRest(s) && k < |s.orphans| && !s.orphans[k].Gone?
    ensures Reads(s, Repeat(Forgotten(k, Takes), |s.main|) + [GetNowait]) == [EndOfQueue]
    decreases |s.main|
  {
    hide Reads;
    var take: Call<M>, none: seq<Call<M>> := Forgotten(k, Takes), [];
    if s.main == [] {
      assert Repeat(take, 0) + [GetNowait] == [GetNowait] + none;
      ReadsCons(s, GetNowait, none);
      ReadsCons(Step(s, GetNowait).0, GetNowait, none);
    } else {
      var s' := Step(s, take).0;
      OrphanTakesAll(s', k);
      assert Repeat(take, |s.main|) + [GetNowait] == [take] + (Repeat(take, |s'.main|) + [GetNowait]);
      ReadsCons(s, take, Repeat(take, |s'.main|) + [GetNowait]);
    }
  }

  /**
   * After `stop` the remaining entries come out one by one in order and then the queue has ended, whatever turns
   * the event loop takes in between, if and only if no forgotten dispatcher is left or nothing remains.
   */
  lemma {:induction false} RemainderThenEnd<M>(s: Store<M>)
    requires AtRest(s)
    ensures (forall calls :: OnlyReads(calls) ==> InOrder(s.main, Reads(s, calls))) <==> !s.Stray() || s.main == []
  {
    hide Step, Reads, AtRest;
    if !s.Stray() || s.main == [] {
      forall calls | OnlyReads(calls) ensures InOrder(s.main, Reads(s, calls)) { RemainderInOrder(s, calls); }
    } else {
      var k :| 0 <= k < |s.orphans| && !s.orphans[k].Gone?;
      var calls := Repeat<M>(Forgotten(k, Takes), |s.main|) + [GetNowait];
      OrphanTakesAll(s, k);
      assert OnlyReads(calls);
      assert Reads(s, calls)[0] == EndOfQueue;
      assert !InOrder(s.main, Reads(s, calls));
    }
  }

  // ---------------------------------------------------------------- losing track of a dispatcher

  /** The side queue is about to replace the main queue. */
  predicate Swaps<M>(s: Store<M>, c: Call<M>) {
    c.EndBuffering? && !c.discard && s.side.Some? && s.main == []
  }

  /**
   * The queue loses track of its dispatcher: leaving a pause inside which dispatching was started, or pausing,
   * stopping or leaving a drain from the dispatcher's own handler.
   */
  predicate Forgets<M>(s: Store<M>, c: Call<M>) {
    || (c.Resume? && s.pauses > 0 && s.dispatching)
    || (c.Pause? && s.Own(c.own))
    || (c.Stop? && !s.closed && s.Own(c.own))
    || (Swaps(s, c) && s.Own(c.own))
  }

  /** The forgotten task `k` disappears: left behind waiting on a replaced queue, or ended by its cancellation. */
  predicate Removes<M>(s: Store<M>, c: Call<M>, k: nat) {
    k < |s.orphans| && ((Swaps(s, c) && s.orphans[k].Idle?) || (c == Forgotten(k, Ends) && s.orphans[k].Doomed?))
  }

  lemma {:induction false} StepOrphans<M>(s: Store<M>, c: Call<M>)
    ensures var s' := Step(s, c).0;
            && |s'.orphans| == |s.orphans| + (if Forgets(s, c) then 1 else 0)
            && (Forgets(s, c) ==> !s'.orphans[|s.orphans|].Gone?)
            && forall k :: 0 <= k < |s.orphans| ==> (s'.orphans[k].Gone? <==> s.orphans[k].Gone? || Removes(s, c, k))
  {
    hide Step;
    if c.Forgotten? {
      TurnOrphans(s, c.k, c.turn);
    } else if Swaps(s, c) {
      SwapOrphans(s, c);
    } else {
      ControlOrphans(s, c);
    }
  }

  lemma {:induction false} TurnOrphans<M>(s: Store<M>, i: nat, turn: Turn)
    ensures var s' := Step(s, Forgotten(i, turn)).0;
            && |s'.orphans| == |s.orphans|
            && forall k :: 0 <= k < |s.orphans| ==>
                 (s'.orphans[k].Gone? <==> s.orphans[k].Gone? || (turn.Ends? && k == i && s.orphans[k].Doomed?))
  {
  }

  lemma {:induction false} SwapOrphans<M>(s: Store<M>, c: Call<M>)
    requires Swaps(s, c)
    ensures Step(s, c).0.orphans == LeftBehind(s.orphans + if s.Own(c.own) then [Doomed] else [])
  {
    hide LeftBehind;
    Associates(s.orphans, [], []);
  }

  lemma {:induction false} ControlOrphans<M>(s: Store<M>, c: Call<M>)
    requires !c.Forgotten? && !Swaps(s, c)
    ensures s.orphans <= Step(s, c).0.orphans
    ensures |Step(s, c).0.orphans| == |s.orphans| + if Forgets(s, c) then 1 else 0
    ensures Forgets(s, c) ==> !Step(s, c).0.orphans[|s.orphans|].Gone?
  {
    hide LeftBehind, Swapped;
  }

  /** A forgotten task is still there after a run. */
  predicate Outlasts<M>(s: Store<M>, calls: seq<Call<M>>, k: nat)
    decreases |calls|
  {
    calls == [] || (!Removes(s, calls[0], k) && Outlasts(Step(s, calls[0]).0, calls[1..], k))
  }

  /** Some call of a run forgets a task that is still there at the end of it. */
  predicate Orphaned<M>(s: Store<M>, calls: seq<Call<M>>)
    decreases |calls|
  {
    && calls != []
    && var s' := Step(s, calls[0]).0;
       (Forgets(s, calls[0]) && Outlasts(s', calls[1..], |s.orphans|)) || Orphaned(s', calls[1..])
  }

  lemma {:induction false} OutlastsExactly<M>(s: Store<M>, calls: seq<Call<M>>, k: nat)
    requires k < |s.orphans|
    ensures k < |Run(s, calls).orphans|
    ensures !Run(s, calls).orphans[k].Gone? <==> !s.orphans[k].Gone? && Outlasts(s, calls, k)
    decreases |calls|
  {
    hide Step, Forgets, Removes;
    if calls != [] {
      StepOrphans(s, calls[0]);
      OutlastsExactly(Step(s, calls[0]).0, calls[1..], k);
    }
  }

  /** A forgotten dispatcher is there after a run exactly when one was, or was forgotten, and has outlasted it. */
  lemma {:induction false} OrphansExactly<M>(s: Store<M>, calls: seq<Call<M>>)
    ensures Run(s, calls).Stray() <==>
            Orphaned(s, calls) || exists k :: 0 <= k < |s.orphans| && !s.orphans[k].Gone? && Outlasts(s, calls, k)
    decreases |calls|
  {
    hide Step, Forgets, Removes;
    if calls == [] {
      assert forall k :: 0 <= k < |s.orphans| ==> Outlasts(s, calls, k);
    } else {
      var c, s' := calls[0], Step(s, calls[0]).0;
      StepOrphans(s, c);
      OrphansExactly(s', calls[1..]);
      forall k | 0 <= k < |s'.orphans|
        ensures !s'.orphans[k].Gone? && Outlasts(s', calls[1..], k) <==>
                if k < |s.orphans| then !s.orphans[k].Gone? && Outlasts(s, calls, k)
                else Forgets(s, c) && Outlasts(s', calls[1..], |s.orphans|)
      {
      }
      if Forgets(s, c) && Outlasts(s', calls[1..], |s.orphans|) {
        assert !s'.orphans[|s.orphans|].Gone?;
      }
    }
  }

  /** Some call starts dispatching inside a pause, or comes from the dispatcher's own handler. */
  predicate Careless<M>(s: Store<M>, calls: seq<Call<M>>)
    decreases |calls|
  {
    && calls != []
    && (|| (calls[0].Start? && s.pauses > 0)
        || ((calls[0].Pause? || calls[0].Stop? || calls[0].EndBuffering?) && calls[0].own)
        || Careless(Step(s, calls[0]).0, calls[1..]))
  }

  lemma {:induction false} CarefulStep<M>(s: Store<M>, c: Call<M>)
    requires s.orphans == [] && s.pauses <= 1 && (s.pauses == 1 ==> !s.dispatching)
    requires (c.Start? ==> s.pauses == 0) && (c.Pause? || c.Stop? || c.EndBuffering? ==> !c.own)
    ensures var s' := Step(s, c).0;
            s'.orphans == [] && s'.pauses <= 1 && (s'.pauses == 1 ==> !s'.dispatching)
  {
    StepOrphans(s, c);
  }

  /** Only such runs can lose track of a dispatcher. */
  lemma {:induction false} OrphansNeedCarelessness<M>(s: Store<M>, calls: seq<Call<M>>)
    requires s.orphans == [] && s.pauses <= 1 && (s.pauses == 1 ==> !s.dispatching) && !Careless(s, calls)
    ensures Run(s, calls).orphans == []
    decreases |calls|
  {
    hide Step;
    if calls != [] {
      CarefulStep(s, calls[0]);
      OrphansNeedCarelessness(Step(s, calls[0]).0, calls[1..]);
    }
  }

  predicate Stops<M>(calls: seq<Call<M>>) {
    exists i :: 0 <= i < |calls| && calls[i].Stop?
  }

  /**
   * The whole history: the remainder comes out in order after a first `stop`, in every interleaving, if and only if
   * no dispatcher that was forgotten, by this stop or before it, is left, or nothing remained.
   */
  lemma {:induction false} AfterStop<M>(dispatching: bool, calls: seq<Call<M>>, own: bool)
    requires !Stops(calls)
    ensures var f := Fresh<M>(dispatching);
            var s, s' := Run(f, calls), Run(f, calls + [Stop(own)]);
            && s'.main == s.main
            && ((forall later :: OnlyReads(later) ==> InOrder(s.main, Reads(s', later)))
                <==> !Orphaned(f, calls + [Stop(own)]) || s.main == [])
  {
    hide Orphaned, OnlyReads, InOrder, Reads;
    var f := Fresh<M>(dispatching);
    var s := Run(f, calls);
    var last: seq<Call<M>>, none: seq<Call<M>> := [Stop(own)], [];
    RunAppend(f, calls, last);
    StaysOpen(f, calls);
    RunCons(s, Stop(own), none);
    RunCons(Step(s, Stop(own)).0, Stop(own), none);
    assert last == [Stop(own)] + none;
    OrphansExactly(f, calls + last);
    RemainderThenEnd(Step(s, Stop(own)).0);
  }

  lemma {:induction false} StaysOpen<M>(s: Store<M>, calls: seq<Call<M>>)
    requires !s.closed && !Stops(calls)
    ensures !Run(s, calls).closed
    decreases |calls|
  {
    if calls != [] {
      assert forall i :: 0 <= i < |calls[1..]| ==> calls[1..][i] == calls[i + 1];
      StaysOpen(Step(s, calls[0]).0, calls[1..]);
    }
  }

  // ---------------------------------------------------------------- runs that lose track

  /** A forgotten task that is left takes the one entry that was to remain. */
  lemma {:induction false} OneRemains<M>(s: Store<M>, m: M)
    requires AtRest(s) && s.main == [m] && |s.orphans| == 1 && !s.orphans[0].Gone?
    ensures Reads(s, [GetNowait]) == [Item(m)]
    ensures Reads(s, [Forgotten(0, Takes), GetNowait]) == [EndOfQueue]
  {
    hide Reads;
    var none: seq<Call<M>>, read: seq<Call<M>> := [], [GetNowait];
    ReadsCons(s, GetNowait, none);
    ReadsCons(Step(s, GetNowait).0, GetNowait, none);
    assert read == [GetNowait] + none;
    var gone := Step(s, Forgotten(0, Takes)).0;
    ReadsCons(gone, GetNowait, none);
    ReadsCons(s, Forgotten(0, Takes), read);
    assert [Forgotten(0, Takes)] + read == [Forgotten(0, Takes), GetNowait];
  }

  /** Starting inside a pause, leaving it and stopping: a forgotten task takes the entry that was to remain. */
  lemma {:induction false} StartedInsidePause<M>(m: M)
    ensures var s := Run(Fresh(true), [Pause(false), Start, Resume, Put(m), Stop(false)]);
            && s == Store([m], None, [], false, false, 0, [Idle], NotReading, true)
            && Reads(s, [GetNowait]) == [Item(m)]
            && Reads(s, [Forgotten(0, Takes), GetNowait]) == [EndOfQueue]
  {
    hide Run, Reads;
    var s1 := Step(Fresh<M>(true), Pause(false)).0;
    var s2 := Step(s1, Start).0;
    var s3 := Step(s2, Resume).0;
    var s4 := Step(s3, Put(m)).0;
    FiveCalls(Fresh(true), Pause(false), Start, Resume, Put(m), Stop(false));
    var s := Step(s4, Stop(false)).0;
    OneRemains(s, m);
  }

  lemma {:induction false} FiveCalls<M>(s: Store<M>, a: Call<M>, b: Call<M>, c: Call<M>, d: Call<M>, e: Call<M>)
    ensures Run(s, [a, b, c, d, e]) == Step(Step(Step(Step(Step(s, a).0, b).0, c).0, d).0, e).0
  {
    hide Step, Run;
    FourCalls(Step(s, a).0, b, c, d, e);
    RunCons(s, a, [b, c, d, e]);
    assert [a] + [b, c, d, e] == [a, b, c, d, e];
  }

  lemma {:induction false} FourCalls<M>(s: Store<M>, a: Call<M>, b: Call<M>, c: Call<M>, d: Call<M>)
    ensures Run(s, [a, b, c, d]) == Step(Step(Step(Step(s, a).0, b).0, c).0, d).0
  {
    hide Step, Run;
    var s1 := Step(s, a).0;
    var s2 := Step(s1, b).0;
    var s3 := Step(s2, c).0;
    RunCons(s, a, [b, c, d]);
    RunCons(s1, b, [c, d]);
    RunCons(s2, c, [d]);
    RunCons(s3, d, []);
    RunCons(Step(s3, d).0, d, []);
    assert [a] + [b, c, d] == [a, b, c, d] && [b] + [c, d] == [b, c, d] && [c] + [d] == [c, d] && [d] + [] == [d];
  }

  /** Stopping from the handler of the first of two entries: the dispatcher goes on to take the second. */
  lemma {:induction false} StoppedFromHandler<M>(a: M, b: M)
    ensures var s := Run(Fresh(true), [Put(a), Put(b), Dispatch, Stop(true)]);
            && s == Store([b], None, [a], false, false, 0, [Doomed], NotReading, true)
            && Reads(s, [GetNowait]) == [Item(b)]
            && Reads(s, [Forgotten(0, Takes), GetNowait]) == [EndOfQueue]
  {
    hide Run, Reads;
    FourCalls(Fresh(true), Put(a), Put(b), Dispatch, Stop(true));
    var s1 := Step(Fresh<M>(true), Put(a)).0;
    var s2 := Step(s1, Put(b)).0;
    assert s2.main == [a, b];
    var s3 := Step(s2, Dispatch).0;
    assert s3.main == [b] && s3.delivered == [a];
    OneRemains(Step(s3, Stop(true)).0, b);
  }

  /** A forgotten task in its handler when the queues are swapped comes back to the new queue, whatever it is. */
  lemma {:induction false} BusyTaskComesBack<M>(s: Store<M>, k: nat, own: bool)
    requires s.side.Some? && s.main == [] && s.Held() != [] && k < |s.orphans| && s.orphans[k].Busy?
    ensures var s' := Step(s, EndBuffering(false, own)).0;
            && k < |s'.orphans| && s'.orphans[k].Busy? && s'.main == s.Held()
            && Step(s', Forgotten(k, Takes)).1 == Item(s.Held()[0])
  {
    hide LeftBehind;
  }

  /** Such a task: started inside a pause, forgotten, and given an entry before the drain begins. */
  lemma {:induction false} BusyOrphan<M>(m: M)
    ensures var s := Run(Fresh(true), [Pause(false), Start, Resume, Put(m), Forgotten(0, Takes)]);
            s == Store([], None, [m], true, false, 0, [Busy], NotReading, false)
  {
    hide Run;
    var f := Fresh<M>(true);
    FiveCalls(f, Pause(false), Start, Resume, Put(m), Forgotten(0, Takes));
    var s3 := Step(Step(Step(f, Pause(false)).0, Start).0, Resume).0;
    var s4 := Step(s3, Put(m)).0;
    assert s4.main == [m];
  }

  // ---------------------------------------------------------------- a read that waits

  /** A waiting `get` is served by the next entry exactly when no swap has left it with the old queue. */
  lemma {:induction false} WaitingServed<M>(s: Store<M>)
    requires !s.reading.NotReading? && s.main != []
    ensures Step(s, Wake).1 == (if s.reading.Waiting? then Item(s.main[0]) else Nothing)
  {
  }

  /** Once left with the old queue, a `get` is answered by nothing but `stop`, in any run. */
  lemma {:induction false} StaleForGood<M>(s: Store<M>, calls: seq<Call<M>>)
    requires s.reading.Stale? && !s.closed && !Stops(calls)
    ensures Run(s, calls).reading.Stale? && Step(Run(s, calls), Wake).1.Nothing?
    decreases |calls|
  {
    if calls != [] {
      assert forall i :: 0 <= i < |calls[1..]| ==> calls[1..][i] == calls[i + 1];
      StaleForGood(Step(s, calls[0]).0, calls[1..]);
    }
  }

  /** A `get` that waits across a drain gets EndOfQueue at `stop`, though an entry remains. */
  lemma {:induction false} WaitingAcrossDrain<M>(m: M)
    ensures var s := Run(Fresh(false), [Get, StartBuffering, Put(m), EndBuffering(false, false)]);
            && s.reading.Stale? && s.main == [m]
            && Step(s, Stop(false)).1 == EndOfQueue && Step(s, Stop(false)).0.main == [m]
  {
    hide Run;
    FourCalls(Fresh(false), Get, StartBuffering, Put(m), EndBuffering(false, false));
    var t := Step(Step(Step(Fresh<M>(false), Get).0, StartBuffering).0, Put(m)).0;
    assert [] + [m] == [m] && t.side == Some([] + [m]) && t.reading.Waiting?;
  }

  // ---------------------------------------------------------------- what is refused

  /** Calls out of place change nothing: the second dispatcher, the pause of none, the nested drain, the second stop. */
  lemma {:induction false} OutOfPlace<M>(s: Store<M>, own: bool)
    ensures s.dispatching ==> Step(s, Start) == (s, StateError) && Step(s, GetNowait) == (s, StateError)
    ensures s.dispatching ==> Step(s, Get) == (s, StateError)
    ensures !s.dispatching ==> Step(s, Pause(own)) == (s, StateError) && Step(s, Dispatch) == (s, Nothing)
    ensures s.side.Some? ==> Step(s, StartBuffering) == (s, StateError)
    ensures s.closed ==> Step(s, Stop(own)) == (s, Done)
    ensures !s.dispatching && s.main == [] && s.closed ==>
              Step(s, GetNowait) == (s, EndOfQueue) && Step(s, Get) == (s, EndOfQueue)
    ensures s.main != [] ==> Step(s, EndBuffering(true, own)) == (s, Nothing)
  {
  }

  // ---------------------------------------------------------------- dispatching goes on

  /** The queue is dispatching: reads are refused, and the first entry goes to the handler. */
  ghost predicate Serves<M>(s: Store<M>) {
    && Step(s, GetNowait) == (s, StateError)
    && (s.main != [] ==>
          && Step(s, Dispatch).1 == Item(s.main[0])
          && Step(s, Dispatch).0.main == s.main[1..] && Step(s, Dispatch).0.delivered == s.delivered + [s.main[0]])
  }

  /** The application may read: the first entry, or nothing when there is none. */
  ghost predicate Readable<M>(s: Store<M>) {
    && Step(s, GetNowait).1 == (if s.main != [] then Item(s.main[0]) else if s.closed then EndOfQueue else Nothing)
    && Step(s, Dispatch) == (s, Nothing)
  }

  /** Starting to dispatch, and leaving any pause, make a dispatcher. */
  lemma {:induction false} DispatcherMade<M>(s: Store<M>, c: Call<M>)
    requires (c.Start? && !s.dispatching) || (c.Resume? && s.pauses > 0)
    ensures Serves(Step(s, c).0) && Step(s, c).0.Accepted() == s.Accepted()
  {
    StepAccepts(s, c);
  }

  /** Pausing and stopping end it, and the application may read. */
  lemma {:induction false} DispatcherEnded<M>(s: Store<M>, c: Call<M>)
    requires (c.Pause? && s.dispatching) || (c.Stop? && !s.closed)
    ensures Readable(Step(s, c).0) && Step(s, c).0.Accepted() == s.Accepted()
  {
    StepAccepts(s, c);
  }

  /** A pause with nothing started inside changes nothing about dispatching, whatever is put and read meanwhile. */
  lemma {:induction false} PauseUndone<M>(s: Store<M>, inside: seq<Call<M>>)
    requires s.dispatching && forall c :: c in inside ==> c.Put? || c.GetNowait?
    ensures var s' := Step(Run(Step(s, Pause(false)).0, inside), Resume).0;
            && Serves(s') && s'.dispatching && s'.pauses == s.pauses && s'.orphans == s.orphans
            && s'.Accepted() == s.Accepted() + PutsOf(inside)
  {
    hide Step;
    StepAccepts(s, Pause(false));
    Paused(s);
    InsidePause(Step(s, Pause(false)).0, inside);
    Conservation(Step(s, Pause(false)).0, inside);
    var t := Run(Step(s, Pause(false)).0, inside);
    DispatcherMade(t, Resume);
    Resumed(t);
  }

  lemma {:induction false} Paused<M>(s: Store<M>)
    requires s.dispatching
    ensures Step(s, Pause(false)).0 == s.(dispatching := false, handling := false, pauses := s.pauses + 1)
  {
  }

  lemma {:induction false} Resumed<M>(s: Store<M>)
    requires s.pauses > 0 && !s.dispatching
    ensures Step(s, Resume).0 == s.(dispatching := true, handling := false, pauses := s.pauses - 1)
  {
    Associates(s.orphans, [], []);
  }

  lemma {:induction false} InsidePause<M>(s: Store<M>, calls: seq<Call<M>>)
    requires !s.dispatching && forall c :: c in calls ==> c.Put? || c.GetNowait?
    ensures var t := Run(s, calls);
            !t.dispatching && t.pauses == s.pauses && t.orphans == s.orphans
    decreases |calls|
  {
    if calls != [] {
      assert calls[0] in calls && forall c :: c in calls[1..] ==> c in calls;
      InsidePause(Step(s, calls[0]).0, calls[1..]);
    }
  }

  /** After a pause that was only entered and left, the next entry put is handed over. */
  lemma {:induction false} DispatchedAfterPause<M>(m: M)
    ensures var s := Run(Fresh(true), [Pause(false), Resume, Put(m), Dispatch]);
            s == Store([], None, [m], true, true, 0, [], NotReading, false)
  {
    hide Run;
    FourCalls(Fresh(true), Pause(false), Resume, Put(m), Dispatch);
    var s3 := Step(Step(Step(Fresh<M>(true), Pause(false)).0, Resume).0, Put(m)).0;
    assert s3.main == [m];
  }

  /** Leaving a drain, in whatever way, keeps dispatching or not dispatching as it was. */
  lemma {:induction false} DrainKeepsDispatching<M>(s: Store<M>, discard: bool, own: bool)
    requires s.side.Some? && s.main == []
    ensures var s' := Step(s, EndBuffering(discard, own)).0;
            && s'.dispatching == s.dispatching && s'.pauses == s.pauses && s'.closed == s.closed
            && s'.main == (if discard then [] else s.side.value)
            && (if s.dispatching then Serves(s') else Readable(s'))
  {
    hide LeftBehind;
  }

  /** What was held aside during a drain is dispatched after it. */
  lemma {:induction false} DispatchedAfterDrain<M>(m: M)
    ensures var s := Run(Fresh(true), [StartBuffering, Put(m), EndBuffering(false, false), Dispatch]);
            s == Store([], None, [m], true, true, 0, [], NotReading, false)
  {
    hide Run;
    FourCalls(Fresh(true), StartBuffering, Put(m), EndBuffering(false, false), Dispatch);
    var t := Step(Step(Fresh<M>(true), StartBuffering).0, Put(m)).0;
    assert [] + [m] == [m] && t.side == Some([] + [m]);
    assert LeftBehind([]) == [];
  }

  /** A dispatcher whose handler has returned makes no calls: stopping then forgets nothing. */
  lemma {:induction false} RestedIsNotOwn<M>(s: Store<M>, own: bool)
    requires s.dispatching && s.main == []
    ensures var s' := Step(s, Rest).0;
            && s'.dispatching && !s'.handling && s'.Accepted() == s.Accepted()
            && Step(s', Stop(own)).0.orphans == s.orphans
  {
    StepAccepts(s, Rest);
  }

  // ---------------------------------------------------------------- the queue as an object

  class Queue<M> {
    var main: seq<M>
    var side: Option<seq<M>>
    var dispatcherTask: bool
    var handling: bool            // the dispatcher is inside its handler
    var closed: bool
    var pauses: nat               // pause_dispatching contexts entered and not left
    var orphans: seq<Orphan>      // tasks the field dispatcherTask no longer stands for
    var reading: Reading
    ghost var delivered: seq<M>

    ghost function State(): Store<M>
      reads this
    {
      Store(main, side, delivered, dispatcherTask, handling, pauses, orphans, reading, closed)
    }

    constructor (hasHandler: bool)
      ensures State() == Fresh(hasHandler)
    {
      main, side, delivered, orphans := [], None, [], [];
      dispatcherTask, handling, pauses, reading, closed := hasHandler, false, 0, NotReading, false;
    }

    method PutMessage(m: M)
      modifies this`main, this`side
      ensures State() == Step(old(State()), Put(m)).0
      ensures State().Accepted() == old(State()).Accepted() + [m]
    {
      StepAccepts(State(), Put(m));
      if side.Some? {
        side := Some(side.value + [m]);
      } else {
        main := main + [m];
      }
    }

    method GetMessageNowait() returns (r: Reply<M>)
      modifies this`main, this`delivered
      ensures (State(), r) == Step(old(State()), GetNowait)
      ensures State().Accepted() == old(State()).Accepted()
    {
      StepAccepts(State(), GetNowait);
      if dispatcherTask {
        return StateError;
      }
      if main == [] {
        return if closed then EndOfQueue else Nothing;
      }
      r := Item(main[0]);
      TakeFirst();
    }

    /** `get`: an entry that is there, the end of the queue, or a blocking read. */
    method GetMessage() returns (r: Reply<M>)
      modifies this`main, this`delivered, this`reading
      ensures (State(), r) == Step(old(State()), Get)
      ensures State().Accepted() == old(State()).Accepted()
    {
      r := GetMessageNowait();
      if r.Nothing? && reading.NotReading? {
        reading := Waiting;
        r := Pending;
      }
    }

    /** The blocking read's task is woken by an entry. */
    method WakeReader() returns (r: Reply<M>)
      modifies this`main, this`delivered, this`reading
      ensures (State(), r) == Step(old(State()), Wake)
      ensures State().Accepted() == old(State()).Accepted()
    {
      StepAccepts(State(), Wake);
      if !reading.Waiting? || main == [] {
        return Nothing;
      }
      r := Item(main[0]);
      TakeFirst();
      reading := NotReading;
    }

    /** The first entry is handed over. */
    method TakeFirst()
      requires main != []
      modifies this`main, this`delivered
      ensures State() == Taken(old(State()))
    {
      delivered := delivered + [main[0]];
      main := main[1..];
    }

    /** From then on reads are refused and a dispatcher takes the entries; nothing accepted is touched. */
    method StartDispatching(hasHandler: bool) returns (r: Reply<M>)
      modifies this`dispatcherTask, this`handling
      ensures (State(), r) ==
              if hasHandler || old(dispatcherTask) then Step(old(State()), Start) else (old(State()), Done)
      ensures State().Accepted() == old(State()).Accepted()
      ensures hasHandler ==> Step(State(), GetNowait) == (State(), StateError)
      ensures hasHandler && main != [] ==> Step(State(), Dispatch).1 == Item(main[0])
    {
      if dispatcherTask {
        return StateError;
      }
      if hasHandler {
        dispatcherTask, handling := true, false;
      }
      r := Done;
    }

    /** One turn of `_start_dispatching`: the entry goes to the handler; an exception of the handler is logged. */
    method DispatchOne() returns (r: Reply<M>)
      modifies this`main, this`delivered, this`handling
      ensures (State(), r) == Step(old(State()), Dispatch)
      ensures State().Accepted() == old(State()).Accepted()
    {
      StepAccepts(State(), Dispatch);
      if !dispatcherTask || main == [] {
        return Nothing;
      }
      r := Item(main[0]);
      TakeFirst();
      handling := true;
    }

    /** The handler has returned and there is no entry: the dispatcher waits. */
    method RestDispatcher()
      modifies this`handling
      ensures State() == Step(old(State()), Rest).0
      ensures State().Accepted() == old(State()).Accepted()
    {
      if main == [] { handling := false; }
    }

    /** One turn of a forgotten task. */
    method OrphanTurn(k: nat, turn: Turn) returns (r: Reply<M>)
      modifies this`main, this`delivered, this`orphans
      ensures (State(), r) == Step(old(State()), Forgotten(k, turn))
      ensures State().Accepted() == old(State()).Accepted()
    {
      StepAccepts(State(), Forgotten(k, turn));
      r := Nothing;
      if k < |orphans| {
        match turn {
          case Takes =>
            if !orphans[k].Gone? && main != [] {
              r := Item(main[0]);
              TakeFirst();
              orphans := orphans[k := if orphans[k].Doomed? then Doomed else Busy];
            }
          case Rests => if orphans[k].Busy? && main == [] { orphans, r := orphans[k := Idle], Done; }
          case Ends => if orphans[k].Doomed? { orphans, r := orphans[k := Gone], Done; }
          case Spared => if orphans[k].Doomed? { orphans, r := orphans[k := Busy], Done; }
        }
      }
    }

    /** `stop_task(self._dispatcher_task)`: the dispatcher is cancelled and awaited, unless it is the caller. */
    method CancelDispatcher(own: bool)
      modifies this`dispatcherTask, this`handling, this`orphans
      ensures State() == Forgetting(old(State()), own).(dispatching := false, handling := false)
    {
      if own && dispatcherTask && handling { orphans := orphans + [Doomed]; }
      dispatcherTask, handling := false, false;
    }

    /** Inside the pause the application reads what the dispatcher would have taken. */
    method PauseDispatching(own: bool) returns (r: Reply<M>)
      modifies this`dispatcherTask, this`handling, this`orphans, this`pauses
      ensures (State(), r) == Step(old(State()), Pause(own))
      ensures State().Accepted() == old(State()).Accepted()
      ensures r.Done? && main != [] ==> Step(State(), GetNowait).1 == Item(main[0])
    {
      if !dispatcherTask {
        return StateError;
      }
      CancelDispatcher(own);
      pauses := pauses + 1;
      r := Done;
    }

    /** Makes a new dispatcher; one started inside the pause is forgotten, as it was, waiting or in its handler. */
    method ResumeDispatching()
      requires pauses > 0
      modifies this`dispatcherTask, this`handling, this`pauses, this`orphans
      ensures State() == Step(old(State()), Resume).0
      ensures State().Accepted() == old(State()).Accepted()
      ensures |orphans| == |old(orphans)| <==> !old(dispatcherTask)
      ensures dispatcherTask && Serves(State())
    {
      if dispatcherTask { orphans := orphans + [if handling then Busy else Idle]; }
      dispatcherTask, handling, pauses := true, false, pauses - 1;
    }

    /** The main queue only shrinks from then on: what is put is held aside. */
    method EnterBuffering() returns (r: Reply<M>)
      modifies this`side
      ensures (State(), r) == Step(old(State()), StartBuffering)
      ensures State().Accepted() == old(State()).Accepted()
      ensures forall m :: Step(State(), Put(m)).0.main == main
    {
      if side.Some? {
        return StateError;
      }
      side := Some([]);
      r := Done;
    }

    /** Leaving `buffer_until_drained` normally, once the main queue is empty. */
    method LeaveBuffering(discard: bool, own: bool)
      requires side.Some? && main == []
      modifies this`main, this`side, this`dispatcherTask, this`handling, this`pauses, this`orphans, this`reading
      ensures State() == Step(old(State()), EndBuffering(discard, own)).0
      ensures State().Accepted() == old(State()).Accepted() <==> !discard || old(side.value) == []
      ensures dispatcherTask == old(dispatcherTask) && (dispatcherTask ==> Serves(State()))
    {
      hide Swapped, Forgetting;
      EndAccepts(State(), discard, own);
      DrainKeepsDispatching(State(), discard, own);
      if discard { side := None; } else { SwapQueues(own); }
    }

    /** A running dispatcher is cancelled before the queues are swapped and made anew after it. */
    method SwapQueues(own: bool)
      requires side.Some?
      modifies this`main, this`side, this`dispatcherTask, this`handling, this`pauses, this`orphans, this`reading
      ensures State() == Swapped(Forgetting(old(State()), own))
    {
      hide Step, LeftBehind;
      var was := dispatcherTask;
      CancelDispatcher(own);
      ReplaceQueue();
      side := None;
      dispatcherTask, handling := was, false;
    }

    /** The side queue becomes the main queue; whoever waits on the old one is left behind. */
    method ReplaceQueue()
      requires side.Some?
      modifies this`main, this`orphans, this`reading
      ensures main == side.value && orphans == LeftBehind(old(orphans))
      ensures reading == if old(reading).Waiting? then Stale else old(reading)
    {
      main := side.value;
      orphans := LeftBehind(orphans);
      if reading.Waiting? { reading := Stale; }
    }

    /** Entries stay, and a waiting `get` ends; the application may read the entries again. */
    method StopQueue(own: bool) returns (r: Reply<M>)
      modifies this`closed, this`dispatcherTask, this`handling, this`orphans, this`reading
      ensures (State(), r) == Step(old(State()), Stop(own))
      ensures State().Accepted() == old(State()).Accepted()
      ensures !old(closed) && main != [] ==> Step(State(), GetNowait).1 == Item(main[0])
    {
      r := Done;
      if !closed {
        closed := true;
        CancelDispatcher(own);
        if !reading.NotReading? { r := EndOfQueue; }
        reading := NotReading;
      }
    }
  }
}
