/** A drain that discards its buffer: the data that came during it might as well never have come. */
module DrainDiscard {
  import opened Bytes
  import opened Framing
  import opened StreamReader
  import opened SessionDrain
  import opened DrainEnds
  import Q = MessageQueue

  /** The same events, but no data arrives. */
  function WithoutData<M>(events: seq<Event<M>>): seq<Event<M>> {
    if events == [] then []
    else (if events[0].Data? then [] else [events[0]]) + WithoutData(events[1..])
  }

  /** Both are in the same drain, and nothing differs but what it holds back. */
  predicate Alike<M(==)>(s: Session<M>, t: Session<M>) {
    && !s.phase.Idle? && s.reader.held.Some? && t.reader.held.Some?
    && t == s.(reader := s.reader.(held := t.reader.held))
  }

  lemma {:induction false} AlikeNext<M>(p: Protocol<M>, s: Session<M>, t: Session<M>, e: Event<M>)
    requires Alike(s, t) && !e.EndDrain?
    ensures Alike(Next(p, s, e), if e.Data? then t else Next(p, t, e))
  {
    hide Q.Step;
    if e.ReaderTurn? { TurnAlike(p, s.reader, t.reader); }
  }

  /** The reader does not look at what is held back. */
  lemma {:induction false} TurnAlike<M>(p: Protocol<M>, v: View, w: View)
    requires v.held.Some? && w.held.Some? && w == v.(held := w.held)
    ensures var (v', t) := Turned(p, v);
            var (w', u) := Turned(p, w);
            t == u && v'.held == v.held && w'.held == w.held && w' == v'.(held := w'.held)
  {
  }

  lemma {:induction false} AlikeRun<M>(p: Protocol<M>, s: Session<M>, t: Session<M>, events: seq<Event<M>>)
    requires Alike(s, t) && forall e :: e in events ==> !e.EndDrain?
    ensures Alike(Run(p, s, events), Run(p, t, WithoutData(events)))
    decreases |events|
  {
    hide Next, Alike;
    if events != [] {
      assert events[0] in events && forall e :: e in events[1..] ==> e in events;
      AlikeNext(p, s, t, events[0]);
      var t' := if events[0].Data? then t else Next(p, t, events[0]);
      AlikeRun(p, Next(p, s, events[0]), t', events[1..]);
      if events[0].Data? {
        assert WithoutData(events) == WithoutData(events[1..]);
      } else {
        assert WithoutData(events)[1..] == WithoutData(events[1..]);
      }
    }
  }

  /**
   * In any run, a drain that got past and discards its buffer leaves the session as if none of the data had come
   * that arrived during it.
   */
  lemma {:induction false} DiscardForgets<M>(p: Protocol<M>, s: Session<M>, events: seq<Event<M>>, own: bool)
    requires !s.phase.Idle? && s.reader.held.Some? && forall e :: e in events ==> !e.EndDrain?
    requires Run(p, s, events).phase.Past?
    ensures Next(p, Run(p, s, events), EndDrain(true, own)) ==
            Next(p, Run(p, s, WithoutData(events)), EndDrain(true, own))
  {
    hide Q.Step, Run;
    AlikeRun(p, s, s, events);
  }

  lemma {:induction false} NothingReceived<M>(events: seq<Event<M>>)
    requires Lossless(events)
    ensures Received(WithoutData(events)) == [] && Lossless(WithoutData(events))
    decreases |events|
  {
    if events != [] {
      assert events[0] in events && forall e :: e in events[1..] ==> e in events;
      NothingReceived(events[1..]);
      if events[0].Data? {
        assert WithoutData(events) == WithoutData(events[1..]);
      } else {
        assert WithoutData(events)[1..] == WithoutData(events[1..]);
      }
    }
  }

  /**
   * The application's own drain, in any run, when it discards its buffer: afterwards the session stands where it stood
   * when the drain began, with all that was received before it read or still to be read, and nothing of what came
   * during the drain.
   */
  lemma {:induction false} DiscardedDrain<M(!new)>(p: Protocol<M>, dispatching: bool, before: seq<Event<M>>,
                                                   during: seq<Event<M>>, own: bool)
    requires Incremental(p) && Lossless(before) && Lossless(during) && forall e :: e in during ==> !e.EndDrain?
    requires Run(p, Initial(dispatching), before).phase.Idle?
    requires Run(p, Next(p, Run(p, Initial(dispatching), before), StartDrain(false)), during).phase.Past?
    ensures var done := Run(p, Next(p, Run(p, Initial(dispatching), before), StartDrain(false)), during);
            Conserves(p, Next(p, done, EndDrain(true, own)), Received(before))
  {
    hide Next, Conserves, WellPhased, Incremental, Q.Step, Run, Received, WithoutData;
    var s := Run(p, Initial(dispatching), before);
    InitialConserves(p, dispatching);
    Conservation(p, Initial(dispatching), before, []);
    assert [] + Received(before) == Received(before);
    var s1 := Next(p, s, StartDrain(false));
    DrainStands(p, s);
    WellPhasedNext(p, s, StartDrain(false));
    StepConserves(p, s, StartDrain(false), Received(before));
    Associates(Received(before), [], []);
    DiscardForgets(p, s1, during, own);
    NothingReceived(during);
    Conservation(p, s1, WithoutData(during), Received(before));
    AlikeRun(p, s1, s1, during);
    WithoutDataSubset(during);
    NothingHeld(p, s1, WithoutData(during));
    EmptyDiscard(p, Run(p, s1, WithoutData(during)), Received(before), own);
  }

  lemma {:induction false} DrainStands<M>(p: Protocol<M>, s: Session<M>)
    requires s.phase.Idle?
    ensures var s' := Next(p, s, StartDrain(false));
            s'.phase == AwaitReader(false) && s'.reader.held == Some([]) && Alike(s', s')
  {
  }

  lemma {:induction false} WithoutDataSubset<M>(events: seq<Event<M>>)
    ensures forall e :: e in WithoutData(events) ==> e in events && !e.Data?
    decreases |events|
  {
    if events != [] { WithoutDataSubset(events[1..]); }
  }

  lemma {:induction false} NothingHeld<M(!new)>(p: Protocol<M>, s: Session<M>, events: seq<Event<M>>)
    requires !s.phase.Idle? && s.reader.held == Some([])
    requires forall e :: e in events ==> !e.EndDrain? && !e.Data?
    ensures Run(p, s, events).reader.held == Some([])
    ensures !s.phase.closing ==> !Run(p, s, events).phase.Idle? && !Run(p, s, events).phase.closing
    decreases |events|
  {
    if events != [] {
      assert events[0] in events && forall e :: e in events[1..] ==> e in events;
      PhaseStays(p, s, events[0]);
      AlikeNext(p, s, s, events[0]);
      NothingHeld(p, Next(p, s, events[0]), events[1..]);
    }
  }

  lemma {:induction false} EmptyDiscard<M(!new)>(p: Protocol<M>, s: Session<M>, received: Bytes, own: bool)
    requires Incremental(p) && Conserves(p, s, received) && WellPhased(p, s)
    requires s.phase == Past(false) && s.reader.held == Some([])
    ensures Conserves(p, Next(p, s, EndDrain(true, own)), received)
  {
    hide Scan, Incremental;
    Associates(s.reader.pending, [], []);
    Associates(s.queue.delivered + s.queue.main, [], []);
  }
}
