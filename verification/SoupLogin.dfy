/** SoupClientSession while it logs in: the reply, the sequence counter and the reader running ahead. */
module SoupLogin {
  import opened Bytes
  import opened Framing
  import StreamReader
  import opened SoupCodec
  import opened SoupWire
  import opened SessionDrain
  import opened SoupDelivery
  import Q = MessageQueue

  /** Where `login` stands: waiting for the reply, holding it, done, or refused. */
  datatype Login = Waiting | Replied(next: int) | LoggedIn | Refused

  datatype Client = Client(session: Session<SoupMessage>, sequence: int, login: Login)

  /** An event of the session; `login` taking its reply off the queue; `login` going on with it. */
  datatype Step = On(event: Event<SoupMessage>) | TakeReply | Assign

  /** The message that an event has the reader hand to `on_message`. */
  function HandedOver(s: Session<SoupMessage>, e: Event<SoupMessage>): seq<SoupMessage> {
    if !e.ReaderTurn? || !s.reader.loop.Reading? then []
    else
      var t := StreamReader.Turned(Soup, s.reader).1;
      if t.Message? then [t.msg] else []
  }

  /** `on_message` counts sequenced packets; `login` sets the counter from the reply it took. */
  function Advance(c: Client, st: Step): Client {
    match st
    case On(e) =>
      c.(session := Next(Soup, c.session, e), sequence := c.sequence + |Payloads(HandedOver(c.session, e))|)
    case TakeReply =>
      if !c.login.Waiting? then c
      else
        var (q, r) := Q.Step(c.session.queue, Q.GetNowait);
        var taken := c.session.(queue := q);
        if !r.Item? then c
        else if r.msg.LoginAccepted? then c.(session := taken, login := Replied(r.msg.nextSequence))
        else c.(session := Next(Soup, taken, Close(false)), login := Refused)
    case Assign => if c.login.Replied? then c.(sequence := c.login.next - 1, login := LoggedIn) else c
  }

  function RunSteps(c: Client, steps: seq<Step>): Client
    decreases |steps|
  {
    if steps == [] then c else RunSteps(Advance(c, steps[0]), steps[1..])
  }

  /** The messages a run hands to `on_message`, in order. */
  function Log(c: Client, steps: seq<Step>): seq<SoupMessage>
    decreases |steps|
  {
    if steps == [] then []
    else
      (if steps[0].On? then HandedOver(c.session, steps[0].event) else []) + Log(Advance(c, steps[0]), steps[1..])
  }

  function EventsOf(steps: seq<Step>): seq<Event<SoupMessage>>
    decreases |steps|
  {
    if steps == [] then [] else (if steps[0].On? then [steps[0].event] else []) + EventsOf(steps[1..])
  }

  function Start(initial: int): Client {
    Client(Initial(false), initial, Waiting)
  }

  lemma {:induction false} RunStepsAppend(c: Client, a: seq<Step>, b: seq<Step>)
    ensures RunSteps(c, a + b) == RunSteps(RunSteps(c, a), b)
    ensures Log(c, a + b) == Log(c, a) + Log(RunSteps(c, a), b)
    decreases |a|
  {
    hide Advance, HandedOver;
    if a == [] {
      assert a + b == b;
    } else {
      assert (a + b)[1..] == a[1..] + b;
      RunStepsAppend(Advance(c, a[0]), a[1..], b);
      Associates(if a[0].On? then HandedOver(c.session, a[0].event) else [], Log(Advance(c, a[0]), a[1..]),
                 Log(RunSteps(c, a), b));
    }
  }

  // ---------------------------------------------------------------- the counter

  /** Once logged in, or as long as the counter is not assigned, it counts the sequenced packets handed over. */
  lemma {:induction false} CounterCounts(c: Client, steps: seq<Step>)
    requires Assign !in steps || c.login.LoggedIn?
    ensures RunSteps(c, steps).sequence == c.sequence + |Payloads(Log(c, steps))|
    decreases |steps|
  {
    hide Next, HandedOver;
    if steps != [] {
      assert steps[0] in steps && forall st :: st in steps[1..] ==> st in steps;
      CounterCounts(Advance(c, steps[0]), steps[1..]);
      PayloadsAppend(if steps[0].On? then HandedOver(c.session, steps[0].event) else [],
                     Log(Advance(c, steps[0]), steps[1..]));
    }
  }

  // ---------------------------------------------------------------- what is handed over is what the stream holds

  /** Steps that keep what was accepted: nothing is discarded and the session is not closed outright. */
  predicate Keeps(steps: seq<Step>) {
    forall i :: 0 <= i < |steps| && steps[i].On? ==> Keeping(steps[i].event)
  }

  lemma {:induction false} LogAccepted(c: Client, steps: seq<Step>)
    requires Keeps(steps) && !RunSteps(c, steps).login.Refused?
    ensures RunSteps(c, steps).session.queue.Accepted() == c.session.queue.Accepted() + Log(c, steps)
    decreases |steps|
  {
    hide HandedOver, Keeps;
    if steps == [] {
      assert Log(c, steps) == [];
      Associates(c.session.queue.Accepted(), [], []);
    } else {
      var st, c' := steps[0], Advance(c, steps[0]);
      KeepsFirst(steps);
      if c'.login.Refused? { RefusedStays(c', steps[1..]); }
      StepAccepted(c, st);
      LogAccepted(c', steps[1..]);
      var now := if st.On? then HandedOver(c.session, st.event) else [];
      assert Log(c, steps) == now + Log(c', steps[1..]);
      Associates(c.session.queue.Accepted(), now, Log(c', steps[1..]));
    }
  }

  lemma {:induction false} KeepsFirst(steps: seq<Step>)
    requires Keeps(steps) && steps != []
    ensures Keeps(steps[1..])
    ensures steps[0].On? ==> Keeping(steps[0].event)
  {
  }

  lemma {:induction false} RefusedStays(c: Client, steps: seq<Step>)
    requires c.login.Refused?
    ensures RunSteps(c, steps).login.Refused?
    decreases |steps|
  {
    if steps != [] { RefusedStays(Advance(c, steps[0]), steps[1..]); }
  }

  lemma {:induction false} StepAccepted(c: Client, st: Step)
    requires st.On? ==> Keeping(st.event)
    requires !Advance(c, st).login.Refused? || c.login.Refused?
    ensures Advance(c, st).session.queue.Accepted() ==
            c.session.queue.Accepted() + if st.On? then HandedOver(c.session, st.event) else []
  {
    hide StreamReader.Turned;
    var q := c.session.queue;
    Associates(q.Accepted(), [], []);
    match st
    case On(e) =>
      if e.ReaderTurn? { TurnAccepts(Soup, c.session); }
      if e.Consume? && Consumer(e.call) { Q.StepAccepts(q, e.call); }
      if e.ReaderDrained? { Q.StepAccepts(q, Q.StartBuffering); }
      if e.EndDrain? { Q.StepAccepts(q, Q.EndBuffering(false, e.own)); }
    case TakeReply => Q.StepAccepts(q, Q.GetNowait);
    case Assign =>
  }

  /** Taking the reply and assigning change nothing the reader sees. */
  lemma {:induction false} ReaderConserves(c: Client, steps: seq<Step>, received: Bytes)
    requires Incremental(Soup) && Keeps(steps) && !RunSteps(c, steps).login.Refused?
    requires Conserves(Soup, c.session, received) && WellPhased(Soup, c.session)
    ensures Conserves(Soup, RunSteps(c, steps).session, received + Received(EventsOf(steps)))
    ensures WellPhased(Soup, RunSteps(c, steps).session)
    decreases |steps|
  {
    hide Next, Incremental, Conserves, WellPhased, Keeps;
    if steps == [] {
      Associates(received, [], []);
    } else {
      var st, c' := steps[0], Advance(c, steps[0]);
      KeepsFirst(steps);
      if c'.login.Refused? { RefusedStays(c', steps[1..]); }
      var now := if st.On? && st.event.Data? then st.event.bytes else [];
      if st.On? {
        StepConserves(Soup, c.session, st.event, received);
        WellPhasedNext(Soup, c.session, st.event);
      } else {
        Associates(received, [], []);
        if c' != c && st.TakeReply? { TakingConserves(c.session, received); }
      }
      ReaderConserves(c', steps[1..], received + now);
      EventsFirst(steps);
      Associates(received, now, Received(EventsOf(steps[1..])));
    }
  }

  lemma {:induction false} EventsFirst(steps: seq<Step>)
    requires steps != []
    ensures Received(EventsOf(steps)) ==
            (if steps[0].On? && steps[0].event.Data? then steps[0].event.bytes else []) + Received(EventsOf(steps[1..]))
  {
    if steps[0].On? {
      assert EventsOf(steps)[1..] == EventsOf(steps[1..]);
    } else {
      assert EventsOf(steps) == EventsOf(steps[1..]);
      Associates(Received(EventsOf(steps[1..])), [], []);
    }
  }

  lemma {:induction false} TakingConserves(s: Session<SoupMessage>, received: Bytes)
    requires Incremental(Soup) && Conserves(Soup, s, received) && WellPhased(Soup, s)
    ensures var s' := s.(queue := Q.Step(s.queue, Q.GetNowait).0);
            Conserves(Soup, s', received) && WellPhased(Soup, s')
  {
    hide Scan, Incremental;
    Q.StepAccepts(s.queue, Q.GetNowait);
    Associates(s.queue.Accepted(), [], []);
  }

  // ---------------------------------------------------------------- in step with the stream

  /** Before the login is done, only data, reader turns and `login` itself. */
  predicate Quietly(steps: seq<Step>) {
    forall i :: 0 <= i < |steps| ==>
      !steps[i].Assign? && (steps[i].On? ==> steps[i].event.Data? || steps[i].event.ReaderTurn?)
  }

  /** Still waiting with nothing taken, or done waiting with the first message taken as the reply. */
  predicate FirstIsReply(c: Client) {
    && c.session.queue.side.None?
    && (c.login.Waiting? ==> c.session.queue.delivered == [])
    && (c.login.Replied? ==>
          var accepted := c.session.queue.Accepted();
          accepted != [] && accepted[0].LoginAccepted? && c.login.next == accepted[0].nextSequence)
  }

  lemma {:induction false} QuietStep(c: Client, st: Step)
    requires FirstIsReply(c) && !c.login.Refused? && !st.Assign?
    requires st.On? ==> st.event.Data? || st.event.ReaderTurn?
    ensures !Advance(c, st).login.Refused? ==> FirstIsReply(Advance(c, st))
  {
    hide StreamReader.Turned, Q.Step;
    if st.TakeReply? {
      if c.login.Waiting? {
        Q.TakersTake(c.session.queue, Q.GetNowait);
        assert c.session.queue.main != [] ==> [] + [c.session.queue.main[0]] == [c.session.queue.main[0]];
      }
    } else {
      StepAccepted(c, st);
      QuietShape(c.session, st.event);
    }
  }

  lemma {:induction false} QuietShape(s: Session<SoupMessage>, e: Event<SoupMessage>)
    requires s.queue.side.None? && (e.Data? || e.ReaderTurn?)
    ensures Next(Soup, s, e).queue.side.None? && Next(Soup, s, e).queue.delivered == s.queue.delivered
  {
    hide StreamReader.Turned;
  }

  /** The reply `login` took is the first message that was handed over. */
  lemma {:induction false} ReplyIsFirst(c: Client, steps: seq<Step>)
    requires Quietly(steps) && FirstIsReply(c) && !RunSteps(c, steps).login.Refused?
    ensures FirstIsReply(RunSteps(c, steps))
    decreases |steps|
  {
    hide Advance, FirstIsReply;
    if c.login.Refused? { RefusedStays(c, steps); }
    if steps != [] {
      assert forall i :: 0 <= i < |steps[1..]| ==> steps[1..][i] == steps[i + 1];
      var c' := Advance(c, steps[0]);
      if c'.login.Refused? { RefusedStays(c', steps[1..]); }
      QuietStep(c, steps[0]);
      ReplyIsFirst(c', steps[1..]);
    }
  }

  /**
   * For every packet stream and every run: after login the counter names the last sequenced packet handed over,
   * counted from the reply, if and only if no sequenced packet is among the packets after the reply that reader
   * turns took before `login` went on. `taken` is how many packets they had taken by then.
   */
  lemma {:induction false} CounterInStep(msgs: seq<SoupMessage>, k: nat, initial: int, early: seq<Step>,
                                         late: seq<Step>)
    requires (forall m :: m in msgs ==> Fits(m)) && k <= |Concat(Encodings(msgs))|
    requires Received(EventsOf(early + [Assign] + late)) == Concat(Encodings(msgs))[..k]
    requires Quietly(early) && Keeps(late) && RunSteps(Start(initial), early).login.Replied?
    ensures WholeFrames(Encodings(msgs), k) <= |msgs|
    ensures var stream := Visible(msgs[..WholeFrames(Encodings(msgs), k)]);
            var taken := |Log(Start(initial), early)|;
            var end := RunSteps(Start(initial), early + [Assign] + late);
            var log := Log(Start(initial), early + [Assign] + late);
            && 1 <= taken <= |log| && log <= stream && stream[0].LoginAccepted?
            && (end.sequence == stream[0].nextSequence - 1 + |Payloads(log[1..])| <==>
                forall i :: 1 <= i < taken ==> !stream[i].SequencedData?)
  {
    hide Fits, Encode, Peek, Advance, Next, Log, Quietly, Keeps, Visible, Received, FirstIsReply, RunSteps, EventsOf;
    var c := Start(initial);
    var all := early + [Assign] + late;
    var replied := RunSteps(c, early);
    var after := CounterSplits(c, early, late);
    var before := Log(c, early);
    QuietlyKeeps(early, late);
    LogMatchesStream(msgs, k, initial, all);
    ReplyLogged(initial, early);
    InStepCount(before, after, replied.login.next - 1);
    var stream := Visible(msgs[..WholeFrames(Encodings(msgs), k)]);
    assert forall i :: 0 <= i < |before| ==> stream[i] == Log(c, all)[i] == before[i];
  }

  /** The reply is the first message handed over before `login` goes on. */
  lemma {:induction false} ReplyLogged(initial: int, early: seq<Step>)
    requires Quietly(early) && RunSteps(Start(initial), early).login.Replied?
    ensures var before := Log(Start(initial), early);
            && before != [] && before[0].LoginAccepted?
            && RunSteps(Start(initial), early).login.next == before[0].nextSequence
  {
    hide Advance, Log, Quietly, Keeps, FirstIsReply, RunSteps;
    var c := Start(initial);
    QuietlyKeeps(early, []);
    StartWaits(initial);
    ReplyIsFirst(c, early);
    ReplyTaken(RunSteps(c, early));
    LogAccepted(c, early);
    Associates(Log(c, early), [], []);
  }

  /** What a run through the assignment hands over and counts, before it and after it. */
  lemma {:induction false} CounterSplits(c: Client, early: seq<Step>, late: seq<Step>) returns (after: seq<SoupMessage>)
    requires RunSteps(c, early).login.Replied?
    ensures var end := RunSteps(c, early + [Assign] + late);
            && end.login.LoggedIn? && end.sequence == RunSteps(c, early).login.next - 1 + |Payloads(after)|
    ensures Log(c, early + [Assign] + late) == Log(c, early) + after
  {
    hide Advance, Log, RunSteps;
    var one: seq<Step> := [Assign];
    RunStepsAppend(c, early + one, late);
    RunStepsAppend(c, early, one);
    var settled := AssignAlone(RunSteps(c, early));
    CounterCounts(settled, late);
    AssignedStays(settled, late);
    after := Log(settled, late);
    Associates(Log(c, early), [], []);
  }

  /** Counting from the second part on misses exactly what the first part, its head aside, would have added. */
  lemma {:induction false} InStepCount(before: seq<SoupMessage>, after: seq<SoupMessage>, base: int)
    requires before != []
    ensures base + |Payloads(after)| == base + |Payloads((before + after)[1..])| <==>
            forall i :: 1 <= i < |before| ==> !(before + after)[i].SequencedData?
  {
    hide Payloads;
    assert (before + after)[1..] == before[1..] + after;
    PayloadsAppend(before[1..], after);
    NoPayloads(before[1..]);
    assert forall i :: 1 <= i < |before| ==> before[1..][i - 1] == before[i] == (before + after)[i];
    assert Payloads(before[1..]) == [] <==> |Payloads(before[1..])| == 0;
  }

  lemma {:induction false} StartWaits(initial: int)
    ensures FirstIsReply(Start(initial)) && Start(initial).session.queue.Accepted() == []
  {
  }

  lemma {:induction false} ReplyTaken(c: Client)
    requires FirstIsReply(c) && c.login.Replied?
    ensures var accepted := c.session.queue.Accepted();
            accepted != [] && accepted[0].LoginAccepted? && c.login.next == accepted[0].nextSequence
  {
  }

  lemma {:induction false} AssignAlone(c: Client) returns (settled: Client)
    requires c.login.Replied?
    ensures settled == RunSteps(c, [Assign]) == c.(sequence := c.login.next - 1, login := LoggedIn)
    ensures Log(c, [Assign]) == []
  {
    var one: seq<Step> := [Assign];
    assert one[1..] == [];
    settled := Advance(c, Assign);
    assert RunSteps(settled, one[1..]) == settled && Log(settled, one[1..]) == [];
  }

  lemma {:induction false} QuietlyKeeps(early: seq<Step>, late: seq<Step>)
    requires Quietly(early) && Keeps(late)
    ensures Keeps(early) && Keeps(early + [Assign] + late)
  {
    var all := early + [Assign] + late;
    forall i | 0 <= i < |all| && all[i].On? ensures Keeping(all[i].event) {
      if i < |early| { assert all[i] == early[i]; } else { assert all[i] == late[i - |early| - 1]; }
    }
  }

  lemma {:induction false} AssignedStays(c: Client, steps: seq<Step>)
    requires c.login.LoggedIn?
    ensures RunSteps(c, steps).login.LoggedIn?
    decreases |steps|
  {
    if steps != [] { AssignedStays(Advance(c, steps[0]), steps[1..]); }
  }

  /** What is handed over is a prefix of the visible messages among the packets that arrived. */
  lemma {:induction false} LogMatchesStream(msgs: seq<SoupMessage>, k: nat, initial: int, steps: seq<Step>)
    requires (forall m :: m in msgs ==> Fits(m)) && k <= |Concat(Encodings(msgs))|
    requires Received(EventsOf(steps)) == Concat(Encodings(msgs))[..k]
    requires Keeps(steps) && !RunSteps(Start(initial), steps).login.Refused?
    ensures WholeFrames(Encodings(msgs), k) <= |msgs|
    ensures Log(Start(initial), steps) <= Visible(msgs[..WholeFrames(Encodings(msgs), k)])
  {
    hide Fits, Encode, Peek, Advance, Next, Log, Keeps, Received, Conserves, WellPhased;
    var c, frames := Start(initial), Encodings(msgs);
    SoupIncremental();
    InitialConserves(Soup, false);
    ReaderConserves(c, steps, []);
    Associates(Received(EventsOf(steps)), [], []);
    forall i | 0 <= i < |frames| ensures Frames(Soup, frames[i], msgs[i]) { SoupFrames(msgs[i]); }
    ScanFrames(Soup, frames, msgs, k);
    LogAccepted(c, steps);
    var s := RunSteps(c, steps).session;
    PrefixOfAll(s, Received(EventsOf(steps)));
    Associates(Log(c, steps), [], []);
  }

  lemma {:induction false} PrefixOfAll(s: Session<SoupMessage>, received: Bytes)
    requires Incremental(Soup) && Conserves(Soup, s, received)
    ensures s.queue.Accepted() <= Scan(Soup, received).msgs
  {
    hide Scan;
    Associates(s.queue.Accepted(), [], []);
  }

  // ---------------------------------------------------------------- a run that lags

  /**
   * A reply and one sequenced packet in one piece of data, and two turns of the reader before `login` gets to run:
   * the counter ends up one behind.
   */
  lemma {:induction false} LaggingRun(initial: int, reply: SoupMessage, data: Bytes)
    requires reply.LoginAccepted? && Fits(reply) && Fits(SequencedData(data))
    ensures Encode(reply).Some? && Encode(SequencedData(data)).Some?
    ensures var bytes := Encode(reply).value + Encode(SequencedData(data)).value;
            var steps := [On(Data(bytes)), On(ReaderTurn), On(ReaderTurn), TakeReply, Assign];
            && Log(Start(initial), steps) == [reply, SequencedData(data)]
            && RunSteps(Start(initial), steps).login.LoggedIn?
            && RunSteps(Start(initial), steps).sequence == reply.nextSequence - 1
  {
    hide Fits, Encode, Peek, Frames;
    SoupFrames(reply);
    SoupFrames(SequencedData(data));
    var f, g := Encode(reply).value, Encode(SequencedData(data)).value;
    var c0 := Start(initial);
    var c1 := Advance(c0, On(Data(f + g)));
    assert c1.session.reader.pending == f + g by { assert [] + (f + g) == f + g; }
    OneTurn(c1, f, g, reply);
    var c2 := Advance(c1, On(ReaderTurn));
    assert g + [] == g;
    OneTurn(c2, g, [], SequencedData(data));
    var c3 := Advance(c2, On(ReaderTurn));
    assert c3.session.queue.main == [reply, SequencedData(data)];
    var c4 := Advance(c3, TakeReply);
    var c5 := Advance(c4, Assign);
    var steps := [On(Data(f + g)), On(ReaderTurn), On(ReaderTurn), TakeReply, Assign];
    FiveSteps(c0, steps);
    assert [reply] + [SequencedData(data)] == [reply, SequencedData(data)];
  }

  /** A turn with a whole frame at the head of what is pending hands its message to the queue. */
  lemma {:induction false} OneTurn(c: Client, f: Bytes, rest: Bytes, m: SoupMessage)
    requires Frames(Soup, f, m) && !IsLogout(m) && !IsHeartbeat(m)
    requires c.session.reader.pending == f + rest && c.session.reader.loop.Reading? && c.session.queue.side.None?
    ensures HandedOver(c.session, ReaderTurn) == [m]
    ensures var c' := Advance(c, On(ReaderTurn));
            && c'.session.reader == c.session.reader.(pending := rest)
            && c'.session.queue == c.session.queue.(main := c.session.queue.main + [m])
            && c'.login == c.login
  {
    hide Peek;
    assert Soup.peek(f + rest) == Frame(|f|, m);
    Parts(f, rest);
  }

  lemma {:induction false} FiveSteps(c: Client, s: seq<Step>)
    requires |s| == 5
    ensures RunSteps(c, s) == Advance(Advance(Advance(Advance(Advance(c, s[0]), s[1]), s[2]), s[3]), s[4])
    ensures s[0].On? && s[0].event.Data? && s[1].On? && s[2].On? && s[3].TakeReply? && s[4].Assign? ==>
              Log(c, s) == HandedOver(Advance(c, s[0]).session, s[1].event)
                           + HandedOver(Advance(Advance(c, s[0]), s[1]).session, s[2].event)
  {
    hide Advance, HandedOver;
    var c1 := Advance(c, s[0]);
    var c2 := Advance(c1, s[1]);
    var c3 := Advance(c2, s[2]);
    var c4 := Advance(c3, s[3]);
    var c5 := Advance(c4, s[4]);
    assert s[1..][0] == s[1] && s[1..][1..] == s[2..] && s[2..][0] == s[2] && s[2..][1..] == s[3..];
    assert s[3..][0] == s[3] && s[3..][1..] == s[4..] && s[4..][0] == s[4] && s[4..][1..] == [];
    assert RunSteps(c3, s[3..]) == RunSteps(c4, s[4..]) == RunSteps(c5, []) == c5;
    assert RunSteps(c, s) == RunSteps(c1, s[1..]) == RunSteps(c2, s[2..]) == RunSteps(c3, s[3..]);
    if s[0].On? && s[0].event.Data? && s[1].On? && s[2].On? && s[3].TakeReply? && s[4].Assign? {
      assert Log(c5, []) == [] && Log(c4, s[4..]) == [] && Log(c3, s[3..]) == [];
      assert Log(c2, s[2..]) == HandedOver(c2.session, s[2].event);
      assert HandedOver(c.session, s[0].event) == [] by { NothingHanded(c.session, s[0].event); }
    }
  }

  lemma {:induction false} NothingHanded(s: Session<SoupMessage>, e: Event<SoupMessage>)
    requires e.Data?
    ensures HandedOver(s, e) == []
  {
  }

  // ---------------------------------------------------------------- a refused login

  /** What `login` has made of the first message, in a session that nothing but data, its reader and `login` touch. */
  ghost predicate ReplySettles(c: Client) {
    var s, taken := c.session, c.session.queue.delivered;
    && s.phase.Idle? && !s.halfClosed && s.queue.side.None?
    && s.handlerRuns == (if s.closed then 1 else 0) && s.queue.closed == s.closed
    && (s.closed ==> s.reader.loop.Stopped?)
    && match c.login {
         case Waiting => taken == []
         case Replied(next) => |taken| == 1 && taken[0].LoginAccepted? && taken[0].nextSequence == next
         case LoggedIn => |taken| == 1 && taken[0].LoginAccepted?
         case Refused => |taken| == 1 && !taken[0].LoginAccepted? && s.closed
       }
  }

  lemma {:induction false} ReplySettlesNext(c: Client, st: Step)
    requires ReplySettles(c) && (st.On? ==> st.event.Data? || st.event.ReaderTurn?)
    ensures ReplySettles(Advance(c, st))
  {
    hide Peek;
  }

  lemma {:induction false} ReplySettlesRun(c: Client, steps: seq<Step>)
    requires ReplySettles(c)
    requires forall st :: st in steps && st.On? ==> st.event.Data? || st.event.ReaderTurn?
    ensures ReplySettles(RunSteps(c, steps))
    decreases |steps|
  {
    hide Advance, ReplySettles;
    if steps != [] {
      assert steps[0] in steps && forall st :: st in steps[1..] ==> st in steps;
      ReplySettlesNext(c, steps[0]);
      ReplySettlesRun(Advance(c, steps[0]), steps[1..]);
    }
  }

  /**
   * Over every run of data, reader turns and `login`: the login is refused exactly when the message taken as its
   * reply is no login acceptance. The session is then closed and its queue stopped, and its handler has run once.
   */
  lemma {:induction false} RefusedClosed(initial: int, steps: seq<Step>)
    requires forall st :: st in steps && st.On? ==> st.event.Data? || st.event.ReaderTurn?
    ensures var c := RunSteps(Start(initial), steps);
            var s, taken := c.session, c.session.queue.delivered;
            && (c.login.Refused? <==> taken != [] && !taken[0].LoginAccepted?) && |taken| <= 1
            && (c.login.Refused? ==> s.closed && s.queue.closed && s.handlerRuns == 1 && s.reader.loop.Stopped?)
  {
    ReplySettlesRun(Start(initial), steps);
  }

  /** A login rejection, from its bytes to the closed session. */
  lemma {:induction false} RejectedRun(initial: int)
    ensures var c := RunSteps(Start(initial), [On(Data([0, 2, 74, 65])), On(ReaderTurn), TakeReply]);
            && c.login.Refused? && c.sequence == initial
            && c.session.queue.delivered == [LoginRejected(NotAuthorized)]
            && c.session.closed && c.session.queue.closed && c.session.handlerRuns == 1
            && c.session.reader.loop.Stopped?
  {
    hide Next, Advance;
    var m := LoginRejected(NotAuthorized);
    var steps: seq<Step> := [On(Data([0, 2, 74, 65])), On(ReaderTurn), TakeReply];
    ThreeSteps(Start(initial), steps);
    RejectionRead(initial, m);
    RejectionTaken(Advance(Advance(Start(initial), steps[0]), steps[1]), m);
  }

  lemma {:induction false} ThreeSteps(c: Client, s: seq<Step>)
    requires |s| == 3
    ensures RunSteps(c, s) == Advance(Advance(Advance(c, s[0]), s[1]), s[2])
  {
    hide Advance;
    assert s[1..][0] == s[1] && s[1..][1..] == s[2..] && s[2..][0] == s[2] && s[2..][1..] == [];
    assert RunSteps(Advance(Advance(c, s[0]), s[1]), s[2..]) == Advance(Advance(Advance(c, s[0]), s[1]), s[2]);
  }

  lemma {:induction false} RejectionRead(initial: int, m: SoupMessage)
    requires m == LoginRejected(NotAuthorized)
    ensures var c := Advance(Advance(Start(initial), On(Data([0, 2, 74, 65]))), On(ReaderTurn));
            && c.login.Waiting? && c.sequence == initial && c.session.queue == Q.Fresh(false).(main := [m])
            && !c.session.closed && c.session.handlerRuns == 0
  {
    hide Peek;
    ShortFrames();
    var b: Bytes := [0, 2, 74, 65];
    var c1 := Advance(Start(initial), On(Data(b)));
    assert c1.session.reader.pending == b by { assert [] + b == b; }
    assert HandedOver(c1.session, ReaderTurn) == [m];
    assert Payloads([m]) == [] by { NoPayloads([m]); }
  }

  lemma {:induction false} RejectionTaken(c: Client, m: SoupMessage)
    requires m == LoginRejected(NotAuthorized) && c.login.Waiting? && c.session.queue == Q.Fresh(false).(main := [m])
    requires !c.session.closed && c.session.handlerRuns == 0
    ensures var c' := Advance(c, TakeReply);
            && c'.login.Refused? && c'.sequence == c.sequence && c'.session.queue.delivered == [m]
            && c'.session.closed && c'.session.queue.closed && c'.session.handlerRuns == 1
            && c'.session.reader.loop.Stopped?
  {
    hide Peek, StreamReader.Turned;
    assert [] + [m] == [m];
  }
}
