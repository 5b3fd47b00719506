/**
 * The application pipeline of soup/soup_app.py: the session's dispatcher hands each packet to the application,
 * which decodes the sequenced payloads and puts the messages on a queue of its own.
 */
module SoupApplication {
  import opened Bytes
  import opened Framing
  import opened SoupCodec
  import StreamReader
  import opened SessionDrain
  import opened DrainEnds
  import opened SoupDelivery
  import opened RecordCodec
  import opened RecordMessage
  import Q = MessageQueue

  /** An application message: its class and its record. */
  datatype AppMessage = AppMessage(cls: MsgClass, body: Val)

  /** The classes an application knows. */
  datatype Codec = Codec(table: Table, app: string)

  datatype App = App(session: Session<SoupMessage>, inbox: Q.Store<AppMessage>)

  /** An event of the session under it, or a call on the application's own queue. */
  datatype Step = OnSession(event: Event<SoupMessage>) | OnInbox(call: Q.Call<AppMessage>)

  /** The packet that an event has a dispatcher of the session, known or forgotten, hand to `_on_soup_message`. */
  function Dispatched(s: Session<SoupMessage>, e: Event<SoupMessage>): seq<SoupMessage> {
    if !e.Consume? || !(e.call.Dispatch? || e.call.Forgotten?) then []
    else
      var r := Q.Step(s.queue, e.call).1;
      if r.Item? then [r.msg] else []
  }

  /** `decode` of one payload; an exception is logged by the dispatcher and nothing is put. */
  function DecodeOne(codec: Codec, payload: Bytes): seq<AppMessage> {
    match MessageFromBytes(codec.table, codec.app, payload)
    case Failed => []
    case Got(_, cls, body) => [AppMessage(cls, body)]
  }

  /** The messages in a list of payloads, in order, those that cannot be decoded left out. */
  function DecodeAll(codec: Codec, payloads: seq<Bytes>): seq<AppMessage> {
    if payloads == [] then [] else DecodeOne(codec, payloads[0]) + DecodeAll(codec, payloads[1..])
  }

  /** `_on_soup_message`: a sequenced packet is decoded and put on the application's queue. */
  function Fed(codec: Codec, inbox: Q.Store<AppMessage>, packets: seq<SoupMessage>): Q.Store<AppMessage> {
    if packets == [] || !packets[0].SequencedData? then inbox
    else
      var decoded := DecodeOne(codec, packets[0].data);
      if decoded == [] then inbox else Q.Step(inbox, Q.Put(decoded[0])).0
  }

  function Advance(codec: Codec, a: App, st: Step): App {
    match st
    case OnSession(e) => App(Next(Soup, a.session, e), Fed(codec, a.inbox, Dispatched(a.session, e)))
    case OnInbox(c) => a.(inbox := Q.Step(a.inbox, c).0)
  }

  function RunSteps(codec: Codec, a: App, steps: seq<Step>): App
    decreases |steps|
  {
    if steps == [] then a else RunSteps(codec, Advance(codec, a, steps[0]), steps[1..])
  }

  function EventsOf(steps: seq<Step>): seq<Event<SoupMessage>>
    decreases |steps|
  {
    if steps == [] then [] else (if steps[0].OnSession? then [steps[0].event] else []) + EventsOf(steps[1..])
  }

  /**
   * The application does not read past its own queue: nothing but dispatchers takes packets off the session's queue,
   * only `_on_soup_message` puts on the application's queue, and the application's queue discards nothing.
   */
  predicate Piped(st: Step) {
    match st
    case OnSession(e) => e.Consume? ==> !(e.call.GetNowait? || e.call.Get? || e.call.Wake?)
    case OnInbox(c) => !c.Put? && !Q.Discards(c)
  }

  predicate AllPiped(steps: seq<Step>) {
    forall i :: 0 <= i < |steps| ==> Piped(steps[i])
  }

  /** Besides, the session discards nothing and is not closed outright. */
  predicate Orderly(steps: seq<Step>) {
    AllPiped(steps) && forall i :: 0 <= i < |steps| && steps[i].OnSession? ==> Keeping(steps[i].event)
  }

  // ---------------------------------------------------------------- what is fed

  lemma {:induction false} DecodeAllAppend(codec: Codec, a: seq<Bytes>, b: seq<Bytes>)
    ensures DecodeAll(codec, a + b) == DecodeAll(codec, a) + DecodeAll(codec, b)
  {
    hide DecodeOne;
    if a == [] {
      assert a + b == b;
    } else {
      assert (a + b)[1..] == a[1..] + b;
      DecodeAllAppend(codec, a[1..], b);
      Associates(DecodeOne(codec, a[0]), DecodeAll(codec, a[1..]), DecodeAll(codec, b));
    }
  }

  /** One step: what the dispatcher takes off the session's queue is decoded onto the application's. */
  lemma {:induction false} StepFeeds(codec: Codec, a: App, st: Step)
    requires Piped(st)
    ensures var a' := Advance(codec, a, st);
            var packets := if st.OnSession? then Dispatched(a.session, st.event) else [];
            && a'.session.queue.delivered == a.session.queue.delivered + packets
            && a'.inbox.Accepted() == a.inbox.Accepted() + DecodeAll(codec, Payloads(packets))
  {
    hide MessageFromBytes;
    Associates(a.inbox.Accepted(), [], []);
    match st
    case OnSession(e) =>
      var packets := Dispatched(a.session, e);
      SessionDelivers(a.session, e);
      if packets != [] {
        assert packets == [packets[0]] && packets[1..] == [];
        if packets[0].SequencedData? {
          var data := packets[0].data;
          var none: seq<Bytes> := [];
          assert Payloads(packets) == [data] && [data][1..] == none;
          Associates(DecodeOne(codec, data), [], []);
          if DecodeOne(codec, data) != [] { Q.StepAccepts(a.inbox, Q.Put(DecodeOne(codec, data)[0])); }
        }
      }
    case OnInbox(c) => Q.StepAccepts(a.inbox, c);
  }

  lemma {:induction false} SessionDelivers(s: Session<SoupMessage>, e: Event<SoupMessage>)
    requires e.Consume? ==> !(e.call.GetNowait? || e.call.Get? || e.call.Wake?)
    ensures Next(Soup, s, e).queue.delivered == s.queue.delivered + Dispatched(s, e)
  {
    hide Q.Step;
    Associates(s.queue.delivered, [], []);
    if e.Consume? {
      CallDelivers(s.queue, e.call);
    } else {
      OthersDeliverNothing(s, e);
    }
  }

  lemma {:induction false} CallDelivers(q: Q.Store<SoupMessage>, c: Q.Call<SoupMessage>)
    requires !(c.GetNowait? || c.Get? || c.Wake?)
    ensures Q.Step(q, c).0.delivered ==
            q.delivered + if (c.Dispatch? || c.Forgotten?) && Q.Step(q, c).1.Item? then [Q.Step(q, c).1.msg] else []
  {
    Associates(q.delivered, [], []);
  }

  lemma {:induction false} OthersDeliverNothing(s: Session<SoupMessage>, e: Event<SoupMessage>)
    requires !e.Consume?
    ensures Next(Soup, s, e).queue.delivered == s.queue.delivered
  {
    hide Q.Step;
    Associates(s.queue.delivered, [], []);
    match e
    case ReaderTurn =>
      HandedDelivers(s);
    case ReaderDrained => CallDelivers(s.queue, Q.StartBuffering);
    case EndDrain(discard, own) =>
      CallDelivers(s.queue, Q.EndBuffering(discard, own));
      var q := Q.Step(s.queue, Q.EndBuffering(discard, own)).0;
      CallDelivers(q, Q.Stop(own));
      Associates(q.delivered, [], []);
    case Close(own) => CallDelivers(s.queue, Q.Stop(own));
    case _ =>
  }

  lemma {:induction false} HandedDelivers(s: Session<SoupMessage>)
    ensures Next(Soup, s, ReaderTurn).queue.delivered == s.queue.delivered
  {
    hide Q.Step, StreamReader.Turned;
    var (v, t) := StreamReader.Turned(Soup, s.reader);
    Associates(s.queue.delivered, [], []);
    if t.Message? { CallDelivers(s.queue, Q.Put(t.msg)); }
    CallDelivers(s.queue, Q.Stop(false));
  }

  /** Over every run: the application's queue accepted exactly the decoded payloads of what was dispatched. */
  lemma {:induction false} InboxHistory(codec: Codec, a: App, steps: seq<Step>) returns (packets: seq<SoupMessage>)
    requires AllPiped(steps)
    ensures RunSteps(codec, a, steps).session.queue.delivered == a.session.queue.delivered + packets
    ensures RunSteps(codec, a, steps).inbox.Accepted() == a.inbox.Accepted() + DecodeAll(codec, Payloads(packets))
    decreases |steps|
  {
    hide Advance, Dispatched, DecodeOne;
    if steps == [] {
      packets := [];
      Associates(a.session.queue.delivered, [], []);
      Associates(a.inbox.Accepted(), [], []);
    } else {
      assert Piped(steps[0]);
      assert forall i :: 0 <= i < |steps[1..]| ==> steps[1..][i] == steps[i + 1];
      var first := if steps[0].OnSession? then Dispatched(a.session, steps[0].event) else [];
      StepFeeds(codec, a, steps[0]);
      var later := InboxHistory(codec, Advance(codec, a, steps[0]), steps[1..]);
      packets := first + later;
      PayloadsAppend(first, later);
      DecodeAllAppend(codec, Payloads(first), Payloads(later));
      Associates(a.session.queue.delivered, first, later);
      Associates(a.inbox.Accepted(), DecodeAll(codec, Payloads(first)), DecodeAll(codec, Payloads(later)));
    }
  }

  // ---------------------------------------------------------------- the session underneath

  lemma {:induction false} SessionRuns(codec: Codec, a: App, steps: seq<Step>)
    ensures RunSteps(codec, a, steps).session == Run(Soup, a.session, EventsOf(steps))
    decreases |steps|
  {
    hide Next, Fed, Dispatched;
    if steps != [] {
      SessionRuns(codec, Advance(codec, a, steps[0]), steps[1..]);
      if steps[0].OnSession? { assert EventsOf(steps)[1..] == EventsOf(steps[1..]); }
      else { assert EventsOf(steps) == EventsOf(steps[1..]); }
    }
  }

  lemma {:induction false} OrderlyEvents(steps: seq<Step>)
    requires Orderly(steps)
    ensures Lossless(EventsOf(steps))
  {
    if steps != [] {
      assert forall i :: 0 <= i < |steps[1..]| ==> steps[1..][i] == steps[i + 1];
      OrderlyEvents(steps[1..]);
    }
  }

  // ---------------------------------------------------------------- from the wire to the application

  /**
   * The application is attached to a session that has run `login`, which took no sequenced packet. However the
   * packets are cut into pieces and interleaved: the application's queue has accepted, in every state of every
   * run, a prefix of the messages in the sequenced payloads sent, in order; and once everything that arrived is
   * read and dispatched, all of them. None is lost between the login and the start of dispatching.
   */
  lemma {:induction false} ApplicationHistory(codec: Codec, msgs: seq<SoupMessage>, k: nat, dispatching: bool,
                                              login: seq<Event<SoupMessage>>, inboxDispatching: bool, steps: seq<Step>)
    requires (forall m :: m in msgs ==> Fits(m)) && k <= |Concat(Encodings(msgs))|
    requires Received(login + EventsOf(steps)) == Concat(Encodings(msgs))[..k]
    requires Lossless(login) && Orderly(steps)
    requires Payloads(Run(Soup, Initial(dispatching), login).queue.delivered) == []
    ensures WholeFrames(Encodings(msgs), k) <= |msgs|
    ensures var start := App(Run(Soup, Initial(dispatching), login), Q.Fresh(inboxDispatching));
            var end := RunSteps(codec, start, steps);
            var arrived := Visible(msgs[..WholeFrames(Encodings(msgs), k)]);
            && end.inbox.Accepted() <= DecodeAll(codec, Payloads(arrived))
            && end.inbox.Accepted() <= DecodeAll(codec, Payloads(Visible(msgs)))
            && ((!end.session.reader.loop.Reading? || Soup.peek(end.session.reader.Unread()).Wait?)
                && end.session.queue.main == [] && end.session.queue.Held() == [] ==>
                  end.inbox.Accepted() == DecodeAll(codec, Payloads(arrived)))
  {
    hide Fits, SoupCodec.Encode, Peek, Run, Received, Next, DecodeAll, Visible, Payloads, Orderly;
    var s0 := Run(Soup, Initial(dispatching), login);
    var start := App(s0, Q.Fresh(inboxDispatching));
    var events := login + EventsOf(steps);
    OrderlyEvents(steps);
    SoupDelivery.Delivery(msgs, k, dispatching, events);
    DrainEnds.RunAppend(Soup, Initial(dispatching), login, EventsOf(steps));
    SessionRuns(codec, start, steps);
    var end := RunSteps(codec, start, steps);
    OrderlyPiped(steps);
    var packets := InboxHistory(codec, start, steps);
    var n := WholeFrames(Encodings(msgs), k);
    VisiblePrefix(msgs, n);
    var arrived, queue := Visible(msgs[..n]), end.session.queue;
    PayloadsAppend(s0.queue.delivered, packets);
    Associates(DecodeAll(codec, Payloads(packets)), [], []);
    Associates(Payloads(packets), [], []);
    assert queue.delivered <= queue.Accepted() by { Associates(queue.delivered, queue.main, queue.Held()); }
    PrefixDecoded(codec, queue.delivered, arrived);
    PrefixDecoded(codec, queue.delivered, Visible(msgs));
    Associates(queue.delivered, [], []);
  }

  lemma {:induction false} RunStepsAppend(codec: Codec, a: App, x: seq<Step>, y: seq<Step>)
    ensures RunSteps(codec, a, x + y) == RunSteps(codec, RunSteps(codec, a, x), y)
    decreases |x|
  {
    hide Advance;
    if x == [] {
      assert x + y == y;
    } else {
      assert (x + y)[1..] == x[1..] + y;
      RunStepsAppend(codec, Advance(codec, a, x[0]), x[1..], y);
    }
  }

  /** `StartDrain(true)`, the steps while it waits, and the end of the drain. */
  function Closing(steps: seq<Step>, own: bool): seq<Step> {
    [OnSession(StartDrain(true))] + steps + [OnSession(EndDrain(true, own))]
  }

  /**
   * A graceful close of the session under an application, in any interleaving: when its close handler runs, which
   * stops the application's queue, that queue has accepted exactly the messages in the sequenced payloads that
   * arrived before the close, in order, and the packets held no logout.
   */
  lemma {:induction false} GracefulCloseDecodes(codec: Codec, msgs: seq<SoupMessage>, k: nat, dispatching: bool,
                                                login: seq<Event<SoupMessage>>, inboxDispatching: bool,
                                                steps: seq<Step>, waiting: seq<Step>, own: bool)
    requires (forall m :: m in msgs ==> Fits(m)) && k <= |Concat(Encodings(msgs))|
    requires Received(login + EventsOf(steps)) == Concat(Encodings(msgs))[..k]
    requires Lossless(login) && Orderly(steps) && AllPiped(waiting)
    requires Payloads(Run(Soup, Initial(dispatching), login).queue.delivered) == []
    requires var start := App(Run(Soup, Initial(dispatching), login), Q.Fresh(inboxDispatching));
             var s := RunSteps(codec, start, steps).session;
             var drain := Next(Soup, s, StartDrain(true));
             && s.phase.Idle? && !s.closed && Undisturbed(drain, EventsOf(waiting))
             && Run(Soup, drain, EventsOf(waiting)).phase.Past?
    ensures WholeFrames(Encodings(msgs), k) <= |msgs|
    ensures var start := App(Run(Soup, Initial(dispatching), login), Q.Fresh(inboxDispatching));
            var end := RunSteps(codec, start, steps + Closing(waiting, own));
            var arrived := msgs[..WholeFrames(Encodings(msgs), k)];
            && end.session.handlerRuns == 1
            && end.inbox.Accepted() == DecodeAll(codec, Payloads(Visible(arrived)))
            && forall m :: m in arrived ==> !IsLogout(m)
  {
    hide Fits, SoupCodec.Encode, Peek, Run, Received, Next, DecodeAll, Visible, Payloads, Orderly, AllPiped,
         Undisturbed, RunSteps, Incremental, Frames, EventsOf, Advance;
    var s0 := Run(Soup, Initial(dispatching), login);
    var start := App(s0, Q.Fresh(inboxDispatching));
    var before := login + EventsOf(steps);
    OrderlyEvents(steps);
    OrderlyPiped(steps);
    DrainEnds.RunAppend(Soup, Initial(dispatching), login, EventsOf(steps));
    SessionRuns(codec, start, steps);
    SoupIncremental();
    ArrivedFrames(msgs, k);
    GracefulClose(Soup, dispatching, before, true, EventsOf(waiting));
    HandlerAfterDrain(Soup, dispatching, before, EventsOf(waiting), own);
    var all := steps + Closing(waiting, own);
    ClosingEvents(codec, RunSteps(codec, start, steps), waiting, own);
    RunStepsAppend(codec, start, steps, Closing(waiting, own));
    ClosingPiped(steps, waiting, own);
    var packets := InboxHistory(codec, start, all);
    var end := RunSteps(codec, start, all);
    PayloadsAppend(s0.queue.delivered, packets);
    Associates(DecodeAll(codec, Payloads(packets)), [], []);
    Associates(Payloads(packets), [], []);
  }

  lemma {:induction false} ArrivedFrames(msgs: seq<SoupMessage>, k: nat)
    requires (forall m :: m in msgs ==> Fits(m)) && k <= |Concat(Encodings(msgs))|
    ensures Incremental(Soup) && WholeFrames(Encodings(msgs), k) <= |msgs|
    ensures var arrived := msgs[..WholeFrames(Encodings(msgs), k)];
            var scan := Scan(Soup, Concat(Encodings(msgs))[..k]);
            && scan.msgs == Visible(arrived)
            && (scan.end.Open? ==> forall m :: m in arrived ==> !IsLogout(m))
  {
    hide Fits, SoupCodec.Encode, Peek, Frames, Incremental;
    var frames := Encodings(msgs);
    SoupIncremental();
    forall i | 0 <= i < |frames| ensures Frames(Soup, frames[i], msgs[i]) { SoupFrames(msgs[i]); }
    ScanFrames(Soup, frames, msgs, k);
  }

  lemma {:induction false} OrderlyPiped(steps: seq<Step>)
    requires Orderly(steps)
    ensures AllPiped(steps)
  {
  }

  lemma {:induction false} ClosingPiped(steps: seq<Step>, waiting: seq<Step>, own: bool)
    requires AllPiped(steps) && AllPiped(waiting)
    ensures AllPiped(steps + Closing(waiting, own))
  {
    var all, n := steps + Closing(waiting, own), |steps|;
    forall i | 0 <= i < |all| ensures Piped(all[i]) {
      if i < n { assert all[i] == steps[i]; }
      else if n < i < |all| - 1 { assert all[i] == waiting[i - n - 1]; }
    }
  }

  lemma {:induction false} ClosingEvents(codec: Codec, a: App, waiting: seq<Step>, own: bool)
    ensures RunSteps(codec, a, Closing(waiting, own)).session ==
            Next(Soup, Run(Soup, Next(Soup, a.session, StartDrain(true)), EventsOf(waiting)), EndDrain(true, own))
  {
    hide Next, Fed, Dispatched;
    var first: seq<Step>, last: seq<Step> := [OnSession(StartDrain(true))], [OnSession(EndDrain(true, own))];
    RunStepsAppend(codec, a, first + waiting, last);
    RunStepsAppend(codec, a, first, waiting);
    var b := RunSteps(codec, a, first);
    OneStep(codec, a, StartDrain(true));
    SessionRuns(codec, b, waiting);
    OneStep(codec, RunSteps(codec, b, waiting), EndDrain(true, own));
  }

  lemma {:induction false} OneStep(codec: Codec, a: App, e: Event<SoupMessage>)
    ensures RunSteps(codec, a, [OnSession(e)]).session == Next(Soup, a.session, e)
  {
    hide Next, Fed, Dispatched;
    var one: seq<Step> := [OnSession(e)];
    assert one[1..] == [];
    assert RunSteps(codec, Advance(codec, a, one[0]), one[1..]) == Advance(codec, a, one[0]);
  }

  lemma {:induction false} PrefixDecoded(codec: Codec, a: seq<SoupMessage>, b: seq<SoupMessage>)
    requires a <= b
    ensures DecodeAll(codec, Payloads(a)) <= DecodeAll(codec, Payloads(b))
  {
    hide DecodeAll, Payloads;
    assert b == a + b[|a|..];
    PayloadsAppend(a, b[|a|..]);
    DecodeAllAppend(codec, Payloads(a), Payloads(b[|a|..]));
  }

  /** Payloads made from messages of registered outgoing classes whose bodies survive: all are decoded again. */
  lemma {:induction false} SentIsDecoded(codec: Codec, sent: seq<AppMessage>, payloads: seq<Bytes>)
    requires Filed(codec.table) && |sent| == |payloads|
    requires forall i :: 0 <= i < |sent| ==> Decodable(codec, sent[i])
                                             && MessageToBytes(sent[i].cls, sent[i].body) == Some(payloads[i])
    ensures DecodeAll(codec, payloads) == seq(|sent|, i requires 0 <= i < |sent| => Restored(sent[i]))
  {
    hide MessageFromBytes, MessageToBytes, Decodable, Restored;
    if sent != [] {
      assert Decodable(codec, sent[0]) && MessageToBytes(sent[0].cls, sent[0].body) == Some(payloads[0]);
      OneDecoded(codec, sent[0], payloads[0]);
      assert forall i :: 0 <= i < |sent[1..]| ==> sent[1..][i] == sent[i + 1] && payloads[1..][i] == payloads[i + 1];
      SentIsDecoded(codec, sent[1..], payloads[1..]);
    }
  }

  /** The class is registered for messages from the server, and the body survives the codec. */
  predicate Decodable(codec: Codec, m: AppMessage) {
    var c := m.cls;
    && c.app == codec.app && (c.app, c.id) in codec.table && codec.table[(c.app, c.id)] == c
    && c.id.direction.Outgoing? && KindOk(c.Body()) && Survives(c.Body(), m.body)
  }

  /** The message as the application gets it: defaults filled in, an absent body blank. */
  function Restored(m: AppMessage): AppMessage {
    AppMessage(m.cls, Installed(m.cls, Normal(m.cls.Body(), m.body)))
  }

  lemma {:induction false} OneDecoded(codec: Codec, m: AppMessage, payload: Bytes)
    requires Filed(codec.table) && Decodable(codec, m) && MessageToBytes(m.cls, m.body) == Some(payload)
    ensures DecodeOne(codec, payload) == [Restored(m)]
  {
    hide MessageFromBytes, MessageToBytes, Normal, Survives, KindOk, BlankValues;
    RecordMessage.RoundTrip(codec.table, m.cls, m.body);
  }
}
