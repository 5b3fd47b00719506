/** What a FIX session sends comes back out of the receiving reader, however the bytes are cut up. */
module FixDelivery {
  import opened Bytes
  import opened Framing
  import opened FixCodec
  import opened FixRoundTrip
  import opened FixMessage
  import opened FixFrame
  import opened SessionDrain
  import DrainEnds

  // ---------------------------------------------------------------- the framing fields as slots

  function Text(tag: int, s: Bytes): Tagged<Value> {
    Tagged(tag, FieldVal(StrV(s)))
  }

  /** BeginString, BodyLength and MsgType. */
  function Lead(begin: Bytes, msgType: Bytes, payload: Bytes): seq<Tagged<Value>> {
    [Text(8, begin), Tagged(9, FieldVal(IntV(|Stamp(35, msgType) + payload|))), Text(35, msgType)]
  }

  function CheckSlot(begin: Bytes, msgType: Bytes, payload: Bytes): seq<Tagged<Value>> {
    [Text(10, Pad3(Sum(Checked(begin, msgType, payload)) % 256))]
  }

  /** A message with the framing fields of its own frame at both ends. */
  function Framed(m: Message, begin: Bytes, msgType: Bytes, payload: Bytes): Message {
    Message(Segment(Lead(begin, msgType, payload) + m.header.items), m.body,
            Segment(m.trailer.items + CheckSlot(begin, msgType, payload)))
  }

  /** The header knows the framing fields, with the types the standard gives them, and so does the trailer. */
  predicate FramingFields(cls: MessageClass) {
    && Lookup(cls.header, 8) == Some(FieldEntry(8, FixString))
    && Lookup(cls.header, 9) == Some(FieldEntry(9, FixInt))
    && Lookup(cls.header, 35) == Some(FieldEntry(35, FixString))
    && Lookup(cls.trailer, 10) == Some(FieldEntry(10, FixString))
  }

  /** A message that can be sent: one that survives the codec and leaves the framing fields to the session. */
  ghost predicate Sendable(cls: MessageClass, m: Message, begin: Bytes) {
    && ClassOk(cls) && TypedMessage(cls, m) && CleanMessage(cls, m) && !EmptyMessage(m)
    && FramingFields(cls) && Plain(begin) && Plain(cls.msgType)
    && !HasTag(m.header.items, 8) && !HasTag(m.header.items, 9) && !HasTag(m.header.items, 35)
    && !HasTag(m.trailer.items, 10)
  }

  // ---------------------------------------------------------------- appending slots

  lemma {:induction false} TerminatedAppend(entries: seq<Entry>, a: seq<Tagged<Value>>, b: seq<Tagged<Value>>)
    ensures Terminated(entries, a + b) == Terminated(entries, a) + Terminated(entries, b)
  {
    hide PrintValue, Lookup;
    if a == [] {
      assert a + b == b;
    } else {
      assert (a + b)[1..] == a[1..] + b;
      TerminatedAppend(entries, a[1..], b);
      var first := PrintValue(a[0].tag, Lookup(entries, a[0].tag), a[0].value) + [SOH];
      Associates(first, Terminated(entries, a[1..]), Terminated(entries, b));
    }
  }

  lemma {:induction false} NormalAppend(entries: seq<Entry>, a: seq<Tagged<Value>>, b: seq<Tagged<Value>>)
    ensures NormalItems(entries, a + b) == NormalItems(entries, a) + NormalItems(entries, b)
  {
    hide NormalItems, NormalValue, Lookup;
    forall i | 0 <= i < |a + b|
      ensures NormalItems(entries, a + b)[i] == (NormalItems(entries, a) + NormalItems(entries, b))[i]
    {
      NormalAt(entries, a + b, i);
      if i < |a| { NormalAt(entries, a, i); } else { NormalAt(entries, b, i - |a|); }
    }
  }

  lemma {:induction false} SlotsAppend(entries: seq<Entry>, a: seq<Tagged<Value>>, b: seq<Tagged<Value>>)
    requires Typed(entries, Segment(a)) && Typed(entries, Segment(b))
    requires forall x, y :: x in a && y in b ==> x.tag != y.tag
    requires CleanItems(entries, a) && CleanItems(entries, b)
    ensures Typed(entries, Segment(a + b)) && CleanItems(entries, a + b)
  {
    hide TypedValue, CleanValue, Lookup;
    var c := a + b;
    forall i, j | 0 <= i < j < |c| ensures c[i].tag != c[j].tag {
      if i < |a| <= j { assert a[i] in a && b[j - |a|] in b; }
    }
    forall i | 0 <= i < |c| ensures CleanValue(Lookup(entries, c[i].tag), c[i].value) {
      if i >= |a| { assert c[i] == b[i - |a|]; }
    }
  }

  // ---------------------------------------------------------------- the framing fields are good slots

  lemma {:induction false} TextSlot(entries: seq<Entry>, tag: int, s: Bytes)
    requires Lookup(entries, tag) == Some(FieldEntry(tag, FixString)) && Ascii(s) && SOH !in s
    ensures Typed(entries, Segment([Text(tag, s)])) && CleanItems(entries, [Text(tag, s)])
    ensures NormalItems(entries, [Text(tag, s)]) == [Text(tag, s)]
    ensures Terminated(entries, [Text(tag, s)]) == Stamp(tag, s)
  {
    hide PrintField;
    var x := Text(tag, s);
    assert TypedValue(FieldEntry(tag, FixString), x.value);
    assert [x][1..] == [];
    assert PrintValue(tag, Lookup(entries, tag), x.value) == PrintField(tag, StrV(s));
    NormalAt(entries, [x], 0);
  }

  lemma {:induction false} LengthSlot(entries: seq<Entry>, n: int)
    requires Lookup(entries, 9) == Some(FieldEntry(9, FixInt))
    ensures Typed(entries, Segment([Tagged(9, FieldVal(IntV(n)))])) &&
            CleanItems(entries, [Tagged(9, FieldVal(IntV(n)))])
    ensures NormalItems(entries, [Tagged(9, FieldVal(IntV(n)))]) == [Tagged(9, FieldVal(IntV(n)))]
    ensures Terminated(entries, [Tagged(9, FieldVal(IntV(n)))]) == PrintField(9, IntV(n)) + [SOH]
  {
    hide PrintField;
    var x := Tagged(9, FieldVal(IntV(n)));
    assert TypedValue(FieldEntry(9, FixInt), x.value);
    assert [x][1..] == [];
    assert PrintValue(9, Lookup(entries, 9), x.value) == PrintField(9, IntV(n));
    NormalAt(entries, [x], 0);
  }

  lemma {:induction false} LeadSlots(entries: seq<Entry>, begin: Bytes, msgType: Bytes, payload: Bytes)
    requires Lookup(entries, 8) == Some(FieldEntry(8, FixString)) && Lookup(entries, 9) == Some(FieldEntry(9, FixInt))
    requires Lookup(entries, 35) == Some(FieldEntry(35, FixString)) && Plain(begin) && Plain(msgType)
    ensures var lead := Lead(begin, msgType, payload);
            && Typed(entries, Segment(lead)) && CleanItems(entries, lead) && NormalItems(entries, lead) == lead
            && Terminated(entries, lead) == Prefix(begin, |Stamp(35, msgType) + payload|) + Stamp(35, msgType)
  {
    hide Terminated, NormalItems, Typed, CleanItems, Stamp, PrintField, Lookup;
    var n := |Stamp(35, msgType) + payload|;
    var a, b, c := [Text(8, begin)], [Tagged(9, FieldVal(IntV(n)))], [Text(35, msgType)];
    TextSlot(entries, 8, begin);
    LengthSlot(entries, n);
    TextSlot(entries, 35, msgType);
    SlotsAppend(entries, a, b);
    SlotsAppend(entries, a + b, c);
    NormalAppend(entries, a, b);
    NormalAppend(entries, a + b, c);
    TerminatedAppend(entries, a, b);
    TerminatedAppend(entries, a + b, c);
    assert Lead(begin, msgType, payload) == a + b + c;
    Associates(Stamp(8, begin), PrintField(9, IntV(n)), [SOH]);
  }

  lemma {:induction false} CheckSlots(entries: seq<Entry>, begin: Bytes, msgType: Bytes, payload: Bytes)
    requires Lookup(entries, 10) == Some(FieldEntry(10, FixString))
    ensures var check := CheckSlot(begin, msgType, payload);
            && Typed(entries, Segment(check)) && CleanItems(entries, check) && NormalItems(entries, check) == check
            && Terminated(entries, check) == Stamp(10, Pad3(Sum(Checked(begin, msgType, payload)) % 256))
  {
    hide Terminated, NormalItems, Typed, CleanItems, Stamp, PrintField, Lookup, Sum, Checked, Pad3;
    var n := Sum(Checked(begin, msgType, payload)) % 256;
    Pad3Value(n);
    TextSlot(entries, 10, Pad3(n));
  }

  // ---------------------------------------------------------------- a frame is a printed message

  /** The three segments of a framed message, typed, clean and in order. */
  lemma {:induction false} FramedSegments(cls: MessageClass, m: Message, begin: Bytes, payload: Bytes)
    requires Sendable(cls, m, begin)
    ensures var f := Framed(m, begin, cls.msgType, payload);
            && TypedMessage(cls, f) && CleanMessage(cls, f) && !EmptyMessage(f)
            && NormalMessage(cls, f) == Framed(NormalMessage(cls, m), begin, cls.msgType, payload)
            && TerminatedSegments(cls.Schemas(), f.Segments()) ==
               Prefix(begin, |Stamp(35, cls.msgType) + payload|) + Stamp(35, cls.msgType)
               + TerminatedSegments(cls.Schemas(), m.Segments())
               + Stamp(10, Pad3(Sum(Checked(begin, cls.msgType, payload)) % 256))
  {
    hide Terminated, NormalItems, Typed, CleanItems, Stamp, Prefix, Lookup, Sum, Checked, Pad3, SchemasOk, Lead,
         CheckSlot, Position;
    var lead, check := Lead(begin, cls.msgType, payload), CheckSlot(begin, cls.msgType, payload);
    var h, t := m.header.items, m.trailer.items;
    LeadSlots(cls.header, begin, cls.msgType, payload);
    CheckSlots(cls.trailer, begin, cls.msgType, payload);
    assert Typed(cls.Schemas()[0], m.Segments()[0]) && Typed(cls.Schemas()[1], m.Segments()[1]) &&
           Typed(cls.Schemas()[2], m.Segments()[2]);
    assert CleanItems(cls.Schemas()[0], m.Segments()[0].items) && CleanItems(cls.Schemas()[1], m.Segments()[1].items)
           && CleanItems(cls.Schemas()[2], m.Segments()[2].items);
    NewTags(m, begin, cls.msgType, payload);
    SlotsAppend(cls.header, lead, h);
    SlotsAppend(cls.trailer, t, check);
    NormalAppend(cls.header, lead, h);
    NormalAppend(cls.trailer, t, check);
    TerminatedAppend(cls.header, lead, h);
    TerminatedAppend(cls.trailer, t, check);
    SegmentsUnfold(cls, m);
    SegmentsUnfold(cls, Framed(m, begin, cls.msgType, payload));
    FivePieces(Terminated(cls.header, lead), Terminated(cls.header, h), Terminated(cls.body, m.body.items),
               Terminated(cls.trailer, t), Terminated(cls.trailer, check));
  }

  lemma {:induction false} NewTags(m: Message, begin: Bytes, msgType: Bytes, payload: Bytes)
    requires !HasTag(m.header.items, 8) && !HasTag(m.header.items, 9) && !HasTag(m.header.items, 35)
    requires !HasTag(m.trailer.items, 10)
    ensures forall x, y :: x in Lead(begin, msgType, payload) && y in m.header.items ==> x.tag != y.tag
    ensures forall x, y :: x in m.trailer.items && y in CheckSlot(begin, msgType, payload) ==> x.tag != y.tag
  {
    hide Position, Stamp, Sum, Checked, Pad3;
  }

  lemma {:induction false} SegmentsUnfold(cls: MessageClass, m: Message)
    ensures TerminatedSegments(cls.Schemas(), m.Segments()) ==
            Terminated(cls.header, m.header.items)
            + (Terminated(cls.body, m.body.items) + Terminated(cls.trailer, m.trailer.items))
    ensures NormalMessage(cls, m) == Message(Segment(NormalItems(cls.header, m.header.items)),
                                             Segment(NormalItems(cls.body, m.body.items)),
                                             Segment(NormalItems(cls.trailer, m.trailer.items)))
  {
    hide Terminated, NormalItems;
    var s, g := cls.Schemas(), m.Segments();
    assert s[1..] == [cls.body, cls.trailer] && g[1..] == [m.body, m.trailer];
    assert s[1..][1..] == [cls.trailer] && g[1..][1..] == [m.trailer];
    assert s[1..][1..][1..] == [] && g[1..][1..][1..] == [];
    assert TerminatedSegments([], []) == [] && NormalSegments([], []) == [];
    assert TerminatedSegments([cls.trailer], [m.trailer]) == Terminated(cls.trailer, m.trailer.items) + [];
    assert TerminatedSegments([cls.body, cls.trailer], [m.body, m.trailer]) ==
           Terminated(cls.body, m.body.items) + TerminatedSegments([cls.trailer], [m.trailer]);
    assert NormalSegments([cls.trailer], [m.trailer]) == [Segment(NormalItems(cls.trailer, m.trailer.items))];
    assert NormalSegments([cls.body, cls.trailer], [m.body, m.trailer]) ==
           [Segment(NormalItems(cls.body, m.body.items))] + NormalSegments([cls.trailer], [m.trailer]);
  }

  lemma {:induction false} FivePieces(a: Bytes, b: Bytes, c: Bytes, d: Bytes, e: Bytes)
    ensures (a + b) + (c + (d + e)) == a + (b + (c + d)) + e
  {
  }

  /** The bytes of a frame are those of a message of the class, framing fields included. */
  lemma {:induction false} FramePrinted(cls: MessageClass, m: Message, begin: Bytes)
    requires Sendable(cls, m, begin)
    ensures var payload := ToBytes(cls, m);
            ToBytes(cls, Framed(m, begin, cls.msgType, payload)) == FrameOf(begin, cls.msgType, payload)
  {
    hide TerminatedSegments, Stamp, Prefix, Sum, Pad3, ToBytes, Framed, SchemasOk;
    hide TypedMessage, CleanMessage, EmptyMessage, FramingFields, Plain, ClassOk, NormalMessage;
    var payload := ToBytes(cls, m);
    var f := Framed(m, begin, cls.msgType, payload);
    FramedSegments(cls, m, begin, payload);
    ToBytesTerminated(cls, m);
    ToBytesTerminated(cls, f);
    Associates(Prefix(begin, |Stamp(35, cls.msgType) + payload|), Stamp(35, cls.msgType), payload);
  }

  // ---------------------------------------------------------------- the reader's side

  /** The frame of a message is dispatched to its class and read back, every byte of it. */
  lemma {:induction false} FrameDispatched(defs: Registry, cls: MessageClass, m: Message, begin: Bytes)
    requires Sendable(cls, m, begin) && cls.msgType in defs && defs[cls.msgType] == cls
    ensures var payload := ToBytes(cls, m);
            var frame := FrameOf(begin, cls.msgType, payload);
            Dispatch(defs, frame) ==
            Ok(|frame|, Received(cls, Framed(NormalMessage(cls, m), begin, cls.msgType, payload)))
  {
    hide TerminatedSegments, Stamp, Prefix, Sum, Pad3, ToBytes, FromBytes, Framed, TypeText, FrameOf;
    hide TypedMessage, CleanMessage, EmptyMessage, FramingFields, ClassOk, NormalMessage;
    var payload := ToBytes(cls, m);
    var f := Framed(m, begin, cls.msgType, payload);
    FramedSegments(cls, m, begin, payload);
    FramePrinted(cls, m, begin);
    RoundTrip(cls, f);
    FrameType(begin, cls.msgType, payload);
  }

  /** What the receiver gets for a message that was sent. */
  function Seen(cls: MessageClass, m: Message, begin: Bytes): Received {
    Received(cls, Framed(NormalMessage(cls, m), begin, cls.msgType, ToBytes(cls, m)))
  }

  /**
   * The reader yields the message exactly when its whole frame is there: nothing for any shorter piece, and
   * this message, with nothing read past the frame, whatever bytes follow.
   */
  lemma {:induction false} FixFrames(defs: Registry, cls: MessageClass, m: Message, begin: Bytes)
    requires Sendable(cls, m, begin) && cls.msgType in defs && defs[cls.msgType] == cls
    ensures Frames(Fix(defs), FrameOf(begin, cls.msgType, ToBytes(cls, m)), Seen(cls, m, begin))
  {
    hide FrameOf, ToBytes, Dispatch, Announce, Framed;
    var payload := ToBytes(cls, m);
    var frame := FrameOf(begin, cls.msgType, payload);
    var p := Fix(defs);
    FrameDispatched(defs, cls, m, begin);
    FrameAnnounced(begin, cls.msgType, payload, []);
    assert frame + [] == frame;
    AnnounceNothing();
    forall rest {:trigger frame + rest} ensures p.peek(frame + rest) == Frame(|frame|, Seen(cls, m, begin)) {
      FrameAnnounced(begin, cls.msgType, payload, rest);
      assert (frame + rest)[..|frame|] == frame;
      assert Seen(cls, m, begin) == Received(cls, Framed(NormalMessage(cls, m), begin, cls.msgType, payload));
    }
    forall k {:trigger frame[..k]} | 0 <= k < |frame| ensures p.peek(frame[..k]).Wait? {
      if !Announce(frame[..k]).Unknown? {
        AnnounceExtended(frame[..k], frame[k..]);
        assert frame[..k] + frame[k..] == frame;
      }
    }
  }

  // ---------------------------------------------------------------- streams

  datatype Sent = Sent(cls: MessageClass, msg: Message)

  ghost predicate Deliverable(defs: Registry, begin: Bytes, x: Sent) {
    Sendable(x.cls, x.msg, begin) && x.cls.msgType in defs && defs[x.cls.msgType] == x.cls
  }

  function FramesOf(begin: Bytes, sent: seq<Sent>): seq<Bytes> {
    seq(|sent|, i requires 0 <= i < |sent| => FrameOf(begin, sent[i].cls.msgType, ToBytes(sent[i].cls, sent[i].msg)))
  }

  function SeenOf(begin: Bytes, sent: seq<Sent>): seq<Received> {
    seq(|sent|, i requires 0 <= i < |sent| => Seen(sent[i].cls, sent[i].msg, begin))
  }

  /**
   * However a stream of prepared frames is cut into pieces and interleaved with reader turns, reads and drains:
   * the receiving session accepts the messages of the frames that arrived completely, in order, up to the first
   * logout and without heartbeats.
   */
  lemma {:induction false} Delivery(defs: Registry, begin: Bytes, sent: seq<Sent>, k: nat, dispatching: bool,
                                    events: seq<Event<Received>>)
    requires forall x :: x in sent ==> Deliverable(defs, begin, x)
    requires k <= |Concat(FramesOf(begin, sent))| && SessionDrain.Received(events) == Concat(FramesOf(begin, sent))[..k]
    requires Lossless(events)
    ensures WholeFrames(FramesOf(begin, sent), k) <= |sent|
    ensures var s := Run(Fix(defs), Initial(dispatching), events);
            var arrived := Handed(Fix(defs), SeenOf(begin, sent)[..WholeFrames(FramesOf(begin, sent), k)]);
            && s.queue.Accepted() <= arrived
            && (!s.reader.loop.Reading? || Fix(defs).peek(s.reader.Unread()).Wait? ==> s.queue.Accepted() == arrived)
  {
    hide FrameOf, ToBytes, Seen, Peek, Frames, Run, Initial, Sendable, Incremental, Guards, Announce;
    var frames, seen := FramesOf(begin, sent), SeenOf(begin, sent);
    var p, q := Fix(defs), Guarded(defs);
    FixIncremental(defs);
    SentFrames(defs, begin, sent);
    StreamDelivery(q, frames, seen, k, dispatching, events);
    FramesNeverCrash(q, frames, seen, k, dispatching, events);
    RunAgrees(q, p, Initial(dispatching), events);
    HandedAlike(defs, seen[..WholeFrames(frames, k)]);
    var unread := Run(q, Initial(dispatching), events).reader.Unread();
    if p.peek(unread).Wait? { WaitGuarded(defs, unread); }
  }

  /** Prepared frames are frames of the reader that gives up where it would not move on. */
  lemma {:induction false} SentFrames(defs: Registry, begin: Bytes, sent: seq<Sent>)
    requires forall x :: x in sent ==> Deliverable(defs, begin, x)
    ensures var frames, seen := FramesOf(begin, sent), SeenOf(begin, sent);
            forall i :: 0 <= i < |frames| ==> Frames(Guarded(defs), frames[i], seen[i])
  {
    hide FrameOf, ToBytes, Seen, Peek, Frames, Sendable, Guarded, Fix;
    var frames, seen := FramesOf(begin, sent), SeenOf(begin, sent);
    forall i | 0 <= i < |frames| ensures Frames(Guarded(defs), frames[i], seen[i]) {
      assert sent[i] in sent;
      FixFrames(defs, sent[i].cls, sent[i].msg, begin);
      FramesGuarded(defs, frames[i], seen[i]);
    }
  }

  /** A frame is read alike by the reader that gives up where it would not move on. */
  lemma {:induction false} FramesGuarded(defs: Registry, frame: Bytes, r: Received)
    requires Frames(Fix(defs), frame, r)
    ensures Frames(Guarded(defs), frame, r)
  {
    hide Announce, Dispatch;
    var p, q := Fix(defs), Guarded(defs);
    forall rest {:trigger frame + rest} ensures q.peek(frame + rest) == Frame(|frame|, r) {
      assert p.peek(frame + rest) == Frame(|frame|, r);
    }
    forall k {:trigger frame[..k]} | 0 <= k < |frame| ensures q.peek(frame[..k]).Wait? {
      assert p.peek(frame[..k]).Wait?;
    }
  }

  lemma {:induction false} WaitGuarded(defs: Registry, b: Bytes)
    requires Fix(defs).peek(b).Wait?
    ensures Guarded(defs).peek(b).Wait?
  {
    hide Announce, Dispatch;
  }

  lemma {:induction false} HandedAlike(defs: Registry, msgs: seq<Received>)
    ensures Handed(Guarded(defs), msgs) == Handed(Fix(defs), msgs)
  {
    if msgs != [] { HandedAlike(defs, msgs[1..]); }
  }

  // ---------------------------------------------------------------- closing a FIX session

  /**
   * Graceful close of a FIX session, with its reader as it is. The bytes that came before the drain are the first
   * `k` of a stream of prepared frames; whatever comes after. When the drain gets past, exactly the messages of the
   * frames that had arrived completely have been delivered, in order, heartbeats aside, and none was a logout. If
   * the drain is a closing one, its end runs the close handler for the first time and delivers nothing more.
   */
  lemma {:induction false} GracefulClose(defs: Registry, begin: Bytes, sent: seq<Sent>, k: nat, dispatching: bool,
                                         before: seq<Event<Received>>, closing: bool, after: seq<Event<Received>>,
                                         own: bool)
    requires forall x :: x in sent ==> Deliverable(defs, begin, x)
    requires k <= |Concat(FramesOf(begin, sent))| && SessionDrain.Received(before) == Concat(FramesOf(begin, sent))[..k]
    requires Lossless(before)
    requires var p := Fix(defs);
             var s := Run(p, Initial(dispatching), before);
             && s.phase.Idle? && !s.closed && DrainEnds.Undisturbed(Next(p, s, StartDrain(closing)), after)
             && Run(p, Next(p, s, StartDrain(closing)), after).phase.Past?
    ensures WholeFrames(FramesOf(begin, sent), k) <= |sent|
    ensures var p := Fix(defs);
            var done := Run(p, Next(p, Run(p, Initial(dispatching), before), StartDrain(closing)), after);
            var end := Next(p, done, EndDrain(true, own));
            var arrived := SeenOf(begin, sent)[..WholeFrames(FramesOf(begin, sent), k)];
            && done.queue.delivered == Handed(p, arrived)
            && (forall r :: r in arrived ==> !p.isLogout(r))
            && (closing ==>
                  && done.handlerRuns == 0 && end.handlerRuns == 1
                  && end.queue.Accepted() == end.queue.delivered == Handed(p, arrived)
                  && end.reader.loop.Stopped? && !end.queue.dispatching)
  {
    hide FrameOf, ToBytes, Seen, Peek, Frames, Run, Initial, Sendable, Incremental, Guards, Announce, Handed;
    hide DrainEnds.Undisturbed, Lossless, SessionDrain.Received;
    var frames, seen := FramesOf(begin, sent), SeenOf(begin, sent);
    var p, q := Fix(defs), Guarded(defs);
    FixIncremental(defs);
    SentFrames(defs, begin, sent);
    DrainEnds.DrainAgrees(q, p, frames, seen, k, dispatching, before, closing, after);
    DrainEnds.GracefulClose(q, dispatching, before, closing, after);
    if closing {
      DrainEnds.HandlerAfterDrain(q, dispatching, before, after, own);
      EndAgrees(defs, Run(q, Next(q, Run(q, Initial(dispatching), before), StartDrain(closing)), after), own);
    }
    ScanFrames(q, frames, seen, k);
    HandedAlike(defs, seen[..WholeFrames(frames, k)]);
  }

  lemma {:induction false} EndAgrees(defs: Registry, s: Session<Received>, own: bool)
    ensures Next(Guarded(defs), s, EndDrain(true, own)) == Next(Fix(defs), s, EndDrain(true, own))
  {
  }
}
