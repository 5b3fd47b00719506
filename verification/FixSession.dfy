/** The sending side of a FIX session: stamping the header, numbering and framing (fix/session.py). */
module FixSession {
  import opened Bytes
  import opened Framing
  import opened FixCodec
  import opened FixRoundTrip
  import opened FixMessage
  import opened FixFrame
  import opened FixDelivery
  import opened SessionDrain

  // ---------------------------------------------------------------- frames

  /** `_prepare_complete_msg`: three fields spliced in front, then the checksum over all of it. */
  method PrepareCompleteMsg(cls: MessageClass, begin: Bytes, msg: Message) returns (data: Bytes)
    ensures data == FrameOf(begin, cls.msgType, ToBytes(cls, msg))
  {
    hide ToBytes, PrintField, Pad3;
    data := ToBytes(cls, msg);
    data := PrintField(35, StrV(cls.msgType)) + [SOH] + data;
    data := PrintField(9, IntV(|data|)) + [SOH] + data;
    data := PrintField(8, StrV(begin)) + [SOH] + data;
    assert data == Checked(begin, cls.msgType, ToBytes(cls, msg)) by {
      var body := Stamp(35, cls.msgType) + ToBytes(cls, msg);
      Associates(Stamp(8, begin), PrintField(9, IntV(|body|)) + [SOH], body);
      Associates(Stamp(8, begin), PrintField(9, IntV(|body|)), [SOH]);
    }
    var sum: nat, i: nat := 0, 0;
    while i < |data|
      invariant i <= |data| && sum == Sum(data[..i])
    {
      assert data[..i + 1][..i] == data[..i];
      sum := sum + data[i];
      i := i + 1;
    }
    assert data[..|data|] == data;
    data := data + (PrintField(10, StrV(Pad3(sum % 256))) + [SOH]);
  }

  // ---------------------------------------------------------------- assigning header fields

  /** Dictionary assignment: in place when the tag is there, at the end otherwise. */
  function Put<T>(items: seq<Tagged<T>>, tag: int, value: T): seq<Tagged<T>> {
    var i := Position(items, tag);
    if i == -1 then items + [Tagged(tag, value)] else items[i := Tagged(tag, value)]
  }

  lemma {:induction false} PutSlots<T>(items: seq<Tagged<T>>, tag: int, value: T)
    requires DistinctTags(items)
    ensures DistinctTags(Put(items, tag, value)) && Put(items, tag, value) != []
    ensures forall t :: Slot(Put(items, tag, value), t) == if t == tag then Some(value) else Slot(items, t)
  {
    var p, i := Put(items, tag, value), Position(items, tag);
    assert i == -1 ==> forall x :: x in items ==> x.tag != tag;
    assert forall k :: 0 <= k < |items| && k != i ==> items[k].tag != tag by {
      if i == -1 { assert forall k :: 0 <= k < |items| ==> items[k] in items; }
    }
    forall t ensures Slot(p, t) == if t == tag then Some(value) else Slot(items, t) {
      if t == tag {
        var at := if i == -1 then |items| else i;
        assert p[at] == Tagged(tag, value);
        PositionUnique(p, at);
      } else if HasTag(items, t) {
        PositionUnique(p, Position(items, t));
      } else {
        assert forall x :: x in p ==> x.tag != t;
      }
    }
  }

  lemma {:induction false} PutKeeps(entries: seq<Entry>, items: seq<Tagged<Value>>, tag: int, value: Value)
    requires Typed(entries, Segment(items)) && CleanItems(entries, items)
    requires Lookup(entries, tag).Some? && TypedValue(Lookup(entries, tag).value, value) &&
             CleanValue(Lookup(entries, tag), value)
    ensures Typed(entries, Segment(Put(items, tag, value))) && CleanItems(entries, Put(items, tag, value))
  {
    hide TypedValue, CleanValue, Lookup, Slot;
    PutSlots(items, tag, value);
    var p, i := Put(items, tag, value), Position(items, tag);
    forall k | 0 <= k < |p| ensures CleanValue(Lookup(entries, p[k].tag), p[k].value) {
      if k < |items| && k != i { assert p[k] == items[k]; }
    }
  }

  // ---------------------------------------------------------------- the session's header fields

  const SENDER_COMP := 49
  const SENDER_SUB := 50
  const TARGET_COMP := 56
  const MSG_SEQ_NUM := 34
  const SENDING_TIME := 52

  /** What a session writes into every header: three names, a number and a time. */
  datatype Identity = Identity(senderComp: Bytes, senderSub: Bytes, targetComp: Bytes)

  predicate Legible(s: Bytes) {
    Ascii(s) && SOH !in s
  }

  predicate HeaderFields(entries: seq<Entry>) {
    && (forall tag :: tag in {SENDER_COMP, SENDER_SUB, TARGET_COMP, SENDING_TIME} ==>
          Lookup(entries, tag) == Some(FieldEntry(tag, FixString)))
    && Lookup(entries, MSG_SEQ_NUM) == Some(FieldEntry(MSG_SEQ_NUM, FixInt))
  }

  function Stamped(m: Message, id: Identity, number: int, time: Bytes): Message {
    var h1 := Put(m.header.items, SENDER_SUB, FieldVal(StrV(id.senderSub)));
    var h2 := Put(h1, TARGET_COMP, FieldVal(StrV(id.targetComp)));
    var h3 := Put(h2, SENDER_COMP, FieldVal(StrV(id.senderComp)));
    var h4 := Put(h3, MSG_SEQ_NUM, FieldVal(IntV(number)));
    m.(header := Segment(Put(h4, SENDING_TIME, FieldVal(StrV(time)))))
  }

  /** A header with the names of SenderCompID, SenderSubID and TargetCompID, the MsgSeqNum and the SendingTime. */
  predicate Carries(header: seq<Tagged<Value>>, id: Identity, number: int, time: Bytes) {
    && Slot(header, 49) == Some(FieldVal(StrV(id.senderComp)))
    && Slot(header, 50) == Some(FieldVal(StrV(id.senderSub)))
    && Slot(header, 56) == Some(FieldVal(StrV(id.targetComp)))
    && Slot(header, 34) == Some(FieldVal(IntV(number)))
    && Slot(header, 52) == Some(FieldVal(StrV(time)))
  }

  /** What the application may hand to `send_msg`: the codec's domain, framing fields left to the session. */
  ghost predicate Postable(cls: MessageClass, m: Message, begin: Bytes) {
    && ClassOk(cls) && TypedMessage(cls, m) && CleanMessage(cls, m)
    && FramingFields(cls) && HeaderFields(cls.header) && Plain(begin) && Plain(cls.msgType)
    && !HasTag(m.header.items, 8) && !HasTag(m.header.items, 9) && !HasTag(m.header.items, 35)
    && !HasTag(m.trailer.items, 10)
  }

  lemma {:induction false} PutText(entries: seq<Entry>, items: seq<Tagged<Value>>, tag: int, s: Bytes)
    requires Typed(entries, Segment(items)) && CleanItems(entries, items)
    requires Lookup(entries, tag) == Some(FieldEntry(tag, FixString)) && Legible(s)
    ensures Typed(entries, Segment(Put(items, tag, FieldVal(StrV(s))))) &&
            CleanItems(entries, Put(items, tag, FieldVal(StrV(s))))
    ensures forall t :: Slot(Put(items, tag, FieldVal(StrV(s))), t) ==
                        if t == tag then Some(FieldVal(StrV(s))) else Slot(items, t)
  {
    hide Put, Lookup, Slot, CleanItems;
    assert TypedValue(FieldEntry(tag, FixString), FieldVal(StrV(s)));
    PutKeeps(entries, items, tag, FieldVal(StrV(s)));
    PutSlots(items, tag, FieldVal(StrV(s)));
  }

  /**
   * A stamped message can be sent: whatever it was, it is not empty any more. Its header carries the session's names,
   * the number and the time, whatever stood there, and every other slot as it was; body and trailer are untouched.
   */
  lemma {:induction false} StampedSendable(cls: MessageClass, m: Message, begin: Bytes, id: Identity, number: int,
                                           time: Bytes)
    requires Postable(cls, m, begin) && Legible(time)
    requires Legible(id.senderComp) && Legible(id.senderSub) && Legible(id.targetComp)
    ensures Sendable(cls, Stamped(m, id, number, time), begin)
    ensures Carries(Stamped(m, id, number, time).header.items, id, number, time)
    ensures forall t :: t !in {49, 50, 56, 34, 52} ==>
              Slot(Stamped(m, id, number, time).header.items, t) == Slot(m.header.items, t)
    ensures Stamped(m, id, number, time).body == m.body && Stamped(m, id, number, time).trailer == m.trailer
  {
    hide Put, Lookup, Position, Slot, Typed, CleanItems, SchemaOk, SchemasOk, Legible, Plain, Typed;
    var e, s := cls.header, Stamped(m, id, number, time);
    assert Typed(cls.Schemas()[0], m.Segments()[0]) && CleanItems(cls.Schemas()[0], m.Segments()[0].items);
    var h0 := m.header.items;
    var h1 := Put(h0, SENDER_SUB, FieldVal(StrV(id.senderSub)));
    var h2 := Put(h1, TARGET_COMP, FieldVal(StrV(id.targetComp)));
    var h3 := Put(h2, SENDER_COMP, FieldVal(StrV(id.senderComp)));
    var h4 := Put(h3, MSG_SEQ_NUM, FieldVal(IntV(number)));
    PutText(e, h0, SENDER_SUB, id.senderSub);
    PutText(e, h1, TARGET_COMP, id.targetComp);
    PutText(e, h2, SENDER_COMP, id.senderComp);
    PutNumber(e, h3, number);
    PutText(e, h4, SENDING_TIME, time);
    SlotTag(s.header.items, 8);
    SlotTag(s.header.items, 9);
    SlotTag(s.header.items, 35);
    SlotTag(s.header.items, 34);
    SlotTag(h0, 8);
    SlotTag(h0, 9);
    SlotTag(h0, 35);
    SegmentsReplaced(cls, m, s);
  }

  lemma {:induction false} PutNumber(entries: seq<Entry>, items: seq<Tagged<Value>>, n: int)
    requires Typed(entries, Segment(items)) && CleanItems(entries, items)
    requires Lookup(entries, MSG_SEQ_NUM) == Some(FieldEntry(MSG_SEQ_NUM, FixInt))
    ensures Typed(entries, Segment(Put(items, MSG_SEQ_NUM, FieldVal(IntV(n)))))
    ensures CleanItems(entries, Put(items, MSG_SEQ_NUM, FieldVal(IntV(n))))
    ensures forall t :: Slot(Put(items, MSG_SEQ_NUM, FieldVal(IntV(n))), t) ==
                        if t == MSG_SEQ_NUM then Some(FieldVal(IntV(n))) else Slot(items, t)
  {
    hide Put, Lookup, Slot, CleanItems;
    assert TypedValue(FieldEntry(MSG_SEQ_NUM, FixInt), FieldVal(IntV(n)));
    PutKeeps(entries, items, MSG_SEQ_NUM, FieldVal(IntV(n)));
    PutSlots(items, MSG_SEQ_NUM, FieldVal(IntV(n)));
  }

  lemma {:induction false} SlotTag<T>(items: seq<Tagged<T>>, tag: int)
    ensures HasTag(items, tag) <==> Slot(items, tag).Some?
    ensures Slot(items, tag).Some? ==> items != []
  {
  }

  lemma {:induction false} SegmentsReplaced(cls: MessageClass, m: Message, s: Message)
    requires TypedMessage(cls, m) && CleanMessage(cls, m) && s.body == m.body && s.trailer == m.trailer
    requires Typed(cls.header, s.header) && CleanItems(cls.header, s.header.items) && s.header.items != []
    ensures TypedMessage(cls, s) && CleanMessage(cls, s) && !EmptyMessage(s)
  {
    hide Typed, CleanItems;
    var e, a, b := cls.Schemas(), m.Segments(), s.Segments();
    assert b[0].items != [];
    assert forall i :: 0 < i < 3 ==> a[i] == b[i];
  }

  // ---------------------------------------------------------------- the session

  /** The sending half of a session after `_initialize_session`. */
  class Sender {
    const begin: Bytes
    const id: Identity
    var sequence: int          // what next() gives
    var wire: Bytes            // everything written to the transport
    const monitored: bool      // there is a local heartbeat monitor
    var pings: nat             // how often it was pinged
    ghost const first: int
    ghost var sent: seq<Sent>
    ghost var times: seq<Bytes>   // the time of each message sent

    ghost predicate Valid()
      reads this
    {
      && Plain(begin) && Legible(id.senderComp) && Legible(id.senderSub) && Legible(id.targetComp)
      && sequence == first + |sent|
      && wire == Concat(FramesOf(begin, sent))
      && |times| == |sent|
      && forall i :: 0 <= i < |sent| ==> Numbered(sent[i], begin, id, first + i, times[i])
    }

    constructor (begin: Bytes, id: Identity, logonNumber: int, monitored: bool)
      requires Plain(begin) && Legible(id.senderComp) && Legible(id.senderSub) && Legible(id.targetComp)
      ensures Valid() && sent == [] && wire == [] && sequence == logonNumber && pings == 0
      ensures this.begin == begin && this.id == id && first == logonNumber && this.monitored == monitored
    {
      this.begin, this.id, this.sequence, this.wire, this.pings := begin, id, logonNumber, [], 0;
      this.first, this.sent, this.times, this.monitored := logonNumber, [], [], monitored;
    }

    /**
     * `send_msg`: a message that lacks a required body field is refused and nothing happens. Else the header is
     * stamped with the session's names, the next number and the time, one frame is written, and the local monitor is
     * pinged unless it is a heartbeat.
     */
    method Send(cls: MessageClass, msg: Message, time: Bytes) returns (ok: bool)
      requires Valid() && Postable(cls, msg, begin) && Legible(time)
      modifies this
      ensures Valid() && (ok <==> forall tag :: tag in cls.required ==> HasTag(msg.body.items, tag))
      ensures !ok ==> sequence == old(sequence) && sent == old(sent) && wire == old(wire) && pings == old(pings)
      ensures ok ==>
        && sequence == old(sequence) + 1
        && sent == old(sent) + [Sent(cls, Stamped(msg, id, old(sequence), time))] && times == old(times) + [time]
        && Carries(sent[|sent| - 1].msg.header.items, id, old(sequence), time)
        && sent[|sent| - 1].msg.body == msg.body && sent[|sent| - 1].msg.trailer == msg.trailer
        && wire == old(wire) + FrameOf(begin, cls.msgType, ToBytes(cls, Stamped(msg, id, old(sequence), time)))
        && pings == old(pings) + if cls.msgType != HEARTBEAT_TYPE && monitored then 1 else 0
    {
      hide Stamped, FrameOf, ToBytes, Postable, Sendable, Plain, Legible, Carries;
      ok := BodyValid(cls, msg);
      if !ok { return; }
      StampedSendable(cls, msg, begin, id, sequence, time);
      var stamped := Stamped(msg, id, sequence, time);
      var data := PrepareCompleteMsg(cls, begin, stamped);
      FramesGrow(begin, sent, Sent(cls, stamped));
      wire := wire + data;
      sequence := sequence + 1;
      sent, times := sent + [Sent(cls, stamped)], times + [time];
      if cls.msgType != HEARTBEAT_TYPE && monitored { pings := pings + 1; }
    }
  }

  /** `validate` of the body: every required tag is there. */
  method BodyValid(cls: MessageClass, msg: Message) returns (ok: bool)
    ensures ok <==> forall tag :: tag in cls.required ==> HasTag(msg.body.items, tag)
  {
    var i := 0;
    while i < |cls.required|
      invariant i <= |cls.required| && forall k :: 0 <= k < i ==> HasTag(msg.body.items, cls.required[k])
    {
      if !HasTag(msg.body.items, cls.required[i]) {
        assert cls.required[i] in cls.required;
        return false;
      }
      i := i + 1;
    }
    ok := true;
  }

  ghost predicate Numbered(x: Sent, begin: Bytes, id: Identity, number: int, time: Bytes) {
    Sendable(x.cls, x.msg, begin) && Carries(x.msg.header.items, id, number, time)
  }

  lemma {:induction false} ConcatAppend(a: seq<Bytes>, b: seq<Bytes>)
    ensures Concat(a + b) == Concat(a) + Concat(b)
  {
    if a == [] {
      assert a + b == b;
    } else {
      assert (a + b)[1..] == a[1..] + b;
      ConcatAppend(a[1..], b);
      Associates(a[0], Concat(a[1..]), Concat(b));
    }
  }

  lemma {:induction false} FramesGrow(begin: Bytes, sent: seq<Sent>, x: Sent)
    ensures Concat(FramesOf(begin, sent + [x])) == Concat(FramesOf(begin, sent)) +
            FrameOf(begin, x.cls.msgType, ToBytes(x.cls, x.msg))
  {
    hide FrameOf, ToBytes;
    var frame := FrameOf(begin, x.cls.msgType, ToBytes(x.cls, x.msg));
    assert FramesOf(begin, sent + [x]) == FramesOf(begin, sent) + [frame];
    ConcatAppend(FramesOf(begin, sent), [frame]);
    var none: seq<Bytes> := [];
    assert [frame][1..] == none && Concat([frame]) == frame + [];
  }

  /** On arrival a message carries the names, the number and the time it was stamped with. */
  lemma {:induction false} NumberArrives(cls: MessageClass, m: Message, begin: Bytes, id: Identity, number: int,
                                         time: Bytes)
    requires Numbered(Sent(cls, m), begin, id, number, time)
    ensures Carries(Seen(cls, m, begin).msg.header.items, id, number, time)
  {
    hide Seen, Sendable;
    FieldArrives(cls, m, begin, 49);
    FieldArrives(cls, m, begin, 50);
    FieldArrives(cls, m, begin, 56);
    FieldArrives(cls, m, begin, 34);
    FieldArrives(cls, m, begin, 52);
  }

  /** Any plain field of the header but the framing fields arrives as it was sent. */
  lemma {:induction false} FieldArrives(cls: MessageClass, m: Message, begin: Bytes, tag: int)
    requires Sendable(cls, m, begin)
    requires Slot(m.header.items, tag).Some? && Slot(m.header.items, tag).value.FieldVal?
    ensures Slot(Seen(cls, m, begin).msg.header.items, tag) == Slot(m.header.items, tag)
  {
    hide Typed, CleanItems, SchemasOk, ToBytes, Position, Plain, CheckSlot;
    var payload, h := ToBytes(cls, m), m.header.items;
    var n := NormalItems(cls.header, h);
    SegmentsUnfold(cls, m);
    PositionSameTags(n, h, tag);
    NormalAt(cls.header, h, Position(h, tag));
    FramedPosition(Lead(begin, cls.msgType, payload), n, tag);
  }

  lemma {:induction false} FramedPosition(lead: seq<Tagged<Value>>, items: seq<Tagged<Value>>, tag: int)
    requires HasTag(items, tag)
    ensures Slot(lead + items, tag) == Slot(items, tag)
  {
    if items[|items| - 1].tag != tag {
      assert (lead + items)[..|lead + items| - 1] == lead + items[..|items| - 1];
      FramedPosition(lead, items[..|items| - 1], tag);
    }
  }

  /**
   * From sender to receiver. However the bytes a session wrote are cut up and interleaved on the other side, the
   * receiver accepts the messages of the frames that arrived, and each of them carries the sender's names, the time
   * it was sent at and a number one higher than the message before it.
   */
  lemma {:induction false} WireDelivered(s: Sender, defs: Registry, k: nat, dispatching: bool,
                                         events: seq<Event<Received>>)
    requires s.Valid() && forall x :: x in s.sent ==> x.cls.msgType in defs && defs[x.cls.msgType] == x.cls
    requires k <= |s.wire| && SessionDrain.Received(events) == s.wire[..k] && Lossless(events)
    ensures var seen := SeenOf(s.begin, s.sent);
            && WholeFrames(FramesOf(s.begin, s.sent), k) <= |seen| == |s.times|
            && (forall i :: 0 <= i < |seen| ==> Carries(seen[i].msg.header.items, s.id, s.first + i, s.times[i]))
            && var r := Run(Fix(defs), Initial(dispatching), events);
               var arrived := Handed(Fix(defs), seen[..WholeFrames(FramesOf(s.begin, s.sent), k)]);
               && r.queue.Accepted() <= arrived
               && (!r.reader.loop.Reading? || Fix(defs).peek(r.reader.Unread()).Wait? ==> r.queue.Accepted() == arrived)
  {
    hide FrameOf, ToBytes, Seen, Sendable, Run, Initial, SessionDrain.Received, Handed, Concat, WholeFrames, Carries;
    forall x | x in s.sent ensures Deliverable(defs, s.begin, x) {
      var i :| 0 <= i < |s.sent| && s.sent[i] == x;
      assert Numbered(s.sent[i], s.begin, s.id, s.first + i, s.times[i]);
    }
    Delivery(defs, s.begin, s.sent, k, dispatching, events);
    forall i | 0 <= i < |s.sent|
      ensures Carries(SeenOf(s.begin, s.sent)[i].msg.header.items, s.id, s.first + i, s.times[i])
    {
      assert Numbered(s.sent[i], s.begin, s.id, s.first + i, s.times[i]);
      NumberArrives(s.sent[i].cls, s.sent[i].msg, s.begin, s.id, s.first + i, s.times[i]);
    }
  }
}
