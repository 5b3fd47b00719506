/** A BodyLength that makes the whole message length negative, as the reader of fix/_reader.py takes it. */
module FixNegative {
  import opened Bytes
  import opened Framing
  import StreamReader
  import opened FixCodec
  import opened FixRoundTrip
  import opened FixMessage
  import opened FixFrame
  import opened FixDelivery

  /** 8=X, 9=-30, 35=0, each with its SOH. */
  const HEADER_BYTES: Bytes := [56, 61, 88, 1, 57, 61, 45, 51, 48, 1, 51, 53, 61, 48, 1]

  const HEADER_ENTRIES: seq<Entry> := [FieldEntry(8, FixString), FieldEntry(9, FixInt), FieldEntry(35, FixString)]

  const HEARTBEAT: MessageClass := MessageClass([], HEARTBEAT_TYPE, HEADER_ENTRIES, [], [], [])

  const HEADER_ITEMS: seq<Tagged<Value>> := [Text(8, [88]), Tagged(9, FieldVal(IntV(-30))), Text(35, HEARTBEAT_TYPE)]

  const SENT: Message := Message(Segment(HEADER_ITEMS), Segment([]), Segment([]))

  lemma {:induction false} HeaderAnnounced()
    ensures Announce(HEADER_BYTES) == Length(-13)
  {
    hide FindMark, Find;
    var b := HEADER_BYTES;
    FirstMark(b, 5, 10);
    FindFrom(b, EQUALS, 2, 5);
    FindFrom(b, SOH, 5, 9);
    assert b[6..9] == [b[6], b[7], b[8]] == [45, 51, 48];
    assert Slice(b, 6, 9) == b[6..9];
    MinusThirty();
  }

  lemma {:induction false} MinusThirty()
    ensures ParseInt([45, 51, 48]) == Some(-30)
  {
    var d: Bytes, e: Bytes := [51, 48], [51];
    assert [45, 51, 48][1..] == d;
    assert d[..1] == e && e[..0] == [];
    assert DigitsValue([]) == 0 && DigitsValue(e) == 3 && DigitsValue(d) == 30;
  }

  lemma {:induction false} HeaderLookup()
    ensures Lookup(HEADER_ENTRIES, 8) == Some(HEADER_ENTRIES[0]) && Lookup(HEADER_ENTRIES, 9) == Some(HEADER_ENTRIES[1])
    ensures Lookup(HEADER_ENTRIES, 35) == Some(HEADER_ENTRIES[2])
  {
    var e := HEADER_ENTRIES;
    assert e[..2] == [e[0], e[1]] && e[..2][..1] == [e[0]];
  }

  lemma {:induction false} HeaderTags()
    ensures InnerTags(HEADER_ENTRIES) == {} && InnerTags([]) == {} && Tags([]) == {}
  {
    var e, none: seq<Entry> := HEADER_ENTRIES, [];
    assert e[1..] == [e[1], e[2]] && e[1..][1..] == [e[2]] && e[1..][1..][1..] == none;
    assert InnerTags(none) == {} && InnerTags(e[1..][1..]) == {} && InnerTags(e[1..]) == {};
  }

  lemma {:induction false} HeaderSchema()
    ensures SchemaOk(HEADER_ENTRIES) && SchemaOk([]) && ClassOk(HEARTBEAT)
  {
    hide InnerTags;
    HeaderTags();
    var s := HEARTBEAT.Schemas();
    assert SchemaOk(HEADER_ENTRIES) && SchemaOk([]);
    hide SchemaOk;
    assert s == [HEADER_ENTRIES, [], []];
    assert forall i :: 0 < i < 3 ==> Tags(s[i]) == {};
  }

  /** The bytes are those of a printed heartbeat. */
  lemma {:induction false} HeaderPrinted()
    ensures FromBytes(HEARTBEAT, HEADER_BYTES) == Ok(15, SENT)
  {
    hide SchemaOk, Terminated, Typed, CleanItems, NormalItems, Lookup, Stamp, PrintField, ToBytes, FromBytes;
    var e := HEADER_ENTRIES;
    var a, b, c := [HEADER_ITEMS[0]], [HEADER_ITEMS[1]], [HEADER_ITEMS[2]];
    HeaderSchema();
    HeaderLookup();
    TextSlot(e, 8, [88]);
    LengthSlot(e, -30);
    TextSlot(e, 35, HEARTBEAT_TYPE);
    SlotsAppend(e, a, b);
    SlotsAppend(e, a + b, c);
    NormalAppend(e, a, b);
    NormalAppend(e, a + b, c);
    TerminatedAppend(e, a, b);
    TerminatedAppend(e, a + b, c);
    assert a + b + c == HEADER_ITEMS;
    PiecesPrinted();
    NoSlots();
    HeaderSegments();
    ToBytesTerminated(HEARTBEAT, SENT);
    SegmentsUnfold(HEARTBEAT, SENT);
    RoundTrip(HEARTBEAT, SENT);
    var none: Bytes := [];
    assert Terminated(e, HEADER_ITEMS) == HEADER_BYTES;
    assert ToBytes(HEARTBEAT, SENT) == HEADER_BYTES + (none + none) == HEADER_BYTES;
    assert NormalMessage(HEARTBEAT, SENT) == SENT;
  }

  lemma {:induction false} NoSlots()
    ensures Terminated([], []) == [] && NormalItems([], []) == []
  {
  }

  lemma {:induction false} HeaderSegments()
    requires Typed(HEADER_ENTRIES, Segment(HEADER_ITEMS)) && CleanItems(HEADER_ENTRIES, HEADER_ITEMS)
    ensures TypedMessage(HEARTBEAT, SENT) && CleanMessage(HEARTBEAT, SENT) && !EmptyMessage(SENT)
  {
    hide SchemaOk, Lookup;
    var s, g := HEARTBEAT.Schemas(), SENT.Segments();
    assert g[0].items == HEADER_ITEMS;
    assert forall i :: 0 < i < 3 ==> s[i] == [] && g[i].items == [];
  }

  lemma {:induction false} PiecesPrinted()
    ensures Stamp(8, [88]) + (PrintField(9, IntV(-30)) + [SOH]) + Stamp(35, HEARTBEAT_TYPE) == HEADER_BYTES
  {
    hide ShowInt, ShowNat;
    SmallNumbers();
    assert ShowInt(-30) == [45, 51, 48] by { ShowThirty(); }
  }

  lemma {:induction false} ShowThirty()
    ensures ShowInt(-30) == [45, 51, 48]
  {
    assert ShowNat(3) == [51] && ShowNat(30) == [51, 48];
  }

  /**
   * The length is -13. With nothing behind them the bytes are cut down to two, whose type is unknown: the reader
   * raises. With any thirteen bytes more they are a whole heartbeat: the reader yields it, its read position
   * becomes -13, and what it takes for unread next are the last thirteen bytes.
   */
  lemma {:induction false} NegativeLength(defs: Registry, more: Bytes)
    requires defs == map[HEARTBEAT_TYPE := HEARTBEAT] && |more| == 13
    ensures Announce(HEADER_BYTES) == Length(-13)
    ensures Peek(defs, HEADER_BYTES).Broken?
    ensures Peek(defs, HEADER_BYTES + more) == Frame(-13, Received(HEARTBEAT, SENT))
    ensures StreamReader.Deserialized(Fix(defs), HEADER_BYTES + more, 0) ==
            (HEADER_BYTES + more, -13, Frame(-13, Received(HEARTBEAT, SENT)))
    ensures From(HEADER_BYTES + more, -13) == more
    ensures !Incremental(Fix(defs))
  {
    hide Announce, FromBytes, FindMark, Find;
    var b := HEADER_BYTES;
    HeaderAnnounced();
    AnnounceExtended(b, more);
    var short: Bytes := [56, 61];
    assert Upto(b, -13) == short;
    ShortType();
    assert Upto(b + more, -13) == b;
    FirstMark(b, 5, 10);
    FindFrom(b, SOH, 12, 14);
    assert TypeText(b) == HEARTBEAT_TYPE;
    HeaderPrinted();
    assert From(b + more, 0) == b + more;
    var p := Fix(defs);
    assert p.peek(b + more) != p.peek(b) && !p.peek(b).Wait?;
  }

  lemma {:induction false} ShortType()
    ensures TypeText([56, 61]) == []
  {
    var b: Bytes := [56, 61];
    assert FindMark(b, TYPE_MARK, 0) == -1;
    assert Find(b, SOH, 1) == -1;
  }
}
