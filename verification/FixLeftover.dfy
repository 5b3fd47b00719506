/** Parsing a FIX message that bytes unknown to its class follow, as `from_bytes` of fix/core.py leaves them over. */
module FixLeftover {
  import opened Bytes
  import opened FixCodec
  import opened FixRoundTrip
  import opened FixMessage
  import opened FixFrame
  import opened FixDelivery

  // ---------------------------------------------------------------- what stays over

  /** No loop over the slots of a segment goes on at `tag`: it is a tag of no group, and foreign or seen before. */
  ghost predicate Ends(entries: seq<Entry>, seg: Segment, tag: int) {
    tag !in InnerTags(entries) && (tag !in Tags(entries) || HasTag(seg.items, tag))
  }

  /** The last segment that is not empty, and the empty ones after it, end at the tag that `rest` starts with. */
  ghost predicate Leftover(schemas: seq<seq<Entry>>, segs: seq<Segment>, rest: Bytes)
    requires |schemas| == |segs|
  {
    && rest != [] && HeadTag(rest).Some?
    && forall j :: 0 <= j < |segs| && AllEmpty(segs[j + 1..]) ==> Ends(schemas[j], segs[j], HeadTag(rest).value)
  }

  /** A tag of none of the segments, nor of a group in them. */
  ghost predicate Foreign(schemas: seq<seq<Entry>>, rest: Bytes) {
    && rest != [] && HeadTag(rest).Some?
    && forall j :: 0 <= j < |schemas| ==> HeadTag(rest).value !in DeepTags(schemas[j])
  }

  lemma {:induction false} ForeignLeftover(schemas: seq<seq<Entry>>, segs: seq<Segment>, rest: Bytes)
    requires |schemas| == |segs| && Foreign(schemas, rest)
    ensures Leftover(schemas, segs, rest)
  {
    hide HeadTag, Tags, InnerTags;
  }

  lemma {:induction false} NormalTags(entries: seq<Entry>, items: seq<Tagged<Value>>, tag: int)
    ensures HasTag(NormalItems(entries, items), tag) == HasTag(items, tag)
  {
    hide NormalItems, Position, Lookup, NormalValue;
    forall i | 0 <= i < |items| ensures items[i].tag == NormalItems(entries, items)[i].tag {
      NormalAt(entries, items, i);
    }
    PositionSameTags(items, NormalItems(entries, items), tag);
  }

  /** A clean segment is read back exactly when what follows ends it. */
  lemma {:induction false} SegmentEnds(entries: seq<Entry>, seg: Segment, rest: Bytes)
    requires SchemaOk(entries) && Typed(entries, seg) && CleanItems(entries, seg.items)
    requires rest != [] && HeadTag(rest).Some? && Ends(entries, seg, HeadTag(rest).value)
    ensures ParseItems(entries, Terminated(entries, seg.items) + rest, []) ==
            Ok(|Terminated(entries, seg.items)|, NormalItems(entries, seg.items))
  {
    hide Terminated, HeadTag, NormalItems, SchemaOk, ParseItems, Tags, InnerTags, HasTag;
    NothingTagged();
    ItemsThrough(entries, seg, seg.items, [], rest);
    Associates(NormalItems(entries, seg.items), [], []);
    NormalTags(entries, seg.items, HeadTag(rest).value);
    ParseItemsEnds(entries, rest, NormalItems(entries, seg.items));
  }

  lemma {:induction false} SegmentsLeave(schemas: seq<seq<Entry>>, segs: seq<Segment>, rest: Bytes)
    requires SchemasOk(schemas) && TypedSegments(schemas, segs) && CleanSegments(schemas, segs)
    requires Leftover(schemas, segs, rest)
    ensures ParseSegments(schemas, TerminatedSegments(schemas, segs) + rest) ==
            Ok(|TerminatedSegments(schemas, segs)|, NormalSegments(schemas, segs))
  {
    hide Terminated, HeadTag, NormalItems, SchemaOk, ParseItems, Typed, CleanItems, PrintSegments, DeepTags, Tags,
         InnerTags, Ends;
    if segs != [] {
      var first := Terminated(schemas[0], segs[0].items);
      var others := TerminatedSegments(schemas[1..], segs[1..]);
      LeftoverLater(schemas, segs, rest);
      Associates(first, others, rest);
      Parts(first, others + rest);
      FirstSegment(schemas, segs);
      PrintedSegments(schemas[1..], segs[1..]);
      if AllEmpty(segs[1..]) {
        assert others + rest == rest;
        SegmentEnds(schemas[0], segs[0], rest);
      } else {
        OthersFollow(schemas, segs, rest);
        SegmentThrough(schemas[0], segs[0], others + rest);
      }
      StopsAtNext(schemas, segs);
      SegmentsLeave(schemas[1..], segs[1..], rest);
    }
  }

  lemma {:induction false} LeftoverLater(schemas: seq<seq<Entry>>, segs: seq<Segment>, rest: Bytes)
    requires |schemas| == |segs| && segs != [] && Leftover(schemas, segs, rest)
    ensures Leftover(schemas[1..], segs[1..], rest)
    ensures AllEmpty(segs[1..]) ==> Ends(schemas[0], segs[0], HeadTag(rest).value)
  {
    hide HeadTag, Ends;
    var tag := HeadTag(rest).value;
    forall j | 0 <= j < |segs[1..]| && AllEmpty(segs[1..][j + 1..]) ensures Ends(schemas[1..][j], segs[1..][j], tag) {
      assert segs[1..][j + 1..] == segs[j + 2..];
      assert Ends(schemas[j + 1], segs[j + 1], tag);
    }
  }

  lemma {:induction false} OthersFollow(schemas: seq<seq<Entry>>, segs: seq<Segment>, rest: Bytes)
    requires SchemasOk(schemas) && TypedSegments(schemas, segs) && segs != [] && !AllEmpty(segs[1..])
    ensures var later := TerminatedSegments(schemas[1..], segs[1..]) + rest;
            later != [] && HeadTag(later).Some? && HeadTag(later).value !in DeepTags(schemas[0])
  {
    hide HeadTag, SchemaOk, Typed, PrintSegments, DeepTags, Tags, TerminatedSegments;
    PrintedSegments(schemas[1..], segs[1..]);
    NextSegmentOutside(schemas, segs, [SOH] + rest);
    Associates(PrintSegments(schemas[1..], segs[1..]), [SOH], rest);
  }

  /** A later segment, or the bytes after all of them, may start with a number that cannot be read. */
  lemma {:induction false} SegmentsUnreadable(schemas: seq<seq<Entry>>, segs: seq<Segment>, rest: Bytes)
    requires SchemasOk(schemas) && TypedSegments(schemas, segs) && CleanSegments(schemas, segs) && segs != []
    requires Unreadable(rest)
    ensures ParseSegments(schemas, TerminatedSegments(schemas, segs) + rest) == Error
  {
    hide Terminated, HeadTag, NormalItems, SchemaOk, ParseItems, Typed, CleanItems, PrintSegments, DeepTags, Tags,
         InnerTags;
    var first := Terminated(schemas[0], segs[0].items);
    var others := TerminatedSegments(schemas[1..], segs[1..]);
    Associates(first, others, rest);
    Parts(first, others + rest);
    FirstSegment(schemas, segs);
    StopsAtNext(schemas, segs);
    PrintedSegments(schemas[1..], segs[1..]);
    if AllEmpty(segs[1..]) {
      assert others + rest == rest;
      SegmentUnreadable(schemas[0], segs[0], rest);
    } else {
      OthersFollow(schemas, segs, rest);
      SegmentThrough(schemas[0], segs[0], others + rest);
      SegmentsUnreadable(schemas[1..], segs[1..], rest);
    }
  }

  lemma {:induction false} SegmentUnreadable(entries: seq<Entry>, seg: Segment, rest: Bytes)
    requires SchemaOk(entries) && Typed(entries, seg) && CleanItems(entries, seg.items) && Unreadable(rest)
    ensures ParseItems(entries, Terminated(entries, seg.items) + rest, []) == Error
  {
    hide Terminated, HeadTag, NormalItems, SchemaOk, ParseItems;
    NothingTagged();
    ItemsThrough(entries, seg, seg.items, [], rest);
    UnreadableFails(entries, rest, [] + NormalItems(entries, seg.items));
  }

  // ---------------------------------------------------------------- messages

  /**
   * A clean message, printed, and then any bytes that start with a tag its last segments do not go on with: the
   * message is read as it would be alone, and as many bytes are used as it has; those left over are no error. With a
   * message whose later segments are empty, this says what a stray tag between two segments does: all of what would
   * have come after it stays over.
   */
  lemma {:induction false} LeftOver(cls: MessageClass, m: Message, rest: Bytes)
    requires ClassOk(cls) && TypedMessage(cls, m) && CleanMessage(cls, m) && !EmptyMessage(m)
    requires Leftover(cls.Schemas(), m.Segments(), rest)
    ensures FromBytes(cls, ToBytes(cls, m) + rest) == Ok(|ToBytes(cls, m)|, NormalMessage(cls, m))
    ensures FromBytes(cls, ToBytes(cls, m) + rest) == FromBytes(cls, ToBytes(cls, m))
  {
    hide PrintSegments, TerminatedSegments, SchemasOk, TypedSegments, CleanSegments, ParseSegments, NormalSegments,
         Leftover;
    ToBytesTerminated(cls, m);
    SegmentsLeave(cls.Schemas(), m.Segments(), rest);
    RoundTrip(cls, m);
  }

  /** In particular after a tag that no segment has, whatever the message. */
  lemma {:induction false} ForeignLeftOver(cls: MessageClass, m: Message, rest: Bytes)
    requires ClassOk(cls) && TypedMessage(cls, m) && CleanMessage(cls, m) && !EmptyMessage(m)
    requires Foreign(cls.Schemas(), rest)
    ensures FromBytes(cls, ToBytes(cls, m) + rest) == Ok(|ToBytes(cls, m)|, NormalMessage(cls, m))
  {
    ForeignLeftover(cls.Schemas(), m.Segments(), rest);
    LeftOver(cls, m, rest);
  }

  /** After bytes that do not even start with a number, parsing fails. */
  lemma {:induction false} UnreadableAfter(cls: MessageClass, m: Message, rest: Bytes)
    requires ClassOk(cls) && TypedMessage(cls, m) && CleanMessage(cls, m) && !EmptyMessage(m)
    requires Unreadable(rest)
    ensures FromBytes(cls, ToBytes(cls, m) + rest) == Error
  {
    hide PrintSegments, TerminatedSegments, SchemasOk, TypedSegments, CleanSegments, ParseSegments, Unreadable;
    ToBytesTerminated(cls, m);
    SegmentsUnreadable(cls.Schemas(), m.Segments(), rest);
  }

  // ---------------------------------------------------------------- a tag of nobody's

  const HEADER: seq<Entry> := [FieldEntry(8, FixString), FieldEntry(35, FixString)]
  const BODY: seq<Entry> := [FieldEntry(58, FixString)]
  const TRAILER: seq<Entry> := [FieldEntry(10, FixString)]
  const NEWS: MessageClass := MessageClass([], [66], HEADER, BODY, TRAILER, [])

  /** 8=X, 35=B and 58=hi, each with its SOH. */
  const KNOWN: Bytes := [56, 61, 88, 1, 51, 53, 61, 66, 1, 53, 56, 61, 104, 105, 1]

  /** 9999=z and 10=000. */
  const STRAY: Bytes := [57, 57, 57, 57, 61, 122, 1, 49, 48, 61, 48, 48, 48, 1]

  const HI: Message :=
    Message(Segment([Text(8, [88]), Text(35, [66])]), Segment([Text(58, [104, 105])]), Segment([]))

  /** A user-defined tag before the trailer: the message comes back without its trailer, which is left over. */
  lemma {:induction false} StrayTag()
    ensures FromBytes(NEWS, KNOWN + STRAY) == Ok(15, HI)
    ensures FromBytes(NEWS, KNOWN) == Ok(15, HI)
  {
    hide SchemaOk, Terminated, Typed, CleanItems, NormalItems, Lookup, Stamp, ToBytes, FromBytes, HeadTag, DeepTags;
    hide ClassOk, TypedMessage, CleanMessage, NormalMessage;
    NewsSchema();
    assert FromBytes(NEWS, KNOWN) == Ok(15, HI) && ToBytes(NEWS, HI) == KNOWN by { Hi(); }
    StrayHead();
    HiParts();
    ForeignLeftOver(NEWS, HI, STRAY);
  }

  lemma {:induction false} HiParts()
    ensures TypedMessage(NEWS, HI) && CleanMessage(NEWS, HI) && !EmptyMessage(HI)
    ensures Terminated(HEADER, HI.header.items) == Stamp(8, [88]) + Stamp(35, [66])
    ensures Terminated(BODY, HI.body.items) == Stamp(58, [104, 105]) && Terminated(TRAILER, HI.trailer.items) == []
    ensures NormalMessage(NEWS, HI) == HI
  {
    hide SchemaOk, Terminated, Typed, CleanItems, NormalItems, Lookup, Stamp, DeepTags;
    hide ClassOk, TypedMessage, CleanMessage, NormalMessage, EmptyMessage;
    var a, b := Text(8, [88]), Text(35, [66]);
    NewsSchema();
    TextSlot(HEADER, 8, [88]);
    TextSlot(HEADER, 35, [66]);
    TextSlot(BODY, 58, [104, 105]);
    SlotsAppend(HEADER, [a], [b]);
    NormalAppend(HEADER, [a], [b]);
    TerminatedAppend(HEADER, [a], [b]);
    assert [a] + [b] == HI.header.items;
    NoTrailer();
    HiClean();
    SegmentsUnfold(NEWS, HI);
  }

  lemma {:induction false} Hi()
    ensures ToBytes(NEWS, HI) == KNOWN && FromBytes(NEWS, KNOWN) == Ok(15, HI)
  {
    hide Terminated, Stamp, ToBytes, FromBytes, ClassOk, TypedMessage, CleanMessage, NormalMessage, EmptyMessage;
    NewsSchema();
    HiParts();
    ToBytesTerminated(NEWS, HI);
    SegmentsUnfold(NEWS, HI);
    KnownBytes();
    var none: Bytes := [];
    assert ToBytes(NEWS, HI) == Stamp(8, [88]) + Stamp(35, [66]) + (Stamp(58, [104, 105]) + none) == KNOWN;
    RoundTrip(NEWS, HI);
  }

  lemma {:induction false} NoTrailer()
    ensures Terminated(TRAILER, []) == [] && NormalItems(TRAILER, []) == []
    ensures Typed(TRAILER, Segment([])) && CleanItems(TRAILER, [])
  {
  }

  lemma {:induction false} HiClean()
    requires Typed(HEADER, HI.header) && CleanItems(HEADER, HI.header.items)
    requires Typed(BODY, HI.body) && CleanItems(BODY, HI.body.items)
    requires Typed(TRAILER, HI.trailer) && CleanItems(TRAILER, HI.trailer.items)
    ensures TypedMessage(NEWS, HI) && CleanMessage(NEWS, HI) && !EmptyMessage(HI)
  {
    hide Typed, CleanItems;
    var g := HI.Segments();
    assert g[0] == HI.header && g[0].items != [];
  }

  lemma {:induction false} KnownBytes()
    ensures Stamp(8, [88]) + Stamp(35, [66]) + Stamp(58, [104, 105]) == KNOWN
  {
    hide ShowInt, ShowNat;
    assert ShowInt(8) == [56] && ShowInt(35) == [51, 53] && ShowInt(58) == [53, 56] by { KnownTags(); }
    var a, b, c := Stamp(8, [88]), Stamp(35, [66]), Stamp(58, [104, 105]);
    assert a == [56, 61, 88, 1] && b == [51, 53, 61, 66, 1] && c == [53, 56, 61, 104, 105, 1];
    hide Stamp;
    assert a + b + c == KNOWN;
  }

  lemma {:induction false} KnownTags()
    ensures ShowInt(8) == [56] && ShowInt(35) == [51, 53] && ShowInt(58) == [53, 56]
  {
    assert ShowNat(3) == [51] && ShowNat(5) == [53];
  }

  lemma {:induction false} NewsSchema()
    ensures ClassOk(NEWS)
    ensures DeepTags(HEADER) == {8, 35} && DeepTags(BODY) == {58} && DeepTags(TRAILER) == {10}
    ensures Lookup(HEADER, 8) == Some(HEADER[0]) && Lookup(HEADER, 35) == Some(HEADER[1])
    ensures Lookup(BODY, 58) == Some(BODY[0])
  {
    hide InnerTags;
    OneField(8);
    OneField(58);
    OneField(10);
    TwoFields();
    var s := NEWS.Schemas();
    hide SchemaOk, Tags, Lookup;
    assert s == [HEADER, BODY, TRAILER];
  }

  lemma {:induction false} TwoFields()
    ensures Tags(HEADER) == {8, 35} && InnerTags(HEADER) == {} && SchemaOk(HEADER)
    ensures Lookup(HEADER, 8) == Some(HEADER[0]) && Lookup(HEADER, 35) == Some(HEADER[1])
  {
    assert HEADER[1..] == [FieldEntry(35, FixString)] && HEADER[..1] == [FieldEntry(8, FixString)];
    OneField(35);
    assert InnerTags(HEADER) == {};
  }

  lemma {:induction false} OneField(tag: int)
    ensures var e := [FieldEntry(tag, FixString)];
            && Tags(e) == {tag} && InnerTags(e) == {} && SchemaOk(e) && Lookup(e, tag) == Some(e[0])
  {
    var e := [FieldEntry(tag, FixString)];
    assert e[1..] == [];
  }

  lemma {:induction false} StrayHead()
    ensures HeadTag(STRAY) == Some(9999)
  {
    var b: Bytes := [57, 57, 57, 57];
    FindFrom(STRAY, EQUALS, 0, 4);
    assert STRAY[..4] == b;
    assert b[..3] == [57, 57, 57] && b[..3][..2] == [57, 57] && b[..3][..2][..1] == [57];
    assert [57][..0] == [];
    assert DigitsValue([57]) == 9 && DigitsValue([57, 57]) == 99 && DigitsValue([57, 57, 57]) == 999;
    assert DigitsValue(b) == 9999;
  }
}
