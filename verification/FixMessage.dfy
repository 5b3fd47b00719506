/** Whole FIX messages: header, body and trailer printed and parsed one after the other. */
module FixMessage {
  import opened Bytes
  import opened FixCodec
  import opened FixRoundTrip
  import opened FixConverse

  /** A concrete message class: name, MsgType, the entries of its three segments, the required tags of its body. */
  datatype MessageClass = MessageClass(name: Bytes, msgType: Bytes, header: seq<Entry>, body: seq<Entry>,
                                       trailer: seq<Entry>, required: seq<int>) {
    function Schemas(): seq<seq<Entry>> { [header, body, trailer] }
  }

  datatype Message = Message(header: Segment, body: Segment, trailer: Segment) {
    function Segments(): seq<Segment> { [header, body, trailer] }
  }

  // ---------------------------------------------------------------- printing and parsing

  /** The non-empty segments joined by SOH. */
  function PrintSegments(schemas: seq<seq<Entry>>, segs: seq<Segment>): Bytes
    requires |schemas| == |segs|
  {
    if segs == [] then []
    else
      var first := PrintSegment(schemas[0], segs[0]);
      var others := PrintSegments(schemas[1..], segs[1..]);
      if first == [] then others else if others == [] then first else first + [SOH] + others
  }

  /** `Message.to_bytes`: a closing SOH is added unless there is one already. */
  function ToBytes(cls: MessageClass, m: Message): Bytes {
    var b := PrintSegments(cls.Schemas(), m.Segments());
    if b != [] && b[|b| - 1] == SOH then b else b + [SOH]
  }

  function ParseSegments(schemas: seq<seq<Entry>>, b: Bytes): (r: Parsed<seq<Segment>>)
    ensures r.Ok? ==> r.used <= |b| && |r.value| == |schemas|
  {
    if schemas == [] then Ok(0, [])
    else
      match ParseItems(schemas[0], b, [])
      case Error => Error
      case Ok(n, items) =>
        match ParseSegments(schemas[1..], b[n..])
        case Error => Error
        case Ok(m, segs) => Ok(n + m, [Segment(items)] + segs)
  }

  /** `from_bytes` of a concrete message class. */
  function FromBytes(cls: MessageClass, b: Bytes): (r: Parsed<Message>)
    ensures r.Ok? ==> r.used <= |b|
  {
    match ParseSegments(cls.Schemas(), b)
    case Error => Error
    case Ok(n, segs) => Ok(n, Message(segs[0], segs[1], segs[2]))
  }

  // ---------------------------------------------------------------- the domain

  /** Each segment's schema is in order, and no tag of a later segment occurs in an earlier one. */
  ghost predicate SchemasOk(schemas: seq<seq<Entry>>) {
    && (forall i :: 0 <= i < |schemas| ==> SchemaOk(schemas[i]))
    && (forall i, j :: 0 <= i < j < |schemas| ==> DeepTags(schemas[i]) !! Tags(schemas[j]))
  }

  ghost predicate TypedSegments(schemas: seq<seq<Entry>>, segs: seq<Segment>) {
    |schemas| == |segs| && forall i :: 0 <= i < |segs| ==> Typed(schemas[i], segs[i])
  }

  ghost predicate CleanSegments(schemas: seq<seq<Entry>>, segs: seq<Segment>)
    requires |schemas| == |segs|
  {
    forall i :: 0 <= i < |segs| ==> CleanItems(schemas[i], segs[i].items)
  }

  predicate AllEmpty(segs: seq<Segment>) {
    forall i :: 0 <= i < |segs| ==> segs[i].items == []
  }

  function NormalSegments(schemas: seq<seq<Entry>>, segs: seq<Segment>): (r: seq<Segment>)
    requires |schemas| == |segs|
    ensures |r| == |segs|
  {
    if segs == [] then []
    else [Segment(NormalItems(schemas[0], segs[0].items))] + NormalSegments(schemas[1..], segs[1..])
  }

  function NormalMessage(cls: MessageClass, m: Message): Message {
    var segs := NormalSegments(cls.Schemas(), m.Segments());
    Message(segs[0], segs[1], segs[2])
  }

  // ---------------------------------------------------------------- forward

  function TerminatedSegments(schemas: seq<seq<Entry>>, segs: seq<Segment>): Bytes
    requires |schemas| == |segs|
  {
    if segs == [] then []
    else Terminated(schemas[0], segs[0].items) + TerminatedSegments(schemas[1..], segs[1..])
  }

  lemma {:induction false} PrintedSegments(schemas: seq<seq<Entry>>, segs: seq<Segment>)
    requires |schemas| == |segs|
    ensures PrintSegments(schemas, segs) == [] <==> AllEmpty(segs)
    ensures !AllEmpty(segs) ==> PrintSegments(schemas, segs) + [SOH] == TerminatedSegments(schemas, segs)
    ensures AllEmpty(segs) ==> TerminatedSegments(schemas, segs) == []
  {
    hide PrintValue, Lookup, Pieces, Join, Terminated, HeadTag;
    if segs != [] {
      var its := segs[0].items;
      PrintedSegments(schemas[1..], segs[1..]);
      assert forall i :: 0 < i < |segs| ==> segs[i] == segs[1..][i - 1];
      if its == [] {
        JoinNil(schemas[0]);
        TerminatedNil(schemas[0]);
      } else {
        TerminatedJoin(schemas[0], its);
        JoinHead(schemas[0], its, []);
        assert Join(Pieces(schemas[0], its)) + [] == Join(Pieces(schemas[0], its));
        Regrouped(Join(Pieces(schemas[0], its)), PrintSegments(schemas[1..], segs[1..]));
      }
    }
  }

  lemma {:induction false} Regrouped(a: Bytes, b: Bytes)
    ensures a + [SOH] + b + [SOH] == (a + [SOH]) + (b + [SOH])
  {
  }

  /** The first tag still to come belongs to a later segment. */
  lemma {:induction false} NextSegmentTag(schemas: seq<seq<Entry>>, segs: seq<Segment>, rest: Bytes)
    requires TypedSegments(schemas, segs) && !AllEmpty(segs)
    ensures PrintSegments(schemas, segs) + rest != []
    ensures HeadTag(PrintSegments(schemas, segs) + rest).Some?
    ensures exists j :: 0 <= j < |schemas| && HeadTag(PrintSegments(schemas, segs) + rest).value in Tags(schemas[j])
  {
    hide PrintValue, Pieces, Join, HeadTag, TypedValue;
    var its := segs[0].items;
    var others := PrintSegments(schemas[1..], segs[1..]);
    PrintedSegments(schemas, segs);
    if its == [] {
      JoinNil(schemas[0]);
      assert forall i :: 0 < i < |segs| ==> segs[i] == segs[1..][i - 1];
      NextSegmentTag(schemas[1..], segs[1..], rest);
      var j :| 0 <= j < |schemas[1..]| && HeadTag(others + rest).value in Tags(schemas[1..][j]);
      assert schemas[1..][j] == schemas[j + 1];
    } else {
      assert its[0] in its && Lookup(schemas[0], its[0].tag).value in schemas[0];
      assert its[0].tag in Tags(schemas[0]);
      JoinHead(schemas[0], its, []);
      assert Join(Pieces(schemas[0], its)) + [] == Join(Pieces(schemas[0], its));
      var more := (if others == [] then [] else [SOH] + others) + rest;
      JoinHead(schemas[0], its, more);
      assert PrintSegments(schemas, segs) + rest == Join(Pieces(schemas[0], its)) + more;
    }
  }

  /** Reading a clean segment leaves exactly what belongs to the segments after it. */
  lemma {:induction false} SegmentThrough(entries: seq<Entry>, seg: Segment, rest: Bytes)
    requires SchemaOk(entries) && Typed(entries, seg) && CleanItems(entries, seg.items)
    requires rest == [] || (HeadTag(rest).Some? && HeadTag(rest).value !in DeepTags(entries))
    ensures ParseItems(entries, Terminated(entries, seg.items) + rest, []) ==
            Ok(|Terminated(entries, seg.items)|, NormalItems(entries, seg.items))
  {
    hide Terminated, HeadTag, NormalItems, SchemaOk, ParseItems;
    ItemsThrough(entries, seg, seg.items, [], rest);
    assert [] + NormalItems(entries, seg.items) == NormalItems(entries, seg.items);
    ParseItemsEnds(entries, rest, NormalItems(entries, seg.items));
  }

  lemma {:induction false} SegmentsThrough(schemas: seq<seq<Entry>>, segs: seq<Segment>)
    requires SchemasOk(schemas) && TypedSegments(schemas, segs) && CleanSegments(schemas, segs)
    ensures ParseSegments(schemas, TerminatedSegments(schemas, segs)) ==
            Ok(|TerminatedSegments(schemas, segs)|, NormalSegments(schemas, segs))
  {
    hide Terminated, HeadTag, NormalItems, SchemaOk, ParseItems, Typed, CleanItems, PrintSegments, DeepTags, Tags;
    if segs != [] {
      var first := Terminated(schemas[0], segs[0].items);
      var rest := TerminatedSegments(schemas[1..], segs[1..]);
      StopsAtNext(schemas, segs);
      SegmentThrough(schemas[0], segs[0], rest);
      assert (first + rest)[|first|..] == rest;
      SegmentsThrough(schemas[1..], segs[1..]);
    }
  }

  lemma {:induction false} StopsAtNext(schemas: seq<seq<Entry>>, segs: seq<Segment>)
    requires SchemasOk(schemas) && TypedSegments(schemas, segs) && segs != []
    ensures SchemasOk(schemas[1..]) && TypedSegments(schemas[1..], segs[1..])
    ensures var rest := TerminatedSegments(schemas[1..], segs[1..]);
            rest == [] || (HeadTag(rest).Some? && HeadTag(rest).value !in DeepTags(schemas[0]))
  {
    hide HeadTag, SchemaOk, Typed, PrintSegments, DeepTags, Tags, TerminatedSegments;
    PrintedSegments(schemas[1..], segs[1..]);
    assert forall i :: 0 < i < |schemas| ==> schemas[i] == schemas[1..][i - 1];
    if !AllEmpty(segs[1..]) { NextSegmentTag(schemas[1..], segs[1..], [SOH]); }
  }

  // ---------------------------------------------------------------- converse

  lemma {:induction false} SegmentsConverse(schemas: seq<seq<Entry>>, segs: seq<Segment>, rest: Bytes)
    requires SchemasOk(schemas) && TypedSegments(schemas, segs) && !CleanSegments(schemas, segs)
    requires Joined(rest)
    ensures Missed(ParseSegments(schemas, PrintSegments(schemas, segs) + rest), NormalSegments(schemas, segs))
  {
    hide Terminated, HeadTag, NormalItems, SchemaOk, ParseItems, Typed, CleanItems, DeepTags, Tags, Pieces, Join,
         ParseSegments;
    var entries, its := schemas[0], segs[0].items;
    var n := NormalItems(entries, its);
    var others := PrintSegments(schemas[1..], segs[1..]);
    var b := PrintSegments(schemas, segs) + rest;
    StopsAtNext(schemas, segs);
    if !CleanItems(entries, its) {
      FirstSegmentConverse(schemas, segs, rest);
      FirstSegmentMissed(schemas, b, n, NormalSegments(schemas[1..], segs[1..]));
    } else {
      assert !CleanSegments(schemas[1..], segs[1..]) by {
        assert forall i :: 0 < i < |segs| ==> segs[i] == segs[1..][i - 1] && schemas[i] == schemas[1..][i - 1];
      }
      SomeNonEmpty(schemas[1..], segs[1..]);
      PrintedSegments(schemas[1..], segs[1..]);
      NextSegmentOutside(schemas, segs, rest);
      SegmentThrough(entries, segs[0], others + rest);
      SegmentsConverse(schemas[1..], segs[1..], rest);
      SegmentPrinted(entries, its);
      Associates(Terminated(entries, its), others, rest);
      Associates(others + rest, [], []);
      Parts(Terminated(entries, its), others + rest);
      LaterSegmentMissed(schemas, b, |Terminated(entries, its)|, n, NormalSegments(schemas[1..], segs[1..]));
    }
  }

  lemma {:induction false} FirstSegmentConverse(schemas: seq<seq<Entry>>, segs: seq<Segment>, rest: Bytes)
    requires SchemasOk(schemas) && TypedSegments(schemas, segs) && segs != [] && !CleanItems(schemas[0], segs[0].items)
    requires Joined(rest)
    ensures Missed(ParseItems(schemas[0], PrintSegments(schemas, segs) + rest, []),
                   NormalItems(schemas[0], segs[0].items))
  {
    hide Terminated, HeadTag, NormalItems, SchemaOk, ParseItems, Typed, CleanItems, DeepTags, Tags, Pieces, Join;
    var entries, its := schemas[0], segs[0].items;
    var others := PrintSegments(schemas[1..], segs[1..]);
    CleanNil(entries);
    SegmentPrinted(entries, its);
    var after := if others == [] then rest else [SOH] + others + rest;
    assert PrintSegments(schemas, segs) + rest == Join(Pieces(entries, its)) + after;
    ItemsConverse(entries, segs[0], its, [], after);
    Associates(NormalItems(entries, its), [], []);
  }

  lemma {:induction false} SegmentPrinted(entries: seq<Entry>, its: seq<Tagged<Value>>)
    ensures its == [] ==> Join(Pieces(entries, its)) == [] && Terminated(entries, its) == []
    ensures its != [] ==>
              Join(Pieces(entries, its)) != [] && Join(Pieces(entries, its)) + [SOH] == Terminated(entries, its)
  {
    hide PrintValue, HeadTag, Lookup;
    if its != [] {
      TerminatedJoin(entries, its);
      JoinHead(entries, its, []);
      assert Join(Pieces(entries, its)) + [] == Join(Pieces(entries, its));
    }
  }

  lemma {:induction false} SomeNonEmpty(schemas: seq<seq<Entry>>, segs: seq<Segment>)
    requires |schemas| == |segs| && !CleanSegments(schemas, segs)
    ensures !AllEmpty(segs)
  {
    var i :| 0 <= i < |segs| && !CleanItems(schemas[i], segs[i].items);
    CleanNil(schemas[i]);
  }

  lemma {:induction false} NextSegmentOutside(schemas: seq<seq<Entry>>, segs: seq<Segment>, rest: Bytes)
    requires SchemasOk(schemas) && TypedSegments(schemas, segs) && segs != [] && !AllEmpty(segs[1..])
    ensures PrintSegments(schemas[1..], segs[1..]) + rest != []
    ensures HeadTag(PrintSegments(schemas[1..], segs[1..]) + rest).Some?
    ensures HeadTag(PrintSegments(schemas[1..], segs[1..]) + rest).value !in DeepTags(schemas[0])
  {
    hide HeadTag, SchemaOk, Typed, PrintSegments, DeepTags, Tags;
    assert forall i :: 0 < i < |schemas| ==> schemas[i] == schemas[1..][i - 1];
    NextSegmentTag(schemas[1..], segs[1..], rest);
  }

  lemma {:induction false} FirstSegmentMissed(schemas: seq<seq<Entry>>, b: Bytes, first: seq<Tagged<Value>>,
                                              others: seq<Segment>)
    requires schemas != [] && Missed(ParseItems(schemas[0], b, []), first)
    ensures Missed(ParseSegments(schemas, b), [Segment(first)] + others)
  {
    hide ParseItems;
    var p := ParseSegments(schemas, b);
    if p.Ok? {
      assert p.value[0] == Segment(ParseItems(schemas[0], b, []).value);
      assert ([Segment(first)] + others)[0] == Segment(first);
    }
  }

  lemma {:induction false} LaterSegmentMissed(schemas: seq<seq<Entry>>, b: Bytes, n: nat, first: seq<Tagged<Value>>,
                                              others: seq<Segment>)
    requires schemas != [] && n <= |b| && ParseItems(schemas[0], b, []) == Ok(n, first)
    requires Missed(ParseSegments(schemas[1..], b[n..]), others)
    ensures Missed(ParseSegments(schemas, b), [Segment(first)] + others)
  {
    hide ParseItems;
    var p := ParseSegments(schemas, b);
    if p.Ok? {
      assert p.value[1..] == ParseSegments(schemas[1..], b[n..]).value;
      assert ([Segment(first)] + others)[1..] == others;
    }
  }

  // ---------------------------------------------------------------- the closing SOH

  predicate EndsOpen(b: Bytes) {
    b != [] && b[|b| - 1] != SOH
  }

  lemma {:induction false} ValueEndsOpen(e: Entry, v: Value)
    requires TypedValue(e, v) && CleanValue(Some(e), v) && (e.GroupEntry? ==> SchemaOk(e.group.entries))
    ensures EndsOpen(PrintValue(e.tag, Some(e), v))
    decreases v, 0
  {
    hide SchemaOk, DeepTags, Typed, CleanGroups, InnerTags, PrintGroups;
    match v
    case FieldVal(x) =>
    case Groups(gs) =>
      PrintGroupsNil(e.group.entries);
      if gs != [] { GroupsEndOpen(e.group.entries, gs); }
  }

  lemma {:induction false} PrintGroupsNil(entries: seq<Entry>)
    ensures PrintGroups(entries, []) == []
  {
  }

  lemma {:induction false} GroupsEndOpen(entries: seq<Entry>, gs: seq<Segment>)
    requires SchemaOk(entries) && gs != []
    requires (forall g :: g in gs ==> Typed(entries, g)) && CleanGroups(entries, gs)
    ensures EndsOpen(PrintGroups(entries, gs))
    decreases gs, 0
  {
    hide SchemaOk, DeepTags, Typed, InnerTags, Join, Pieces, CleanItems, Ordered, PrintGroups, NormalItems,
         NormalGroups, Tags, HasTag;
    var its := Ordered(entries, gs[0].items);
    GroupInOrder(entries, gs[0]);
    GroupsLead(entries, gs);
    GroupsLayout(entries, gs, []);
    if gs[1..] == [] {
      PrintGroupsNil(entries);
      ItemsEndOpen(entries, gs[0], its);
    } else {
      GroupsEndOpen(entries, gs[1..]);
    }
    EndsLast(PrintGroups(entries, gs), Join(Pieces(entries, its)), PrintGroups(entries, gs[1..]));
  }

  lemma {:induction false} EndsLast(b: Bytes, first: Bytes, later: Bytes)
    requires b != [] && b[1..] + [] == first + (later + [])
    requires EndsOpen(if later == [] then first else later)
    ensures EndsOpen(b)
  {
    assert b[1..] + [] == b[1..] && later + [] == later;
    assert b[|b| - 1] == b[1..][|b| - 2];
  }

  lemma {:induction false} ItemsEndOpen(entries: seq<Entry>, src: Segment, its: seq<Tagged<Value>>)
    requires SchemaOk(entries) && its != [] && forall x :: x in its ==> x in src.items
    requires Typed(entries, Segment(its)) && CleanItems(entries, its)
    ensures EndsOpen(Join(Pieces(entries, its)))
    decreases src, |its|
  {
    hide SchemaOk, DeepTags, Typed, InnerTags, Join, Pieces, CleanItems, PrintValue, TypedValue, CleanValue, Lookup;
    FirstSlot(entries, its, [], Tagged(its[0].tag, its[0].value));
    var e := Lookup(entries, its[0].tag).value;
    if e.GroupEntry? { GroupBelow(entries, e); }
    assert its[0] in src.items && its[0].value < its[0];
    JoinCons(entries, its);
    if |its| == 1 {
      ValueEndsOpen(e, its[0].value);
    } else {
      ItemsEndOpen(entries, src, its[1..]);
    }
  }

  lemma {:induction false} FirstSegment(schemas: seq<seq<Entry>>, segs: seq<Segment>)
    requires SchemasOk(schemas) && TypedSegments(schemas, segs) && CleanSegments(schemas, segs) && segs != []
    ensures |schemas| == |segs|
    ensures SchemaOk(schemas[0]) && Typed(schemas[0], segs[0]) && CleanItems(schemas[0], segs[0].items)
    ensures CleanSegments(schemas[1..], segs[1..])
    ensures AllEmpty(segs) <==> segs[0].items == [] && AllEmpty(segs[1..])
  {
    hide SchemaOk, Typed, CleanItems, DeepTags, Tags;
    assert forall i :: 0 < i < |segs| ==> segs[i] == segs[1..][i - 1] && schemas[i] == schemas[1..][i - 1];
  }

  lemma {:induction false} SegmentsEndOpen(schemas: seq<seq<Entry>>, segs: seq<Segment>)
    requires SchemasOk(schemas) && TypedSegments(schemas, segs) && CleanSegments(schemas, segs) && !AllEmpty(segs)
    ensures EndsOpen(PrintSegments(schemas, segs))
  {
    hide SchemaOk, DeepTags, Typed, InnerTags, Join, Pieces, CleanItems, Tags;
    hide SchemasOk, TypedSegments, Terminated, TerminatedSegments;
    StopsAtNext(schemas, segs);
    FirstSegment(schemas, segs);
    PrintedSegments(schemas[1..], segs[1..]);
    SegmentPrinted(schemas[0], segs[0].items);
    if AllEmpty(segs[1..]) {
      ItemsEndOpen(schemas[0], segs[0], segs[0].items);
    } else {
      SegmentsEndOpen(schemas[1..], segs[1..]);
    }
  }

  // ---------------------------------------------------------------- the round trip

  ghost predicate ClassOk(cls: MessageClass) {
    SchemasOk(cls.Schemas())
  }

  ghost predicate TypedMessage(cls: MessageClass, m: Message) {
    TypedSegments(cls.Schemas(), m.Segments())
  }

  ghost predicate CleanMessage(cls: MessageClass, m: Message) {
    CleanSegments(cls.Schemas(), m.Segments())
  }

  predicate EmptyMessage(m: Message) {
    AllEmpty(m.Segments())
  }

  lemma {:induction false} ToBytesTerminated(cls: MessageClass, m: Message)
    requires ClassOk(cls) && TypedMessage(cls, m) && CleanMessage(cls, m) && !EmptyMessage(m)
    ensures ToBytes(cls, m) == TerminatedSegments(cls.Schemas(), m.Segments())
  {
    hide PrintSegments, TerminatedSegments, SchemasOk, TypedSegments, CleanSegments;
    PrintedSegments(cls.Schemas(), m.Segments());
    SegmentsEndOpen(cls.Schemas(), m.Segments());
  }

  /**
   * A message comes back, with every byte used and its groups in definition order, exactly when it is not
   * empty, its strings hold no SOH, no repeating group is empty and every further group of a container
   * starts with a tag of the group before it.
   */
  lemma {:induction false} RoundTrip(cls: MessageClass, m: Message)
    requires ClassOk(cls) && TypedMessage(cls, m)
    ensures FromBytes(cls, ToBytes(cls, m)) == Ok(|ToBytes(cls, m)|, NormalMessage(cls, m))
            <==> !EmptyMessage(m) && CleanMessage(cls, m)
  {
    hide PrintSegments, TerminatedSegments, SchemasOk, TypedSegments, CleanSegments, ParseSegments, NormalSegments;
    var schemas, segs := cls.Schemas(), m.Segments();
    var normal := NormalSegments(schemas, segs);
    assert normal == [normal[0], normal[1], normal[2]];
    PrintedSegments(schemas, segs);
    if EmptyMessage(m) {
      assert ToBytes(cls, m) == [SOH];
      SohUnreadable([SOH]);
      UnreadableFails(cls.header, [SOH], []);
      ParseSegmentsFails(schemas, [SOH]);
    } else if CleanMessage(cls, m) {
      ToBytesTerminated(cls, m);
      SegmentsThrough(schemas, segs);
    } else {
      var printed := PrintSegments(schemas, segs);
      var rest := if printed[|printed| - 1] == SOH then [] else [SOH];
      assert ToBytes(cls, m) == printed + rest;
      SegmentsConverse(schemas, segs, rest);
      var p := ParseSegments(schemas, printed + rest);
      assert p.Ok? ==> p.value == [p.value[0], p.value[1], p.value[2]];
    }
  }

  lemma {:induction false} ParseSegmentsFails(schemas: seq<seq<Entry>>, b: Bytes)
    requires schemas != [] && ParseItems(schemas[0], b, []) == Error
    ensures ParseSegments(schemas, b) == Error
  {
  }
}
