/** The normal form changes only the order of slots inside groups. */
module FixNormal {
  import opened Bytes
  import opened FixCodec
  import opened FixRoundTrip
  import opened FixConverse
  import opened FixMessage

  /** What `as_collection` returns: nested dictionaries, for which order does not matter. */
  datatype Collection = Leaf(v: FieldValue) | Dicts(dicts: seq<map<int, Collection>>)

  function ValueCollection(v: Value): Collection
    decreases v, 0
  {
    match v
    case FieldVal(x) => Leaf(x)
    case Groups(gs) => Dicts(GroupCollections(gs))
  }

  function GroupCollections(gs: seq<Segment>): (r: seq<map<int, Collection>>)
    ensures |r| == |gs|
    decreases gs, 0
  {
    if gs == [] then [] else [ItemsCollection(gs[0].items)] + GroupCollections(gs[1..])
  }

  function ItemsCollection(items: seq<Tagged<Value>>): map<int, Collection>
    decreases items, 1
  {
    if items == [] then map[]
    else
      var x := items[|items| - 1];
      assert x.value < x;
      ItemsCollection(items[..|items| - 1])[x.tag := ValueCollection(x.value)]
  }

  function MessageCollection(m: Message): seq<map<int, Collection>> {
    GroupCollections(m.Segments())
  }

  // ---------------------------------------------------------------- dictionaries with the same slots

  lemma {:induction false} CollectionAt(items: seq<Tagged<Value>>, tag: int)
    ensures tag in ItemsCollection(items) <==> Slot(items, tag).Some?
    ensures Slot(items, tag).Some? ==> ItemsCollection(items)[tag] == ValueCollection(Slot(items, tag).value)
  {
    hide ValueCollection;
    if items != [] { CollectionAt(items[..|items| - 1], tag); }
  }

  lemma {:induction false} SlotOf<T>(items: seq<Tagged<T>>, x: Tagged<T>)
    requires DistinctTags(items) && x in items
    ensures Slot(items, x.tag) == Some(x.value)
  {
    var i :| 0 <= i < |items| && items[i] == x;
    PositionUnique(items, i);
  }

  /** Putting slots in definition order keeps what is stored under every tag of the schema. */
  lemma {:induction false} OrderedSlot<T>(entries: seq<Entry>, items: seq<Tagged<T>>, tag: int)
    requires forall i, j :: 0 <= i < j < |entries| ==> entries[i].tag != entries[j].tag
    requires DistinctTags(items) && forall x :: x in items ==> x.tag in Tags(entries)
    ensures Slot(Ordered(entries, items), tag) == Slot(items, tag)
  {
    var r := Ordered(entries, items);
    OrderedTags(entries, items);
    if HasTag(items, tag) {
      assert items[Position(items, tag)] in items;
      OrderedAll(entries, items, Position(items, tag));
      SlotOf(r, items[Position(items, tag)]);
    }
    assert HasTag(r, tag) ==> r[Position(r, tag)] in items;
  }

  lemma {:induction false} OrderedAgree<T>(order: seq<Entry>, a: seq<Tagged<T>>, b: seq<Tagged<T>>)
    requires forall tag :: Slot(a, tag) == Slot(b, tag)
    ensures Ordered(order, a) == Ordered(order, b)
  {
    if order != [] {
      OrderedAgree(order[1..], a, b);
      var tag := order[0].tag;
      assert Slot(a, tag) == Slot(b, tag);
    }
  }

  lemma {:induction false} TypedTags(entries: seq<Entry>, g: Segment)
    requires SchemaOk(entries) && Typed(entries, g)
    ensures forall x :: x in g.items ==> x.tag in Tags(entries)
    ensures DistinctTags(NormalItems(entries, g.items))
    ensures forall x :: x in NormalItems(entries, g.items) ==> x.tag in Tags(entries)
  {
    hide SchemaOk, TypedValue;
    forall x | x in g.items ensures x.tag in Tags(entries)
    {
      assert Lookup(entries, x.tag).value in entries;
    }
    forall x | x in NormalItems(entries, g.items) ensures x.tag in Tags(entries)
    {
      var i :| 0 <= i < |g.items| && NormalItems(entries, g.items)[i] == x;
      assert g.items[i] in g.items;
    }
  }

  // ---------------------------------------------------------------- same maps

  lemma {:induction false} ValueSameMaps(e: Entry, v: Value)
    requires TypedValue(e, v) && (e.GroupEntry? ==> SchemaOk(e.group.entries))
    ensures ValueCollection(NormalValue(Some(e), v)) == ValueCollection(v)
    decreases v, 0
  {
    hide SchemaOk, Typed;
    match v
    case FieldVal(_) =>
    case Groups(gs) => GroupsSameMaps(e.group.entries, gs);
  }

  lemma {:induction false} GroupsSameMaps(entries: seq<Entry>, gs: seq<Segment>)
    requires SchemaOk(entries) && forall g :: g in gs ==> Typed(entries, g)
    ensures GroupCollections(NormalGroups(entries, gs)) == GroupCollections(gs)
    decreases gs, 0
  {
    hide Typed, ItemsCollection, NormalItems, Ordered, TypedValue, InnerTags;
    if gs != [] {
      var g := gs[0];
      var n := NormalItems(entries, g.items);
      TypedTags(entries, g);
      ItemsSameMaps(entries, g);
      forall tag ensures Slot(Ordered(entries, n), tag) == Slot(n, tag) { OrderedSlot(entries, n, tag); }
      SameSlotsSameMap(Ordered(entries, n), n);
      GroupsSameMaps(entries, gs[1..]);
    }
  }

  lemma {:induction false} SameSlotsSameMap(a: seq<Tagged<Value>>, b: seq<Tagged<Value>>)
    requires forall tag :: Slot(a, tag) == Slot(b, tag)
    ensures ItemsCollection(a) == ItemsCollection(b)
  {
    hide ItemsCollection, Slot, ValueCollection;
    forall tag ensures tag in ItemsCollection(a) <==> tag in ItemsCollection(b)
    {
      CollectionAt(a, tag); CollectionAt(b, tag);
    }
    forall tag | tag in ItemsCollection(a) ensures ItemsCollection(a)[tag] == ItemsCollection(b)[tag]
    {
      CollectionAt(a, tag); CollectionAt(b, tag);
    }
  }

  lemma {:induction false} ItemsSameMaps(entries: seq<Entry>, g: Segment)
    requires SchemaOk(entries) && Typed(entries, g)
    ensures ItemsCollection(NormalItems(entries, g.items)) == ItemsCollection(g.items)
    decreases g
  {
    hide ItemsCollection, NormalItems, SchemaOk, Typed;
    ItemsPrefixSameMaps(entries, g, |g.items|);
    assert g.items[..|g.items|] == g.items;
    assert NormalItems(entries, g.items)[..|g.items|] == NormalItems(entries, g.items);
  }

  lemma {:induction false} ItemsPrefixSameMaps(entries: seq<Entry>, g: Segment, k: nat)
    requires SchemaOk(entries) && Typed(entries, g) && k <= |g.items|
    ensures ItemsCollection(NormalItems(entries, g.items)[..k]) == ItemsCollection(g.items[..k])
    decreases g, k
  {
    hide SchemaOk, TypedValue, NormalItems, NormalValue, ValueCollection, Lookup;
    if k > 0 {
      var x := g.items[k - 1];
      ItemsPrefixSameMaps(entries, g, k - 1);
      NormalAt(entries, g.items, k - 1);
      var e := Lookup(entries, x.tag).value;
      if e.GroupEntry? { GroupBelow(entries, e); }
      assert x in g.items && x.value < x;
      ValueSameMaps(e, x.value);
      assert g.items[..k][..k - 1] == g.items[..k - 1];
      assert NormalItems(entries, g.items)[..k][..k - 1] == NormalItems(entries, g.items)[..k - 1];
    }
  }

  lemma {:induction false} SegmentsSameMaps(schemas: seq<seq<Entry>>, segs: seq<Segment>)
    requires SchemasOk(schemas) && TypedSegments(schemas, segs)
    ensures GroupCollections(NormalSegments(schemas, segs)) == GroupCollections(segs)
  {
    hide SchemaOk, Typed, ItemsCollection, NormalItems, DeepTags, Tags;
    if segs != [] {
      ItemsSameMaps(schemas[0], segs[0]);
      SegmentsSameMaps(schemas[1..], segs[1..]);
    }
  }

  /** The normal form of a message has the same nested tag-to-value maps as the message. */
  lemma {:induction false} NormalSameMaps(cls: MessageClass, m: Message)
    requires ClassOk(cls) && TypedMessage(cls, m)
    ensures MessageCollection(NormalMessage(cls, m)) == MessageCollection(m)
  {
    hide SchemasOk, TypedSegments, GroupCollections, NormalSegments;
    var n := NormalSegments(cls.Schemas(), m.Segments());
    assert n == [n[0], n[1], n[2]];
    SegmentsSameMaps(cls.Schemas(), m.Segments());
  }

  // ---------------------------------------------------------------- same bytes

  lemma {:induction false} ValueSameBytes(e: Entry, v: Value)
    requires TypedValue(e, v) && (e.GroupEntry? ==> SchemaOk(e.group.entries))
    ensures PrintValue(e.tag, Some(e), NormalValue(Some(e), v)) == PrintValue(e.tag, Some(e), v)
    decreases v, 0
  {
    hide SchemaOk, Typed, PrintField, PrintGroups, NormalGroups;
    match v
    case FieldVal(_) =>
    case Groups(gs) => GroupsSameBytes(e.group.entries, gs);
  }

  lemma {:induction false} GroupsSameBytes(entries: seq<Entry>, gs: seq<Segment>)
    requires SchemaOk(entries) && forall g :: g in gs ==> Typed(entries, g)
    ensures PrintGroups(entries, NormalGroups(entries, gs)) == PrintGroups(entries, gs)
    decreases gs, 0
  {
    hide Typed, NormalItems, Ordered, TypedValue, InnerTags, Pieces, Join;
    if gs != [] {
      var g := gs[0];
      var n, p := NormalItems(entries, g.items), Pieces(entries, g.items);
      TypedTags(entries, g);
      ItemsSameBytes(entries, g);
      PiecesOrdered(entries, entries, n);
      PieceTags(entries, g);
      forall tag ensures Slot(Ordered(entries, p), tag) == Slot(p, tag) { OrderedSlot(entries, p, tag); }
      OrderedAgree(entries, Ordered(entries, p), p);
      GroupsSameBytes(entries, gs[1..]);
    }
  }

  lemma {:induction false} PieceTags(entries: seq<Entry>, g: Segment)
    requires SchemaOk(entries) && Typed(entries, g)
    ensures DistinctTags(Pieces(entries, g.items))
    ensures forall x :: x in Pieces(entries, g.items) ==> x.tag in Tags(entries)
  {
    hide SchemaOk, Pieces, Tags;
    TypedTags(entries, g);
    forall x | x in Pieces(entries, g.items) ensures x.tag in Tags(entries)
    {
      var i :| 0 <= i < |g.items| && Pieces(entries, g.items)[i] == x;
      assert g.items[i] in g.items;
    }
  }

  lemma {:induction false} ItemsSameBytes(entries: seq<Entry>, g: Segment)
    requires SchemaOk(entries) && Typed(entries, g)
    ensures Pieces(entries, NormalItems(entries, g.items)) == Pieces(entries, g.items)
    decreases g
  {
    hide SchemaOk, Pieces, NormalItems, TypedValue, PrintValue, NormalValue, Lookup;
    var n := NormalItems(entries, g.items);
    forall i | 0 <= i < |g.items| ensures Pieces(entries, n)[i] == Pieces(entries, g.items)[i]
    {
      var x := g.items[i];
      NormalAt(entries, g.items, i);
      PiecesAt(entries, g.items, i);
      PiecesAt(entries, n, i);
      var e := Lookup(entries, x.tag).value;
      if e.GroupEntry? { GroupBelow(entries, e); }
      assert x in g.items && x.value < x;
      ValueSameBytes(e, x.value);
    }
  }

  lemma {:induction false} SegmentsSameBytes(schemas: seq<seq<Entry>>, segs: seq<Segment>)
    requires SchemasOk(schemas) && TypedSegments(schemas, segs)
    ensures PrintSegments(schemas, NormalSegments(schemas, segs)) == PrintSegments(schemas, segs)
  {
    hide SchemaOk, Typed, NormalItems, DeepTags, Tags, Pieces, Join;
    if segs != [] {
      ItemsSameBytes(schemas[0], segs[0]);
      SegmentsSameBytes(schemas[1..], segs[1..]);
    }
  }

  /** Printing what was parsed gives the same bytes again. */
  lemma {:induction false} NormalSameBytes(cls: MessageClass, m: Message)
    requires ClassOk(cls) && TypedMessage(cls, m)
    ensures ToBytes(cls, NormalMessage(cls, m)) == ToBytes(cls, m)
  {
    hide SchemasOk, TypedSegments, PrintSegments, NormalSegments;
    var n := NormalSegments(cls.Schemas(), m.Segments());
    assert n == [n[0], n[1], n[2]];
    SegmentsSameBytes(cls.Schemas(), m.Segments());
  }

  // ---------------------------------------------------------------- the usual way to be clean

  /** Every group carries the entry its class defines first. */
  predicate LeadsWithFirst(entries: seq<Entry>, gs: seq<Segment>) {
    entries != [] && forall g :: g in gs ==> HasTag(g.items, entries[0].tag)
  }

  /** Groups that all carry their first-defined entry can always be told apart. */
  lemma {:induction false} FirstEntrySeparates(entries: seq<Entry>, gs: seq<Segment>)
    requires LeadsWithFirst(entries, gs) && forall g :: g in gs ==> CleanItems(entries, g.items)
    ensures CleanGroups(entries, gs)
  {
    hide CleanItems, Position;
    if gs != [] {
      assert HasTag(gs[0].items, entries[0].tag);
      FirstEntrySeparates(entries, gs[1..]);
      if |gs| > 1 { assert gs[1] in gs && HasTag(gs[1].items, entries[0].tag); }
    }
  }

  /** The two fields of the counterexample below, and their values. */
  lemma {:induction false} TwoFields(entries: seq<Entry>, a: Tagged<Value>, b: Tagged<Value>)
    requires entries == [FieldEntry(1, FixBool), FieldEntry(2, FixBool)]
    requires a == Tagged(1, FieldVal(BoolV(true))) && b == Tagged(2, FieldVal(BoolV(true)))
    ensures SchemaOk(entries) && InnerTags(entries) == {}
    ensures Lookup(entries, 1) == Some(entries[0]) && Lookup(entries, 2) == Some(entries[1])
    ensures Ordered(entries, [a]) == [a] && Ordered(entries, [b]) == [b]
    ensures NormalItems(entries, [a, b]) == [a, b]
  {
    assert entries[..1] == [entries[0]];
    assert entries[1..] == [entries[1]] && entries[1..][1..] == [];
    assert InnerTags(entries[1..][1..]) == {} && InnerTags(entries[1..]) == {};
    var none: seq<Tagged<Value>> := [];
    assert [a][..0] == none && [b][..0] == none && Position(none, 1) == -1 && Position(none, 2) == -1;
    assert Position([a], 1) == 0 && Position([a], 2) == -1;
    assert Position([b], 1) == -1 && Position([b], 2) == 0;
    assert Ordered([], [a]) == none && Ordered([], [b]) == none;
    assert Ordered(entries[1..], [a]) == [];
    assert Ordered(entries[1..], [b]) == [[b][0]] + none;
    assert Ordered(entries, [a]) == [[a][0]] + none;
    NormalAt(entries, [a, b], 0);
    NormalAt(entries, [a, b], 1);
  }

  lemma {:induction false} TwoFieldsClean(entries: seq<Entry>, a: Tagged<Value>, b: Tagged<Value>)
    requires entries == [FieldEntry(1, FixBool), FieldEntry(2, FixBool)]
    requires a == Tagged(1, FieldVal(BoolV(true))) && b == Tagged(2, FieldVal(BoolV(true)))
    ensures forall items :: items in [[a], [b], [a, b]] ==> Typed(entries, Segment(items)) && CleanItems(entries, items)
  {
    hide SchemaOk, Ordered, NormalItems;
    TwoFields(entries, a, b);
    assert TypedValue(entries[0], a.value) && TypedValue(entries[1], b.value);
    CleanNil(entries);
    assert [b][1..] == [] && CleanItems(entries, [b]);
    assert [a][1..] == [] && CleanItems(entries, [a]);
    assert [a, b][1..] == [b] && CleanItems(entries, [a, b]);
  }

  /**
   * Two one-field groups of which the second does not start with a tag of the first: both are read as one
   * group, and the declared count of two cannot be met.
   */
  lemma {:induction false} MergedGroups(entries: seq<Entry>, g1: Segment, g2: Segment)
    requires entries == [FieldEntry(1, FixBool), FieldEntry(2, FixBool)]
    requires g1 == Segment([Tagged(1, FieldVal(BoolV(true)))]) && g2 == Segment([Tagged(2, FieldVal(BoolV(true)))])
    ensures SchemaOk(entries) && Typed(entries, g1) && Typed(entries, g2)
    ensures ParseGroups(entries, PrintGroups(entries, [g1, g2])[1..] + [SOH], 2) == Error
  {
    hide PrintValue, HeadTag, PrintGroups, ParseEntry, ParseItems, Typed, CleanItems, Ordered, NormalItems, SchemaOk,
         InnerTags;
    var both := g1.items + g2.items;
    TwoFields(entries, g1.items[0], g2.items[0]);
    TwoFieldsClean(entries, g1.items[0], g2.items[0]);
    assert g1.items == [g1.items[0]] && g2.items == [g2.items[0]] && both == [g1.items[0], g2.items[0]];
    TerminatedGroupsJoin(entries, [g1, g2]);
    var b := Terminated(entries, both);
    assert TerminatedGroups(entries, [g1, g2]) == b by {
      assert [g1, g2][1..] == [g2] && [g2][1..] == [];
      assert TerminatedGroups(entries, []) == [] && Terminated(entries, []) == [];
      assert TerminatedGroups(entries, [g2]) == Terminated(entries, g2.items);
      assert both[1..] == g2.items && g1.items[1..] == [];
      assert Terminated(entries, g1.items) + Terminated(entries, g2.items) == b;
    }
    var printed := PrintGroups(entries, [g1, g2]);
    TerminatedHead(entries, both, []);
    assert printed[1..] + [SOH] == (printed + [SOH])[1..] == b;
    ItemsThrough(entries, Segment(both), both, [], []);
    assert b + [] == b && [] + both == both;
    ParseItemsEnds(entries, [], both);
    TerminatedHead(entries, both, []);
    assert b[|b|..] == [];
  }
}
