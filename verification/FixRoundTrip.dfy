/** Printing then parsing FIX segments with arbitrarily nested repeating groups. */
module FixRoundTrip {
  import opened Bytes
  import opened FixCodec

  // ---------------------------------------------------------------- schemas

  function Tags(entries: seq<Entry>): set<int> {
    set e | e in entries :: e.tag
  }

  /** Every tag of a segment's entries and, at any depth, of the groups in them. */
  function DeepTags(entries: seq<Entry>): set<int>
    decreases entries, 1
  {
    Tags(entries) + InnerTags(entries)
  }

  function InnerTags(entries: seq<Entry>): set<int>
    decreases entries, 0
  {
    if entries == [] then {}
    else
      (match entries[0]
       case FieldEntry(_, _) => {}
       case GroupEntry(_, group) => assert group < entries[0]; DeepTags(group.entries))
      + InnerTags(entries[1..])
  }

  /** No tag twice at one level, and no tag again at any level below the one it belongs to. */
  ghost predicate SchemaOk(entries: seq<Entry>)
    decreases entries
  {
    && (forall i, j :: 0 <= i < j < |entries| ==> entries[i].tag != entries[j].tag)
    && Tags(entries) !! InnerTags(entries)
    && forall i :: 0 <= i < |entries| ==>
      (match entries[i]
       case FieldEntry(_, _) => true
       case GroupEntry(_, group) => assert group < entries[i]; SchemaOk(group.entries))
  }

  // ---------------------------------------------------------------- normal form

  /** The value as it comes back: every group has its slots in definition order. */
  function NormalValue(e: Option<Entry>, v: Value): Value
    decreases v, 0
  {
    match v
    case FieldVal(_) => v
    case Groups(gs) => Groups(NormalGroups(if e.Some? && e.value.GroupEntry? then e.value.group.entries else [], gs))
  }

  function NormalGroups(entries: seq<Entry>, gs: seq<Segment>): (r: seq<Segment>)
    ensures |r| == |gs|
    decreases gs, 0
  {
    if gs == [] then []
    else [Segment(Ordered(entries, NormalItems(entries, gs[0].items)))] + NormalGroups(entries, gs[1..])
  }

  function NormalItems(entries: seq<Entry>, items: seq<Tagged<Value>>): (r: seq<Tagged<Value>>)
    ensures |r| == |items| && forall i :: 0 <= i < |r| ==> r[i].tag == items[i].tag
    decreases items, 1
  {
    if items == [] then []
    else
      assert items[0].value < items[0];
      [Tagged(items[0].tag, NormalValue(Lookup(entries, items[0].tag), items[0].value))]
      + NormalItems(entries, items[1..])
  }

  // ---------------------------------------------------------------- values that survive

  /** The tag a group starts with when it is printed. */
  function FirstTag(entries: seq<Entry>, g: Segment): Option<int> {
    var slots := Ordered(entries, g.items);
    if slots == [] then None else Some(slots[0].tag)
  }

  /** Strings hold no SOH; no group is empty; each further group starts with a tag of the one before it. */
  ghost predicate CleanValue(e: Option<Entry>, v: Value)
    decreases v, 0
  {
    match v
    case FieldVal(x) => x.StrV? ==> SOH !in x.s
    case Groups(gs) => CleanGroups(if e.Some? && e.value.GroupEntry? then e.value.group.entries else [], gs)
  }

  ghost predicate CleanGroups(entries: seq<Entry>, gs: seq<Segment>)
    decreases gs, 0
  {
    gs == [] ||
    (&& gs[0].items != []
     && CleanItems(entries, gs[0].items)
     && (|gs| > 1 ==> FirstTag(entries, gs[1]).Some? && HasTag(gs[0].items, FirstTag(entries, gs[1]).value))
     && CleanGroups(entries, gs[1..]))
  }

  ghost predicate CleanItems(entries: seq<Entry>, items: seq<Tagged<Value>>)
    decreases items, 1
  {
    forall i :: 0 <= i < |items| ==>
      assert items[i].value < items[i];
      CleanValue(Lookup(entries, items[i].tag), items[i].value)
  }

  // ---------------------------------------------------------------- dictionary lemmas

  lemma {:induction false} PositionUnique<T>(items: seq<Tagged<T>>, i: nat)
    requires DistinctTags(items) && i < |items|
    ensures Position(items, items[i].tag) == i
  {
    var p := Position(items, items[i].tag);
    assert p != -1 by { assert items[i] in items; }
  }

  /** Mapping the values of a dictionary and putting its slots in definition order commute. */
  lemma {:induction false} PositionSameTags<T, U>(a: seq<Tagged<T>>, b: seq<Tagged<U>>, tag: int)
    requires |a| == |b| && forall i :: 0 <= i < |a| ==> a[i].tag == b[i].tag
    ensures Position(a, tag) == Position(b, tag)
  {
    if a != [] && a[|a| - 1].tag != tag {
      PositionSameTags(a[..|a| - 1], b[..|b| - 1], tag);
    }
  }

  lemma {:induction false} PiecesAt(entries: seq<Entry>, items: seq<Tagged<Value>>, i: nat)
    requires i < |items|
    ensures Pieces(entries, items)[i] ==
            Tagged(items[i].tag, PrintValue(items[i].tag, Lookup(entries, items[i].tag), items[i].value))
  {
    if i > 0 { PiecesAt(entries, items[1..], i - 1); }
  }

  lemma {:induction false} NormalAt(entries: seq<Entry>, items: seq<Tagged<Value>>, i: nat)
    requires i < |items|
    ensures NormalItems(entries, items)[i] ==
            Tagged(items[i].tag, NormalValue(Lookup(entries, items[i].tag), items[i].value))
  {
    if i > 0 { NormalAt(entries, items[1..], i - 1); }
  }

  lemma {:induction false} PiecesCons(all: seq<Entry>, x: Tagged<Value>, items: seq<Tagged<Value>>)
    ensures Pieces(all, [x] + items) == [Tagged(x.tag, PrintValue(x.tag, Lookup(all, x.tag), x.value))] +
            Pieces(all, items)
  {
    assert ([x] + items)[1..] == items;
  }

  lemma {:induction false} NormalCons(all: seq<Entry>, x: Tagged<Value>, items: seq<Tagged<Value>>)
    ensures NormalItems(all, [x] + items) == [Tagged(x.tag, NormalValue(Lookup(all, x.tag), x.value))] +
            NormalItems(all, items)
  {
    assert ([x] + items)[1..] == items;
  }

  lemma {:induction false} NormalNil(all: seq<Entry>)
    ensures NormalItems(all, []) == []
  {
  }

  lemma {:induction false} PiecesOrdered(all: seq<Entry>, order: seq<Entry>, items: seq<Tagged<Value>>)
    ensures Ordered(order, Pieces(all, items)) == Pieces(all, Ordered(order, items))
  {
    if order != [] {
      var i := Position(items, order[0].tag);
      PositionSameTags(items, Pieces(all, items), order[0].tag);
      PiecesOrdered(all, order[1..], items);
      if i != -1 {
        PiecesAt(all, items, i);
        PiecesCons(all, items[i], Ordered(order[1..], items));
      }
    }
  }

  lemma {:induction false} NormalOrdered(all: seq<Entry>, order: seq<Entry>, items: seq<Tagged<Value>>)
    ensures Ordered(order, NormalItems(all, items)) == NormalItems(all, Ordered(order, items))
  {
    if order != [] {
      var i := Position(items, order[0].tag);
      PositionSameTags(items, NormalItems(all, items), order[0].tag);
      NormalOrdered(all, order[1..], items);
      if i != -1 {
        NormalAt(all, items, i);
        NormalCons(all, items[i], Ordered(order[1..], items));
      }
    }
  }

  lemma {:induction false} TailTags(entries: seq<Entry>)
    requires entries != [] && forall i, j :: 0 <= i < j < |entries| ==> entries[i].tag != entries[j].tag
    ensures forall i, j :: 0 <= i < j < |entries[1..]| ==> entries[1..][i].tag != entries[1..][j].tag
    ensures Tags(entries) == {entries[0].tag} + Tags(entries[1..]) && entries[0].tag !in Tags(entries[1..])
  {
    assert entries == [entries[0]] + entries[1..];
    forall tag ensures tag in Tags(entries) <==> tag == entries[0].tag || tag in Tags(entries[1..]) {
      if tag in Tags(entries) {
        var e :| e in entries && e.tag == tag;
        assert e == entries[0] || e in entries[1..];
      }
      if tag in Tags(entries[1..]) {
        var e :| e in entries[1..] && e.tag == tag;
        assert e in entries;
      }
    }
  }

  lemma {:induction false} OrderedTags<T>(entries: seq<Entry>, items: seq<Tagged<T>>)
    requires forall i, j :: 0 <= i < j < |entries| ==> entries[i].tag != entries[j].tag
    ensures DistinctTags(Ordered(entries, items))
    ensures forall x :: x in Ordered(entries, items) ==> x.tag in Tags(entries)
  {
    hide Position, Tags, DistinctTags;
    if entries == [] {
      NoneDistinct<T>();
    } else {
      TailTags(entries);
      OrderedTags(entries[1..], items);
      var tail := Ordered(entries[1..], items);
      var i := Position(items, entries[0].tag);
      if i != -1 { DistinctCons(items[i], tail); }
    }
  }

  lemma {:induction false} NoneDistinct<T>()
    ensures DistinctTags<T>([])
  {
  }

  lemma {:induction false} DistinctCons<T>(x: Tagged<T>, items: seq<Tagged<T>>)
    requires DistinctTags(items) && forall y :: y in items ==> y.tag != x.tag
    ensures DistinctTags([x] + items)
  {
    var all := [x] + items;
    assert forall k :: 0 < k < |all| ==> all[k] == items[k - 1] && items[k - 1] in items;
  }

  lemma {:induction false} OrderedAll<T>(entries: seq<Entry>, items: seq<Tagged<T>>, k: nat)
    requires forall i, j :: 0 <= i < j < |entries| ==> entries[i].tag != entries[j].tag
    requires DistinctTags(items) && k < |items| && items[k].tag in Tags(entries)
    ensures items[k] in Ordered(entries, items)
  {
    hide Position, DistinctTags;
    TailTags(entries);
    if items[k].tag == entries[0].tag {
      PositionUnique(items, k);
      assert Ordered(entries, items)[0] == items[k];
    } else {
      OrderedAll(entries[1..], items, k);
    }
  }

  // ---------------------------------------------------------------- single fields

  lemma {:induction false} HeadTagPrinted(tag: int, tail: Bytes)
    ensures HeadTag(ShowInt(tag) + [EQUALS] + tail) == Some(tag)
  {
    var b := ShowInt(tag) + [EQUALS] + tail;
    FindSplit(ShowInt(tag), EQUALS, tail);
    assert b[..|ShowInt(tag)|] == ShowInt(tag);
    ShowIntParses(tag);
  }

  /** A field whose name and text hold no delimiter is cut out exactly, whatever follows its SOH. */
  lemma {:induction false} ParseFieldParts(t: FieldType, name: Bytes, text: Bytes, rest: Bytes)
    requires EQUALS !in name && SOH !in name && SOH !in text
    ensures ParseField(t, name + [EQUALS] + text + [SOH] + rest) ==
            match UnpackValue(t, text)
            case None => Error
            case Some(v) => Ok(|name| + |text| + 2, v)
  {
    var b := name + [EQUALS] + text + [SOH] + rest;
    assert b == name + [EQUALS] + (text + [SOH] + rest);
    FindSplit(name, EQUALS, text + [SOH] + rest);
    var field := name + [EQUALS] + text;
    assert SOH !in field;
    FindSplit(field, SOH, rest);
    assert b[|name| + 1..|field|] == text;
  }

  lemma {:induction false} UnpackPacked(t: FieldType, tag: int, v: FieldValue)
    requires TypedValue(FieldEntry(tag, t), FieldVal(v))
    ensures UnpackValue(t, PackValue(v)) == Some(v)
  {
    if v.IntV? { ShowIntParses(v.n); }
  }

  lemma {:induction false} ParsePrintedField(t: FieldType, tag: int, v: FieldValue, rest: Bytes)
    requires TypedValue(FieldEntry(tag, t), FieldVal(v)) && CleanValue(None, FieldVal(v))
    ensures ParseField(t, PrintField(tag, v) + [SOH] + rest) == Ok(|PrintField(tag, v)| + 1, v)
  {
    ParseFieldParts(t, ShowInt(tag), PackValue(v), rest);
    UnpackPacked(t, tag, v);
  }

  // ---------------------------------------------------------------- printed values parse back

  /** What is left is empty, does not start with a readable tag, or starts with a tag outside `inside`. */
  predicate Stops(rest: Bytes, inside: set<int>) {
    rest == [] || HeadTag(rest).None? || HeadTag(rest).value !in inside
  }

  predicate Unreadable(rest: Bytes) {
    rest != [] && HeadTag(rest).None?
  }

  /** The printed slots with an SOH after each of them. */
  function Terminated(entries: seq<Entry>, its: seq<Tagged<Value>>): Bytes {
    if its == [] then []
    else PrintValue(its[0].tag, Lookup(entries, its[0].tag), its[0].value) + [SOH] + Terminated(entries, its[1..])
  }

  lemma {:induction false} TerminatedStep(entries: seq<Entry>, its: seq<Tagged<Value>>, rest: Bytes)
    requires its != []
    ensures var head := PrintValue(its[0].tag, Lookup(entries, its[0].tag), its[0].value);
            var after := Terminated(entries, its[1..]) + rest;
            && Terminated(entries, its) + rest == head + [SOH] + after
            && (Terminated(entries, its) + rest)[|head| + 1..] == after
            && |Terminated(entries, its)| == |head| + 1 + |Terminated(entries, its[1..])|
  {
    hide PrintValue, Lookup;
    var head := PrintValue(its[0].tag, Lookup(entries, its[0].tag), its[0].value);
    Associates(head + [SOH], Terminated(entries, its[1..]), rest);
    Parts(head + [SOH], Terminated(entries, its[1..]) + rest);
  }

  lemma {:induction false} TerminatedNil(entries: seq<Entry>)
    ensures Terminated(entries, []) == []
  {
  }

  lemma {:induction false} TerminatedJoin(entries: seq<Entry>, its: seq<Tagged<Value>>)
    requires its != []
    ensures Join(Pieces(entries, its)) + [SOH] == Terminated(entries, its)
  {
    if |its| > 1 {
      TerminatedJoin(entries, its[1..]);
      var p := Pieces(entries, its);
      assert p[1..] == Pieces(entries, its[1..]);
      assert Join(p) == p[0].value + [SOH] + Join(p[1..]);
    } else {
      assert Terminated(entries, its[1..]) == [];
    }
  }

  /** Whatever is printed for a tag starts with that tag. */
  lemma {:induction false} PrintedName(tag: int, e: Option<Entry>, v: Value) returns (text: Bytes)
    ensures PrintValue(tag, e, v) == ShowInt(tag) + [EQUALS] + text
  {
    hide ShowInt, PrintGroups;
    match v
    case FieldVal(x) => text := PackValue(x);
    case Groups(gs) =>
      var printed := PrintGroups(if e.Some? && e.value.GroupEntry? then e.value.group.entries else [], gs);
      text := ShowInt(|gs|) + printed;
      Associates(ShowInt(tag) + [EQUALS], ShowInt(|gs|), printed);
  }

  lemma {:induction false} HeadTagOfValue(tag: int, e: Option<Entry>, v: Value, tail: Bytes)
    ensures PrintValue(tag, e, v) != []
    ensures HeadTag(PrintValue(tag, e, v) + tail) == Some(tag)
  {
    hide ShowInt, PrintValue, HeadTag;
    var text := PrintedName(tag, e, v);
    HeadTagPrinted(tag, text + tail);
    Associates(ShowInt(tag) + [EQUALS], text, tail);
  }

  /** The entries of a group are a sub-schema, and its tags lie strictly below the entry's own level. */
  lemma {:induction false} GroupBelow(entries: seq<Entry>, e: Entry)
    requires e in entries && e.GroupEntry?
    ensures DeepTags(e.group.entries) <= InnerTags(entries)
    ensures SchemaOk(entries) ==> SchemaOk(e.group.entries)
  {
    if e == entries[0] {
    } else {
      assert e in entries[1..];
      InnerBelow(entries[1..], e);
    }
  }

  lemma {:induction false} InnerBelow(entries: seq<Entry>, e: Entry)
    requires e in entries && e.GroupEntry?
    ensures DeepTags(e.group.entries) <= InnerTags(entries)
  {
    if e != entries[0] {
      InnerBelow(entries[1..], e);
    }
  }

  lemma {:induction false} GroupInOrder(entries: seq<Entry>, g: Segment)
    requires SchemaOk(entries) && Typed(entries, g)
    ensures Typed(entries, Segment(Ordered(entries, g.items)))
    ensures CleanItems(entries, g.items) <==> CleanItems(entries, Ordered(entries, g.items))
    ensures forall tag :: HasTag(NormalItems(entries, Ordered(entries, g.items)), tag) <==> HasTag(g.items, tag)
    ensures g.items != [] <==> Ordered(entries, g.items) != []
    ensures forall x :: x in Ordered(entries, g.items) ==> x in g.items && x.tag in Tags(entries)
  {
    var its := Ordered(entries, g.items);
    hide Position, InnerTags, TypedValue, CleanValue, CleanItems, NormalItems, Ordered;
    OrderedTags(entries, g.items);
    forall k | 0 <= k < |g.items| ensures g.items[k] in its
    {
      assert g.items[k] in g.items;
      assert g.items[k].tag in Tags(entries) by { assert Lookup(entries, g.items[k].tag).value in entries; }
      OrderedAll(entries, g.items, k);
    }
    forall tag ensures HasTag(NormalItems(entries, its), tag) <==> HasTag(g.items, tag)
    {
      PositionSameTags(its, NormalItems(entries, its), tag);
    }
    if g.items != [] { assert g.items[0] in its; }
    if its != [] { assert its[0] in g.items; }
    CleanItemsAll(entries, g.items);
    CleanItemsAll(entries, its);
  }

  lemma {:induction false} CleanItemsAll(entries: seq<Entry>, items: seq<Tagged<Value>>)
    ensures CleanItems(entries, items) <==> forall x :: x in items ==> CleanValue(Lookup(entries, x.tag), x.value)
  {
  }

  function TerminatedGroups(entries: seq<Entry>, gs: seq<Segment>): Bytes {
    if gs == [] then []
    else Terminated(entries, Ordered(entries, gs[0].items)) + TerminatedGroups(entries, gs[1..])
  }

  lemma {:induction false} Regroup(joined: Bytes, tail: Bytes, groups: Bytes)
    requires tail + [SOH] == [SOH] + groups
    ensures [SOH] + joined + tail + [SOH] == [SOH] + ((joined + [SOH]) + groups)
  {
    assert [SOH] + joined + tail + [SOH] == [SOH] + joined + (tail + [SOH]);
  }

  /** As long as no group is empty, joining with SOH and ending every slot with SOH agree. */
  lemma {:induction false} TerminatedGroupsJoin(entries: seq<Entry>, gs: seq<Segment>)
    requires SchemaOk(entries)
    requires forall g :: g in gs ==> Typed(entries, g) && g.items != []
    ensures PrintGroups(entries, gs) + [SOH] == [SOH] + TerminatedGroups(entries, gs)
  {
    hide PrintValue, HeadTag, Position, InnerTags, Terminated, Join, Pieces, TypedValue, Lookup;
    if gs != [] {
      var its := Ordered(entries, gs[0].items);
      GroupInOrder(entries, gs[0]);
      PiecesOrdered(entries, entries, gs[0].items);
      TerminatedJoin(entries, its);
      TerminatedGroupsJoin(entries, gs[1..]);
      Regroup(Join(Pieces(entries, its)), PrintGroups(entries, gs[1..]), TerminatedGroups(entries, gs[1..]));
    }
  }

  lemma {:induction false} CleanGroupsNonEmpty(entries: seq<Entry>, gs: seq<Segment>)
    requires CleanGroups(entries, gs)
    ensures forall g :: g in gs ==> g.items != []
  {
    if gs != [] { CleanGroupsNonEmpty(entries, gs[1..]); }
  }

  /** A non-empty group starts with the tag of its first slot in definition order. */
  lemma {:induction false} NextGroupStops(entries: seq<Entry>, gs: seq<Segment>, rest: Bytes)
    requires SchemaOk(entries) && gs != [] && Typed(entries, gs[0]) && gs[0].items != []
    ensures FirstTag(entries, gs[0]).Some? && FirstTag(entries, gs[0]).value in Tags(entries)
    ensures FirstTag(entries, gs[0]).value !in InnerTags(entries)
    ensures TerminatedGroups(entries, gs) != []
    ensures HeadTag(TerminatedGroups(entries, gs) + rest) == FirstTag(entries, gs[0])
  {
    hide PrintValue, HeadTag, Position, InnerTags, TypedValue, Lookup, Ordered, Terminated, Typed, CleanItems,
         NormalItems;
    var its := Ordered(entries, gs[0].items);
    GroupInOrder(entries, gs[0]);
    assert its[0] in its;
    TerminatedHead(entries, its, TerminatedGroups(entries, gs[1..]) + rest);
    TerminatedHead(entries, its, []);
    Associates(Terminated(entries, its), [], []);
    Associates(Terminated(entries, its), TerminatedGroups(entries, gs[1..]), rest);
  }

  lemma {:induction false} ParseItemsStep(entries: seq<Entry>, b: Bytes, done: seq<Tagged<Value>>, tag: int, e: Entry)
    requires b != [] && HeadTag(b) == Some(tag) && !HasTag(done, tag) && Lookup(entries, tag) == Some(e)
    ensures ParseEntry(e, b).Error? ==> ParseItems(entries, b, done) == Error
    ensures ParseEntry(e, b).Ok? ==>
      ParseItems(entries, b, done) ==
      Shift(ParseEntry(e, b).used,
            ParseItems(entries, b[ParseEntry(e, b).used..], done + [Tagged(tag, ParseEntry(e, b).value)]))
  {
  }

  /** Nothing left, a tag seen before or a foreign tag: the loop over a segment ends here. */
  lemma {:induction false} ParseItemsEnds(entries: seq<Entry>, b: Bytes, done: seq<Tagged<Value>>)
    requires b == [] || (HeadTag(b).Some? && (HasTag(done, HeadTag(b).value) || HeadTag(b).value !in Tags(entries)))
    ensures ParseItems(entries, b, done) == Ok(0, done)
  {
    hide HeadTag;
    if b != [] {
      var found := Lookup(entries, HeadTag(b).value);
      assert found.Some? ==> found.value.tag in Tags(entries);
    }
  }

  lemma {:induction false} HasTagAppend<T>(done: seq<Tagged<T>>, y: Tagged<T>, tag: int)
    ensures HasTag(done + [y], tag) <==> HasTag(done, tag) || y.tag == tag
  {
    assert (done + [y])[..|done|] == done;
  }

  lemma {:induction false} UnreadableFails(entries: seq<Entry>, rest: Bytes, done: seq<Tagged<Value>>)
    requires Unreadable(rest)
    ensures ParseItems(entries, rest, done) == Error
  {
  }

  lemma {:induction false} TerminatedHead(entries: seq<Entry>, its: seq<Tagged<Value>>, rest: Bytes)
    requires its != []
    ensures Terminated(entries, its) + rest != []
    ensures HeadTag(Terminated(entries, its) + rest) == Some(its[0].tag)
  {
    hide PrintValue, HeadTag, Lookup;
    var v := PrintValue(its[0].tag, Lookup(entries, its[0].tag), its[0].value);
    var more := [SOH] + Terminated(entries, its[1..]) + rest;
    HeadTagOfValue(its[0].tag, Lookup(entries, its[0].tag), its[0].value, more);
    assert Terminated(entries, its) + rest == v + more;
  }

  lemma {:induction false} TagOutside(entries: seq<Entry>, tag: int)
    requires SchemaOk(entries) && Lookup(entries, tag).Some?
    ensures tag in Tags(entries) && tag !in InnerTags(entries)
  {
    assert Lookup(entries, tag).value in entries;
  }

  /** Facts about the first slot and about the slots after it. */
  lemma {:induction false} FirstSlot(entries: seq<Entry>, its: seq<Tagged<Value>>, done: seq<Tagged<Value>>,
                                     y: Tagged<Value>)
    requires its != [] && Typed(entries, Segment(its)) && SchemaOk(entries)
    requires (forall x :: x in its ==> !HasTag(done, x.tag)) && y.tag == its[0].tag
    ensures Lookup(entries, its[0].tag).Some? && TypedValue(Lookup(entries, its[0].tag).value, its[0].value)
    ensures Typed(entries, Segment(its[1..]))
    ensures forall x :: x in its[1..] ==> !HasTag(done + [y], x.tag)
    ensures |its| > 1 ==> its[1].tag in Tags(entries) && its[1].tag !in InnerTags(entries)
    ensures CleanItems(entries, its) <==>
            CleanValue(Lookup(entries, its[0].tag), its[0].value) && CleanItems(entries, its[1..])
  {
    hide Position, TypedValue, CleanValue, SchemaOk, InnerTags;
    assert its[0] in its;
    assert its == [its[0]] + its[1..];
    forall x | x in its[1..] ensures !HasTag(done + [y], x.tag) { HasTagAppend(done, y, x.tag); }
    if |its| > 1 { TagOutside(entries, its[1].tag); }
    CleanItemsAll(entries, its);
    CleanItemsAll(entries, its[1..]);
  }

  /** Clean slots are read back one by one, and the loop goes on with whatever follows them. */
  lemma {:induction false} ItemsThrough(entries: seq<Entry>, src: Segment, its: seq<Tagged<Value>>,
                                        done: seq<Tagged<Value>>, rest: Bytes)
    requires SchemaOk(entries) && forall x :: x in its ==> x in src.items
    requires Typed(entries, Segment(its)) && CleanItems(entries, its)
    requires forall x :: x in its ==> !HasTag(done, x.tag)
    requires Stops(rest, InnerTags(entries))
    ensures ParseItems(entries, Terminated(entries, its) + rest, done) ==
            Shift(|Terminated(entries, its)|, ParseItems(entries, rest, done + NormalItems(entries, its)))
    decreases src, |its|
  {
    hide PrintValue, ParseItems, ParseEntry, HeadTag, Position, NormalItems, NormalValue, InnerTags, CleanValue,
         CleanItems, Typed, TypedValue, Lookup, SchemaOk, DeepTags, Tags, Terminated, HasTag;
    if its == [] {
      TerminatedNil(entries);
      NormalNil(entries);
      Associates(done, [], []);
      Associates(rest, [], []);
    } else {
      var x, tl := its[0], its[1..];
      var y := Tagged(x.tag, NormalValue(Lookup(entries, x.tag), x.value));
      FirstSlot(entries, its, done, y);
      var e := Lookup(entries, x.tag).value;
      var head := PrintValue(x.tag, Some(e), x.value);
      var after := Terminated(entries, tl) + rest;
      var b := Terminated(entries, its) + rest;
      TerminatedStep(entries, its, rest);
      TerminatedHead(entries, its, rest);
      if tl == [] { TerminatedNil(entries); Associates(rest, [], []); } else { TerminatedHead(entries, tl, rest); }
      if e.GroupEntry? { GroupBelow(entries, e); }
      assert x in src.items && x.value < x;
      EntryThrough(e, x.value, after);
      ItemsThrough(entries, src, tl, done + [y], rest);
      ParseItemsStep(entries, b, done, x.tag, e);
      assert its == [x] + tl;
      NormalCons(entries, x, tl);
      Associates(done, [y], NormalItems(entries, tl));
      if Unreadable(after) { UnreadableFails(entries, after, done + [y]); }
    }
  }

  lemma {:induction false} EntryThrough(e: Entry, v: Value, rest: Bytes)
    requires TypedValue(e, v) && CleanValue(Some(e), v)
    requires e.GroupEntry? ==> SchemaOk(e.group.entries) && Stops(rest, DeepTags(e.group.entries))
    ensures ParseEntry(e, PrintValue(e.tag, Some(e), v) + [SOH] + rest) ==
            if v.Groups? && v.groups != [] && Unreadable(rest) then Error
            else Ok(|PrintValue(e.tag, Some(e), v)| + 1, NormalValue(Some(e), v))
    decreases v, 0
  {
    hide ParseItems, HeadTag, Position, InnerTags, DeepTags, ParseField, ParseGroups, Lookup, PrintGroups,
         TerminatedGroups, Typed, CleanGroups, PrintField, SchemaOk;
    match v
    case FieldVal(x) =>
      ParsePrintedField(e.ftype, e.tag, x, rest);
    case Groups(gs) =>
      var entries := e.group.entries;
      var count := PrintField(e.tag, IntV(|gs|));
      var groups := TerminatedGroups(entries, gs);
      CleanGroupsNonEmpty(entries, gs);
      TerminatedGroupsJoin(entries, gs);
      assert count + PrintGroups(entries, gs) + [SOH] + rest == count + (PrintGroups(entries, gs) + [SOH]) + rest;
      assert count + ([SOH] + groups) + rest == count + [SOH] + (groups + rest);
      ParsePrintedField(FixInt, e.tag, IntV(|gs|), groups + rest);
      assert (count + [SOH] + (groups + rest))[|count| + 1..] == groups + rest;
      GroupsThrough(entries, gs, rest);
  }

  lemma {:induction false} GroupsThrough(entries: seq<Entry>, gs: seq<Segment>, rest: Bytes)
    requires SchemaOk(entries)
    requires (forall g :: g in gs ==> Typed(entries, g)) && CleanGroups(entries, gs)
    requires Stops(rest, DeepTags(entries))
    ensures ParseGroups(entries, TerminatedGroups(entries, gs) + rest, |gs|) ==
            if gs != [] && Unreadable(rest) then Error
            else Ok(|TerminatedGroups(entries, gs)|, NormalGroups(entries, gs))
    decreases gs, 1
  {
    hide HeadTag, Position, NormalItems, InnerTags, Ordered, Terminated, SchemaOk, ParseItems, ParseGroups,
         TerminatedGroups, NormalGroups, Typed, CleanItems, Tags;
    if gs == [] {
      NoGroups(entries, rest);
    } else {
      FirstGroupThrough(entries, gs, rest);
      GroupsJoined(entries, gs, rest);
      ParseGroupsStep(entries, TerminatedGroups(entries, gs) + rest, |gs|);
      NormalGroupsStep(entries, gs);
      if gs[1..] == [] { NoGroups(entries, rest); }
      GroupsThrough(entries, gs[1..], rest);
    }
  }

  /** What follows a group ends its parse: a tag it has, no tag of its level, or nothing readable at all. */
  lemma {:induction false} GroupEnds(entries: seq<Entry>, gs: seq<Segment>, rest: Bytes)
    requires SchemaOk(entries) && gs != []
    requires (forall g :: g in gs ==> Typed(entries, g)) && CleanGroups(entries, gs)
    requires Stops(rest, DeepTags(entries))
    ensures var n := NormalItems(entries, Ordered(entries, gs[0].items));
            var after := TerminatedGroups(entries, gs[1..]) + rest;
            && Stops(after, InnerTags(entries))
            && ParseItems(entries, after, n) == (if |gs| == 1 && Unreadable(rest) then Error else Ok(0, n))
  {
    hide HeadTag, Position, NormalItems, InnerTags, Ordered, Terminated, SchemaOk, ParseItems, TerminatedGroups, Typed,
         CleanItems, Tags;
    var n := NormalItems(entries, Ordered(entries, gs[0].items));
    var after := TerminatedGroups(entries, gs[1..]) + rest;
    GroupInOrder(entries, gs[0]);
    if |gs| == 1 {
      assert gs[1..] == [];
      NoGroups(entries, rest);
    } else {
      assert gs[1..][0] == gs[1] && gs[1] in gs;
      NextGroupStops(entries, gs[1..], rest);
    }
    if Unreadable(after) { UnreadableFails(entries, after, n); } else { ParseItemsEnds(entries, after, n); }
  }

  lemma {:induction false} NothingTagged()
    ensures forall tag :: !HasTag<Value>([], tag)
  {
  }

  lemma {:induction false} FirstClean(entries: seq<Entry>, gs: seq<Segment>)
    requires gs != [] && (forall g :: g in gs ==> Typed(entries, g)) && CleanGroups(entries, gs)
    ensures Typed(entries, gs[0]) && CleanItems(entries, gs[0].items) && gs[0].items != []
  {
  }

  /** The first group ends where the next one begins, or where the groups end. */
  lemma {:induction false} FirstGroupThrough(entries: seq<Entry>, gs: seq<Segment>, rest: Bytes)
    requires SchemaOk(entries) && gs != []
    requires (forall g :: g in gs ==> Typed(entries, g)) && CleanGroups(entries, gs)
    requires Stops(rest, DeepTags(entries))
    ensures TerminatedGroups(entries, gs) != []
    ensures var its := Ordered(entries, gs[0].items);
            ParseItems(entries, TerminatedGroups(entries, gs) + rest, []) ==
            if |gs| == 1 && Unreadable(rest) then Error else Ok(|Terminated(entries, its)|, NormalItems(entries, its))
    decreases gs, 0
  {
    hide HeadTag, Position, NormalItems, InnerTags, Ordered, Terminated, SchemaOk, ParseItems, TerminatedGroups, Typed,
         CleanItems, Tags, DeepTags, FirstTag, Stops, Unreadable, HasTag, CleanGroups;
    FirstClean(entries, gs);
    NothingTagged();
    var its := Ordered(entries, gs[0].items);
    var after := TerminatedGroups(entries, gs[1..]) + rest;
    GroupInOrder(entries, gs[0]);
    NextGroupStops(entries, gs, rest);
    GroupEnds(entries, gs, rest);
    GroupsJoined(entries, gs, rest);
    ItemsThrough(entries, gs[0], its, [], after);
    Associates(NormalItems(entries, its), [], []);
  }

  lemma {:induction false} GroupsJoined(entries: seq<Entry>, gs: seq<Segment>, rest: Bytes)
    requires gs != []
    ensures var first := Terminated(entries, Ordered(entries, gs[0].items));
            var b, after := TerminatedGroups(entries, gs) + rest, TerminatedGroups(entries, gs[1..]) + rest;
            && b == first + after && b[|first|..] == after
            && |TerminatedGroups(entries, gs)| == |first| + |TerminatedGroups(entries, gs[1..])|
  {
    hide Ordered, Terminated;
    var first := Terminated(entries, Ordered(entries, gs[0].items));
    Associates(first, TerminatedGroups(entries, gs[1..]), rest);
    Parts(first, TerminatedGroups(entries, gs[1..]) + rest);
  }

  lemma {:induction false} NoGroups(entries: seq<Entry>, rest: Bytes)
    ensures ParseGroups(entries, TerminatedGroups(entries, []) + rest, 0) == Ok(0, []) &&
            TerminatedGroups(entries, []) == []
    ensures NormalGroups(entries, []) == [] && TerminatedGroups(entries, []) + rest == rest
  {
  }

  lemma {:induction false} ParseGroupsStep(entries: seq<Entry>, b: Bytes, need: int)
    requires b != [] && need > 0
    ensures var p := ParseItems(entries, b, []);
            ParseGroups(entries, b, need) ==
            if p.Error? then Error
            else
              var later := ParseGroups(entries, b[p.used..], need - 1);
              if later.Error? then Error else Ok(p.used + later.used, [Segment(p.value)] + later.value)
  {
    hide ParseItems;
  }

  lemma {:induction false} NormalGroupsStep(entries: seq<Entry>, gs: seq<Segment>)
    requires gs != []
    ensures NormalGroups(entries, gs) ==
            [Segment(NormalItems(entries, Ordered(entries, gs[0].items)))] + NormalGroups(entries, gs[1..])
  {
    hide NormalItems, Ordered;
    NormalOrdered(entries, entries, gs[0].items);
  }
}
