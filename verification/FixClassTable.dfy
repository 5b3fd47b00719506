/** The FIX parser over a table of group classes, which may refer to each other and to themselves. */
module FixClassTable {
  import opened Bytes
  import opened FixCodec

  /** What an entry of a segment or group class is; a container names the class of its groups. */
  datatype ClassEntry = Plain(ftype: FieldType) | Container(groupCls: string)

  /** `IndexedEntries` of a class: its entries by tag. */
  type Indexed = seq<Tagged<ClassEntry>>

  /** The entries of every group class. */
  type Table = map<string, Indexed>

  function EntriesOf(table: Table, groupCls: string): Indexed {
    if groupCls in table then table[groupCls] else []
  }

  /** `DataSegment.from_bytes` after the slots in `done` have been read. */
  function ReadItems(table: Table, entries: Indexed, b: Bytes, done: seq<Tagged<Value>>)
    : (r: Parsed<seq<Tagged<Value>>>)
    ensures r.Ok? ==> r.used <= |b| && done <= r.value
    decreases |b|, 1, 0
  {
    if b == [] then Ok(0, done)
    else
      match HeadTag(b)
      case None => Error
      case Some(tag) =>
        if HasTag(done, tag) || Slot(entries, tag).None? then Ok(0, done)
        else
          match ReadEntry(table, Slot(entries, tag).value, b)
          case Error => Error
          case Ok(n, v) => Shift(n, ReadItems(table, entries, b[n..], done + [Tagged(tag, v)]))
  }

  function ReadEntry(table: Table, e: ClassEntry, b: Bytes): (r: Parsed<Value>)
    ensures r.Ok? ==> 0 < r.used <= |b|
    decreases |b|, 0, 0
  {
    match e
    case Plain(t) =>
      (match ParseField(t, b) case Error => Error case Ok(n, v) => Ok(n, FieldVal(v)))
    case Container(groupCls) =>
      match ParseField(FixInt, b)
      case Error => Error
      case Ok(n, count) =>
        match ReadGroups(table, EntriesOf(table, groupCls), b[n..], if count.IntV? then count.n else 0)
        case Error => Error
        case Ok(m, gs) => Ok(n + m, Groups(gs))
  }

  /** Exactly the declared number of groups, or a failure, whatever classes refer to each other. */
  function ReadGroups(table: Table, entries: Indexed, b: Bytes, need: int): (r: Parsed<seq<Segment>>)
    ensures r.Ok? ==> r.used <= |b| && |r.value| == need
    decreases |b|, 2, if need > 0 then need else 0
  {
    if b == [] || need <= 0 then (if need == 0 then Ok(0, []) else Error)
    else
      match ReadItems(table, entries, b, [])
      case Error => Error
      case Ok(n, items) =>
        match ReadGroups(table, entries, b[n..], need - 1)
        case Error => Error
        case Ok(m, gs) => Ok(n + m, [Segment(items)] + gs)
  }

  // ---------------------------------------------------------------- tree schemas are an instance

  /** The classes of the table spell out the tree schema. */
  ghost predicate Spells(table: Table, entries: Indexed, tree: seq<Entry>)
    decreases tree, 1
  {
    && |entries| == |tree|
    && forall i :: 0 <= i < |tree| ==> entries[i].tag == tree[i].tag && SpellsEntry(table, entries[i].value, tree[i])
  }

  ghost predicate SpellsEntry(table: Table, e: ClassEntry, t: Entry)
    decreases t, 0
  {
    match (e, t)
    case (Plain(ftype), FieldEntry(_, ftype')) => ftype == ftype'
    case (Container(groupCls), GroupEntry(_, group)) => Spells(table, EntriesOf(table, groupCls), group.entries)
    case _ => false
  }

  lemma {:induction false} ClassSpelled(table: Table, entries: Indexed, tree: seq<Entry>, tag: int)
    requires Spells(table, entries, tree)
    ensures Slot(entries, tag).Some? <==> Lookup(tree, tag).Some?
    ensures Slot(entries, tag).Some? ==> SpellsEntry(table, Slot(entries, tag).value, Lookup(tree, tag).value)
  {
    hide SpellsEntry;
    if entries != [] {
      var n := |entries| - 1;
      assert SpellsEntry(table, entries[n].value, tree[n]);
      ClassSpelled(table, entries[..n], tree[..n], tag);
    }
  }

  /** Parsing by classes that spell out a tree schema is parsing by that schema. */
  lemma {:induction false} ItemsAlike(table: Table, entries: Indexed, tree: seq<Entry>, b: Bytes,
                                      done: seq<Tagged<Value>>)
    requires Spells(table, entries, tree)
    ensures ReadItems(table, entries, b, done) == ParseItems(tree, b, done)
    decreases |b|, 1, 0
  {
    hide Spells, SpellsEntry, HeadTag, Slot, Lookup, ReadEntry, ParseEntry, Position;
    if b != [] && HeadTag(b).Some? {
      var tag := HeadTag(b).value;
      ClassSpelled(table, entries, tree, tag);
      if Slot(entries, tag).Some? {
        EntryAlike(table, Slot(entries, tag).value, Lookup(tree, tag).value, b);
        var r := ParseEntry(Lookup(tree, tag).value, b);
        if r.Ok? { ItemsAlike(table, entries, tree, b[r.used..], done + [Tagged(tag, r.value)]); }
      }
    }
  }

  lemma {:induction false} EntryAlike(table: Table, e: ClassEntry, t: Entry, b: Bytes)
    requires SpellsEntry(table, e, t)
    ensures ReadEntry(table, e, b) == ParseEntry(t, b)
    decreases |b|, 0, 0
  {
    hide Spells, ParseField, ReadGroups, ParseGroups;
    if e.Container? {
      var f := ParseField(FixInt, b);
      if f.Ok? {
        var count := if f.value.IntV? then f.value.n else 0;
        GroupsAlike(table, EntriesOf(table, e.groupCls), t.group.entries, b[f.used..], count);
      }
    }
  }

  lemma {:induction false} GroupsAlike(table: Table, entries: Indexed, tree: seq<Entry>, b: Bytes, need: int)
    requires Spells(table, entries, tree)
    ensures ReadGroups(table, entries, b, need) == ParseGroups(tree, b, need)
    decreases |b|, 2, if need > 0 then need else 0
  {
    hide Spells, ReadItems, ParseItems;
    if b != [] && need > 0 {
      ItemsAlike(table, entries, tree, b, []);
      var r := ParseItems(tree, b, []);
      if r.Ok? { GroupsAlike(table, entries, tree, b[r.used..], need - 1); }
    }
  }

  // ---------------------------------------------------------------- a class that contains itself

  /** No tree schema spells out a class with a container of its own groups. */
  lemma {:induction false} SelfContainingIsNoTree(table: Table, groupCls: string, tree: seq<Entry>)
    requires exists e :: e in EntriesOf(table, groupCls) && e.value == Container(groupCls)
    ensures !Spells(table, EntriesOf(table, groupCls), tree)
    decreases tree
  {
    var entries := EntriesOf(table, groupCls);
    if Spells(table, entries, tree) {
      var e :| e in entries && e.value == Container(groupCls);
      var i :| 0 <= i < |entries| && entries[i] == e;
      assert SpellsEntry(table, entries[i].value, tree[i]);
      assert tree[i].group < tree[i];
      SelfContainingIsNoTree(table, groupCls, tree[i].group.entries);
    }
  }

  lemma {:induction false} DigitField(tag: byte, v: byte, rest: Bytes)
    requires IsDigit(tag)
    ensures var b := [tag, EQUALS, v, SOH] + rest;
            && HeadTag(b) == Some(tag - ZERO) && b[4..] == rest
            && (IsDigit(v) ==> ParseField(FixInt, b) == Ok(4, IntV(v - ZERO)))
            && (v == 89 ==> ParseField(FixBool, b) == Ok(4, BoolV(true)))
  {
    var b := [tag, EQUALS, v, SOH] + rest;
    assert b[0] == tag && b[1] == EQUALS && b[2] == v && b[3] == SOH;
    assert Find(b, EQUALS, 0) == 1;
    if v != SOH { assert Find(b, SOH, 0) == 3; }
    var t, w: Bytes := [tag], [v];
    assert b[..1] == t && Slice(b, 2, 3) == w && t[..0] == [] && w[..0] == [];
    assert DigitsValue(t) == tag - ZERO;
    if IsDigit(v) { assert DigitsValue(w) == v - ZERO; }
  }

  /** One group is read to the end of the input. */
  lemma {:induction false} OneGroup(table: Table, entries: Indexed, b: Bytes, tag: int, e: ClassEntry, v: Value)
    requires b != [] && HeadTag(b) == Some(tag) && Slot(entries, tag) == Some(e)
    requires ReadEntry(table, e, b) == Ok(|b|, v)
    ensures ReadGroups(table, entries, b, 1) == Ok(|b|, [Segment([Tagged(tag, v)])])
  {
    hide HeadTag, Slot, ReadEntry;
    assert b[|b|..] == [];
    var items: seq<Tagged<Value>> := [Tagged(tag, v)];
    var none: seq<Tagged<Value>> := [];
    assert none + items == items && !HasTag(none, tag);
    assert ReadItems(table, entries, b[|b|..], items) == Ok(0, items);
    assert ReadItems(table, entries, b, []) == Ok(|b|, items);
    assert ReadGroups(table, entries, b[|b|..], 0) == Ok(0, []);
    var one := [Segment(items)];
    Associates(one, [], []);
    assert ReadGroups(table, entries, b, 1) == Ok(|b|, one + []);
  }

  /** A group of a self-containing class within a group of that class: `7=1`, `7=1`, `5=Y`, each with its SOH. */
  lemma {:induction false} NestedInItself(table: Table, b: Bytes)
    requires table == map["G" := [Tagged(5, Plain(FixBool)), Tagged(7, Container("G"))]]
    requires b == [55, 61, 49, 1, 55, 61, 49, 1, 53, 61, 89, 1]
    ensures ReadEntry(table, Container("G"), b) ==
            Ok(12, Groups([Segment([Tagged(7, Groups([Segment([Tagged(5, FieldVal(BoolV(true)))])]))])]))
  {
    hide HeadTag, ParseField, ReadItems, ReadGroups;
    var entries := EntriesOf(table, "G");
    TwoSlots(entries);
    var inner: Bytes := [53, 61, 89, 1];
    var middle: Bytes := [55, 61, 49, 1] + inner;
    assert inner + [] == inner && b == [55, 61, 49, 1] + middle;
    DigitField(53, 89, []);
    DigitField(55, 49, inner);
    DigitField(55, 49, middle);
    OneGroup(table, entries, inner, 5, Plain(FixBool), FieldVal(BoolV(true)));
    var v := Groups([Segment([Tagged(5, FieldVal(BoolV(true)))])]);
    assert ReadEntry(table, Container("G"), middle) == Ok(8, v);
    OneGroup(table, entries, middle, 7, Container("G"), v);
  }

  lemma {:induction false} TwoSlots(entries: Indexed)
    requires entries == [Tagged(5, Plain(FixBool)), Tagged(7, Container("G"))]
    ensures Slot(entries, 7) == Some(Container("G")) && Slot(entries, 5) == Some(Plain(FixBool))
  {
    assert entries[..1] == [entries[0]];
  }
}
