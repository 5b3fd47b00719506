/** The other direction: a value that is not clean does not come back. */
module FixConverse {
  import opened Bytes
  import opened FixCodec
  import opened FixRoundTrip

  /** What can follow a printed value: nothing, or the SOH that joins it to the next one. */
  predicate Joined(rest: Bytes) {
    rest == [] || rest[0] == SOH
  }

  ghost predicate Missed<T>(p: Parsed<T>, expected: T) {
    p.Ok? ==> p.value != expected
  }

  lemma {:induction false} SohUnreadable(b: Bytes)
    requires b != [] && b[0] == SOH
    ensures Unreadable(b)
  {
    var eq := Find(b, EQUALS, 0);
    var text := if eq == -1 then b[..|b| - 1] else b[..eq];
    assert eq != 0;
    assert text == [] || text[0] == SOH;
  }

  /** The text of a parsed field ends before the first SOH. */
  lemma {:induction false} ParsedFieldHasNoSoh(t: FieldType, b: Bytes)
    ensures ParseField(t, b).Ok? && ParseField(t, b).value.StrV? ==> SOH !in ParseField(t, b).value.s
  {
  }

  lemma {:induction false} JoinCons(entries: seq<Entry>, its: seq<Tagged<Value>>)
    requires its != []
    ensures Join(Pieces(entries, its)) ==
            PrintValue(its[0].tag, Lookup(entries, its[0].tag), its[0].value)
            + if |its| == 1 then [] else [SOH] + Join(Pieces(entries, its[1..]))
  {
    assert Pieces(entries, its)[1..] == Pieces(entries, its[1..]);
  }

  lemma {:induction false} JoinHead(entries: seq<Entry>, its: seq<Tagged<Value>>, rest: Bytes)
    requires its != []
    ensures Join(Pieces(entries, its)) + rest != []
    ensures HeadTag(Join(Pieces(entries, its)) + rest) == Some(its[0].tag)
  {
    hide HeadTag, PrintValue, Join, Pieces, Lookup;
    var e := Lookup(entries, its[0].tag);
    var more := (if |its| == 1 then [] else [SOH] + Join(Pieces(entries, its[1..]))) + rest;
    JoinCons(entries, its);
    HeadTagOfValue(its[0].tag, e, its[0].value, more);
    assert Join(Pieces(entries, its)) + rest == PrintValue(its[0].tag, e, its[0].value) + more;
  }

  lemma {:induction false} FirstItemMissed(entries: seq<Entry>, b: Bytes, done: seq<Tagged<Value>>, e: Entry,
                        y: Tagged<Value>, others: seq<Tagged<Value>>)
    requires b != [] && HeadTag(b) == Some(y.tag) && !HasTag(done, y.tag) && Lookup(entries, y.tag) == Some(e)
    requires Missed(ParseEntry(e, b), y.value)
    ensures Missed(ParseItems(entries, b, done), done + ([y] + others))
  {
    hide ParseItems, ParseEntry, HeadTag, Position, Lookup;
    ParseItemsStep(entries, b, done, y.tag, e);
    var p := ParseEntry(e, b);
    if p.Ok? {
      assert (done + [Tagged(y.tag, p.value)])[|done|].value == p.value;
      assert (done + ([y] + others))[|done|].value == y.value;
    }
  }

  lemma {:induction false} LaterItemMissed(entries: seq<Entry>, b: Bytes, done: seq<Tagged<Value>>, e: Entry, n: nat,
                        y: Tagged<Value>, others: seq<Tagged<Value>>)
    requires b != [] && HeadTag(b) == Some(y.tag) && !HasTag(done, y.tag) && Lookup(entries, y.tag) == Some(e)
    requires n <= |b| && ParseEntry(e, b) == Ok(n, y.value)
    requires Missed(ParseItems(entries, b[n..], done + [y]), (done + [y]) + others)
    ensures Missed(ParseItems(entries, b, done), done + ([y] + others))
  {
    hide ParseItems, ParseEntry, HeadTag, Position, Lookup;
    ParseItemsStep(entries, b, done, y.tag, e);
    Associates(done, [y], others);
  }

  lemma {:induction false} ItemsConverse(entries: seq<Entry>, src: Segment, its: seq<Tagged<Value>>,
                                         done: seq<Tagged<Value>>, rest: Bytes)
    requires SchemaOk(entries) && forall x :: x in its ==> x in src.items
    requires its != [] && Typed(entries, Segment(its)) && !CleanItems(entries, its)
    requires forall x :: x in its ==> !HasTag(done, x.tag)
    requires Joined(rest)
    ensures Missed(ParseItems(entries, Join(Pieces(entries, its)) + rest, done), done + NormalItems(entries, its))
    decreases src, |its|
  {
    hide Join, Pieces, PrintValue, ParseItems, ParseEntry, HeadTag, Position, NormalItems, NormalValue, InnerTags,
         CleanValue, CleanItems, Typed, TypedValue, Lookup, SchemaOk, DeepTags, Tags;
    var x, tl := its[0], its[1..];
    var y := Tagged(x.tag, NormalValue(Lookup(entries, x.tag), x.value));
    FirstSlot(entries, its, done, y);
    var e := Lookup(entries, x.tag).value;
    var head := PrintValue(x.tag, Some(e), x.value);
    var more := if tl == [] then [] else Join(Pieces(entries, tl)) + rest;
    var after := if tl == [] then rest else [SOH] + more;
    var b := Join(Pieces(entries, its)) + rest;
    JoinCons(entries, its);
    assert b == head + after;
    JoinHead(entries, its, rest);
    assert x in src.items && x.value < x;
    if e.GroupEntry? { GroupBelow(entries, e); }
    assert its == [x] + tl;
    NormalCons(entries, x, tl);
    if !CleanValue(Some(e), x.value) {
      EntryConverse(e, x.value, after);
      FirstItemMissed(entries, b, done, e, y, NormalItems(entries, tl));
    } else {
      CleanNil(entries);
      JoinHead(entries, tl, rest);
      EntryThrough(e, x.value, more);
      assert b == head + [SOH] + more;
      assert b[|head| + 1..] == more;
      ItemsConverse(entries, src, tl, done + [y], rest);
      LaterItemMissed(entries, b, done, e, |head| + 1, y, NormalItems(entries, tl));
    }
  }

  lemma {:induction false} CleanNil(entries: seq<Entry>)
    ensures CleanItems(entries, [])
  {
  }

  lemma {:induction false} EntryConverse(e: Entry, v: Value, rest: Bytes)
    requires TypedValue(e, v) && !CleanValue(Some(e), v)
    requires e.GroupEntry? ==> SchemaOk(e.group.entries)
    requires Joined(rest)
    ensures Missed(ParseEntry(e, PrintValue(e.tag, Some(e), v) + rest), NormalValue(Some(e), v))
    decreases v, 0
  {
    hide ParseItems, HeadTag, Position, InnerTags, DeepTags, ParseField, ParseGroups, Lookup, Typed, CleanGroups,
         PrintField, SchemaOk;
    match v
    case FieldVal(x) =>
      ParsedFieldHasNoSoh(e.ftype, PrintValue(e.tag, Some(e), v) + rest);
    case Groups(gs) =>
      var entries := e.group.entries;
      var count := PrintField(e.tag, IntV(|gs|));
      EmptyGroupsClean(entries);
      var body := PrintGroups(entries, gs)[1..] + rest;
      assert count + PrintGroups(entries, gs) + rest == count + [SOH] + body;
      ParsePrintedField(FixInt, e.tag, IntV(|gs|), body);
      assert (count + [SOH] + body)[|count| + 1..] == body;
      GroupsConverse(entries, gs, rest);
  }

  lemma {:induction false} EmptyGroupsClean(entries: seq<Entry>)
    ensures CleanGroups(entries, [])
  {
  }

  lemma {:induction false} EmptyGroupFails(entries: seq<Entry>, b: Bytes, need: int)
    requires Joined(b) && need > 0
    ensures ParseGroups(entries, b, need) == Error
  {
    if b != [] {
      SohUnreadable(b);
      UnreadableFails(entries, b, []);
    }
  }

  lemma {:induction false} FirstGroupMissed(entries: seq<Entry>, b: Bytes, need: int, first: seq<Tagged<Value>>,
                                            others: seq<Segment>)
    requires need > 0 && b != [] && Missed(ParseItems(entries, b, []), first)
    ensures Missed(ParseGroups(entries, b, need), [Segment(first)] + others)
  {
    var p := ParseGroups(entries, b, need);
    if p.Ok? {
      assert p.value[0] == Segment(ParseItems(entries, b, []).value);
      assert ([Segment(first)] + others)[0] == Segment(first);
    }
  }

  lemma {:induction false} LaterGroupMissed(entries: seq<Entry>, b: Bytes, need: int, n: nat,
                                            first: seq<Tagged<Value>>, others: seq<Segment>)
    requires need > 0 && b != [] && n <= |b| && ParseItems(entries, b, []) == Ok(n, first)
    requires Missed(ParseGroups(entries, b[n..], need - 1), others)
    ensures Missed(ParseGroups(entries, b, need), [Segment(first)] + others)
  {
    var p := ParseGroups(entries, b, need);
    if p.Ok? {
      assert p.value[1..] == ParseGroups(entries, b[n..], need - 1).value;
      assert ([Segment(first)] + others)[1..] == others;
    }
  }

  /** The second group starts with a tag of the first one. */
  predicate StartsInside(entries: seq<Entry>, g: Segment, next: Segment) {
    FirstTag(entries, next).Some? && HasTag(g.items, FirstTag(entries, next).value)
  }

  lemma {:induction false} GroupsLead(entries: seq<Entry>, gs: seq<Segment>)
    requires gs != []
    ensures PrintGroups(entries, gs) != [] && PrintGroups(entries, gs)[0] == SOH
  {
  }

  /** The first group and what follows it. */
  lemma {:induction false} GroupsLayout(entries: seq<Entry>, gs: seq<Segment>, rest: Bytes)
    requires gs != [] && Joined(rest)
    ensures var its := Ordered(entries, gs[0].items);
            && PrintGroups(entries, gs)[1..] + rest == Join(Pieces(entries, its)) +
              (PrintGroups(entries, gs[1..]) + rest)
            && NormalGroups(entries, gs) == [Segment(NormalItems(entries, its))] + NormalGroups(entries, gs[1..])
    ensures Joined(PrintGroups(entries, gs[1..]) + rest)
  {
    hide Ordered, Pieces, Join, NormalItems;
    PiecesOrdered(entries, entries, gs[0].items);
    NormalOrdered(entries, entries, gs[0].items);
    assert PrintGroups(entries, gs[1..]) != [] ==> PrintGroups(entries, gs[1..])[0] == SOH;
  }

  /** The first group and the group after it. */
  lemma {:induction false} NextLayout(entries: seq<Entry>, gs: seq<Segment>, rest: Bytes)
    requires SchemaOk(entries) && |gs| > 1 && Joined(rest) && Typed(entries, gs[0]) && gs[0].items != []
    ensures PrintGroups(entries, gs) != [] && PrintGroups(entries, gs[1..]) != []
    ensures var next := PrintGroups(entries, gs[1..])[1..] + rest;
            && PrintGroups(entries, gs)[1..] + rest == Terminated(entries, Ordered(entries, gs[0].items)) + next
            && next == Join(Pieces(entries, Ordered(entries, gs[1].items))) +
              (PrintGroups(entries, gs[1..][1..]) + rest)
            && Joined(PrintGroups(entries, gs[1..][1..]) + rest)
  {
    hide PrintGroups, NormalGroups, Join, Pieces, Ordered, Terminated, SchemaOk, Typed, CleanItems, HeadTag, Position,
         NormalItems, Tags;
    var its := Ordered(entries, gs[0].items);
    GroupsLead(entries, gs);
    GroupsLead(entries, gs[1..]);
    GroupsLayout(entries, gs, rest);
    GroupsLayout(entries, gs[1..], rest);
    GroupInOrder(entries, gs[0]);
    TerminatedJoin(entries, its);
    var printed := PrintGroups(entries, gs[1..]);
    assert printed == [SOH] + printed[1..];
    Rejoin(Join(Pieces(entries, its)), printed[1..], rest);
  }

  lemma {:induction false} Rejoin(a: Bytes, b: Bytes, c: Bytes)
    ensures a + (([SOH] + b) + c) == (a + [SOH]) + (b + c)
  {
  }

  /** A clean group is read up to the group after it; it ends there only if that group starts inside it. */
  lemma {:induction false} FirstGroupRead(entries: seq<Entry>, gs: seq<Segment>, rest: Bytes)
    requires SchemaOk(entries) && |gs| > 1 && Joined(rest)
    requires (forall g :: g in gs ==> Typed(entries, g)) && gs[0].items != [] && CleanItems(entries, gs[0].items)
    ensures var b := PrintGroups(entries, gs)[1..] + rest;
            var next := PrintGroups(entries, gs[1..])[1..] + rest;
            var g := NormalItems(entries, Ordered(entries, gs[0].items));
            if gs[1].items == [] then
              Joined(next) && ParseItems(entries, b, []) == (if next == [] then Ok(|b|, g) else Error)
            else if StartsInside(entries, gs[0], gs[1]) then
              ParseItems(entries, b, []) == Ok(|b| - |next|, g) && next == b[|b| - |next|..]
            else
              Missed(ParseItems(entries, b, []), g)
  {
    hide PrintValue, ParseItems, ParseEntry, HeadTag, Position, NormalValue, NormalItems, InnerTags, TypedValue,
         Join, Pieces, Ordered, Terminated, SchemaOk, Lookup, CleanItems, PrintGroups, NormalGroups, Typed, Tags,
         DeepTags;
    var g := gs[0];
    var its, its1 := Ordered(entries, g.items), Ordered(entries, gs[1].items);
    NextLayout(entries, gs, rest);
    var next := PrintGroups(entries, gs[1..])[1..] + rest;
    var n := NormalItems(entries, its);
    GroupInOrder(entries, g);
    Associates(n, [], []);
    Parts(Terminated(entries, its), next);
    if gs[1].items == [] {
      OrderedNone(entries);
      JoinNil(entries);
      if next != [] {
        SohUnreadable(next);
        UnreadableFails(entries, next, n);
      } else {
        ParseItemsEnds(entries, next, n);
      }
      ItemsThrough(entries, g, its, [], next);
    } else {
      SecondGroup(entries, gs[1], PrintGroups(entries, gs[1..][1..]) + rest);
      var tag := its1[0].tag;
      ItemsThrough(entries, g, its, [], next);
      if HasTag(n, tag) {
        ParseItemsEnds(entries, next, n);
      } else {
        ParseItemsStep(entries, next, n, tag, Lookup(entries, tag).value);
      }
    }
  }

  lemma {:induction false} OrderedNone(entries: seq<Entry>)
    ensures Ordered<Value>(entries, []) == []
  {
    if entries != [] { OrderedNone(entries[1..]); }
  }

  /** A non-empty group starts with a tag of its own. */
  lemma {:induction false} SecondGroup(entries: seq<Entry>, g: Segment, rest: Bytes)
    requires SchemaOk(entries) && Typed(entries, g) && g.items != []
    ensures var its := Ordered(entries, g.items);
            var b := Join(Pieces(entries, its)) + rest;
            && its != [] && b != [] && HeadTag(b) == Some(its[0].tag)
            && Lookup(entries, its[0].tag).Some? && its[0].tag !in InnerTags(entries)
  {
    hide HeadTag, Position, InnerTags, Join, Pieces, Ordered, SchemaOk, TypedValue, CleanItems, NormalItems;
    var its := Ordered(entries, g.items);
    GroupInOrder(entries, g);
    JoinHead(entries, its, rest);
    assert its[0] in its && its[0] in g.items;
    TagOutside(entries, its[0].tag);
  }

  lemma {:induction false} JoinNil(entries: seq<Entry>)
    ensures Join(Pieces(entries, [])) == []
  {
  }

  lemma {:induction false} GroupsConverse(entries: seq<Entry>, gs: seq<Segment>, rest: Bytes)
    requires SchemaOk(entries) && gs != []
    requires (forall g :: g in gs ==> Typed(entries, g)) && !CleanGroups(entries, gs)
    requires Joined(rest)
    ensures Missed(ParseGroups(entries, PrintGroups(entries, gs)[1..] + rest, |gs|), NormalGroups(entries, gs))
    decreases gs, 1
  {
    hide PrintValue, ParseItems, ParseGroups, ParseEntry, Ordered, HeadTag, Position, NormalValue, NormalItems,
         InnerTags, Terminated, TypedValue, Lookup, SchemaOk, Join, Pieces, DeepTags, CleanItems;
    hide PrintGroups, NormalGroups;
    var g, tl := gs[0], gs[1..];
    var its := Ordered(entries, g.items);
    var n := NormalItems(entries, its);
    var after := PrintGroups(entries, tl) + rest;
    GroupsLead(entries, gs);
    var b := PrintGroups(entries, gs)[1..] + rest;
    GroupsLayout(entries, gs, rest);
    if g.items == [] {
      JoinNil(entries);
      GroupInOrder(entries, g);
      assert b == after;
      EmptyGroupFails(entries, after, |gs|);
    } else if CleanItems(entries, g.items) {
      LaterGroupsConverse(entries, gs, rest);
    } else {
      GroupInOrder(entries, g);
      JoinHead(entries, its, after);
      assert [] + n == n;
      ItemsConverse(entries, g, its, [], after);
      FirstGroupMissed(entries, b, |gs|, n, NormalGroups(entries, tl));
    }
  }

  /** The case that the first group is clean. */
  lemma {:induction false} LaterGroupsConverse(entries: seq<Entry>, gs: seq<Segment>, rest: Bytes)
    requires SchemaOk(entries) && gs != [] && gs[0].items != [] && CleanItems(entries, gs[0].items)
    requires (forall g :: g in gs ==> Typed(entries, g)) && !CleanGroups(entries, gs)
    requires Joined(rest)
    ensures Missed(ParseGroups(entries, PrintGroups(entries, gs)[1..] + rest, |gs|),
                   [Segment(NormalItems(entries, Ordered(entries, gs[0].items)))] + NormalGroups(entries, gs[1..]))
    decreases gs, 0
  {
    hide PrintValue, ParseItems, ParseGroups, ParseEntry, Ordered, HeadTag, Position, NormalValue, NormalItems,
         InnerTags, Terminated, TypedValue, Lookup, SchemaOk, Join, Pieces, DeepTags, CleanItems, NormalGroups;
    var g, tl := gs[0], gs[1..];
    var n := NormalItems(entries, Ordered(entries, g.items));
    var b := PrintGroups(entries, gs)[1..] + rest;
    assert tl != [] by { if tl == [] { EmptyGroupsClean(entries); } }
    FirstGroupRead(entries, gs, rest);
    var next := PrintGroups(entries, tl)[1..] + rest;
    assert b != [] by { NotNothing(entries, gs, rest); }
    if gs[1].items == [] {
      if next == [] {
        EmptyGroupFails(entries, next, |gs| - 1);
        LaterGroupMissed(entries, b, |gs|, |b|, n, NormalGroups(entries, tl));
      } else {
        FirstGroupMissed(entries, b, |gs|, n, NormalGroups(entries, tl));
      }
    } else if StartsInside(entries, g, gs[1]) {
      GroupsConverse(entries, tl, rest);
      LaterGroupMissed(entries, b, |gs|, |b| - |next|, n, NormalGroups(entries, tl));
    } else {
      FirstGroupMissed(entries, b, |gs|, n, NormalGroups(entries, tl));
    }
  }

  lemma {:induction false} NotNothing(entries: seq<Entry>, gs: seq<Segment>, rest: Bytes)
    requires SchemaOk(entries) && gs != [] && Typed(entries, gs[0]) && gs[0].items != []
    ensures PrintGroups(entries, gs)[1..] + rest != []
  {
    hide PrintValue, HeadTag, Position, InnerTags, SchemaOk, Lookup, Pieces, Join;
    var its := Ordered(entries, gs[0].items);
    GroupInOrder(entries, gs[0]);
    PiecesOrdered(entries, entries, gs[0].items);
    JoinHead(entries, its, []);
    assert Join(Pieces(entries, its)) + [] == Join(Pieces(entries, its));
  }
}
