/** The text of FIX fields and repeating groups, byte for byte. */
module FixText {
  import opened Bytes
  import opened FixCodec
  import opened FixRoundTrip

  // ---------------------------------------------------------------- fields

  /** 1=10, 1=-5, 1=Y and 1=N; a string is its characters. */
  lemma {:induction false} FieldBytes(s: Bytes)
    ensures PrintField(1, IntV(10)) == [49, 61, 49, 48] && PrintField(1, IntV(-5)) == [49, 61, 45, 53]
    ensures PrintField(1, BoolV(true)) == [49, 61, 89] && PrintField(1, BoolV(false)) == [49, 61, 78]
    ensures PrintField(1, StrV(s)) == [49, 61] + s
  {
    assert ShowInt(1) == [49] && ShowInt(-5) == [45, 53];
    assert ShowNat(1) == [49] && ShowInt(10) == [49, 48];
  }

  /** A number has an optional sign and at least one digit, and leading zeros do not matter. */
  lemma {:induction false} NumberRead()
    ensures ParseInt([49, 48]) == Some(10) && ParseInt([48, 48, 55]) == Some(7)
    ensures ParseInt([43, 53]) == Some(5) && ParseInt([45, 53]) == Some(-5)
    ensures ParseInt([]) == None && ParseInt([45]) == None && ParseInt([53, 97]) == None
  {
    OneDigit(49);
    OneDigit(53);
    assert [49, 48][..1] == [49] && DigitsValue([49, 48]) == 10;
    OneDigit(48);
    assert [48, 48, 55][..2] == [48, 48] && [48, 48][..1] == [48];
    assert DigitsValue([48, 48]) == 0 && DigitsValue([48, 48, 55]) == 7;
    assert [43, 53][1..] == [53] && [45, 53][1..] == [53] && [45][1..] == [];
    assert !AllDigits([53, 97]) by { assert !IsDigit([53, 97][1]); }
  }

  lemma {:induction false} OneDigit(c: byte)
    requires IsDigit(c)
    ensures DigitsValue([c]) == c - 48
  {
    assert [c][..0] == [];
  }

  /**
   * The value of a field stands between the first = and the first SOH. A string has to be ASCII and an integer a
   * number; a boolean is true for Y and false for anything else.
   */
  lemma {:induction false} FieldRead(name: Bytes, text: Bytes, rest: Bytes)
    requires 61 !in name && 1 !in name && 1 !in text
    ensures var b, size := name + [61] + text + [1] + rest, |name| + |text| + 2;
            && ParseField(FixString, b) == (if Ascii(text) then Ok(size, StrV(text)) else Error)
            && ParseField(FixBool, b) == Ok(size, BoolV(text == [89]))
            && ParseField(FixInt, b) == (if ParseInt(text).Some? then Ok(size, IntV(ParseInt(text).value)) else Error)
  {
    hide ParseInt, Ascii;
    ReadParts(name, text, [1] + rest);
    var b := name + [61] + text + [1] + rest;
    assert b == name + [61] + text + ([1] + rest);
    Parts(name + [61] + text, [1] + rest);
    assert b[|name| + |text| + 1] == 1;
    assert Find(b, SOH, 0) == |name| + |text| + 1;
  }

  /** The last field of all may lack its SOH. */
  lemma {:induction false} LastFieldRead(name: Bytes, text: Bytes)
    requires 61 !in name && 1 !in name && 1 !in text
    ensures var b, size := name + [61] + text, |name| + |text| + 1;
            && ParseField(FixString, b) == (if Ascii(text) then Ok(size, StrV(text)) else Error)
            && ParseField(FixBool, b) == Ok(size, BoolV(text == [89]))
            && ParseField(FixInt, b) == (if ParseInt(text).Some? then Ok(size, IntV(ParseInt(text).value)) else Error)
  {
    hide ParseInt, Ascii;
    ReadParts(name, text, []);
    var b := name + [61] + text;
    assert b + [] == b;
    assert Find(b, SOH, 0) == -1;
  }

  lemma {:induction false} ReadParts(name: Bytes, text: Bytes, rest: Bytes)
    requires 61 !in name && 1 !in name && 1 !in text
    ensures var b := name + [61] + text + rest;
            && Find(b, EQUALS, 0) == |name| && Slice(b, |name| + 1, |name| + |text| + 1) == text
            && forall i :: 0 <= i < |name| + |text| + 1 ==> b[i] != SOH
  {
    var b := name + [61] + text + rest;
    assert b[|name|] == 61 && forall i :: 0 <= i < |name| ==> b[i] == name[i];
    assert b[|name| + 1..|name| + |text| + 1] == text;
    forall i | 0 <= i < |name| + |text| + 1 ensures b[i] != SOH {
      if i > |name| { assert b[i] == text[i - |name| - 1]; }
    }
  }

  /** Without an = there is no field. */
  lemma {:induction false} NotAField(t: FieldType, b: Bytes)
    ensures 61 !in b ==> ParseField(t, b) == Error
  {
  }

  // ---------------------------------------------------------------- groups

  const SYMBOL: Entry := FieldEntry(55, FixString)
  const SIDE: Entry := FieldEntry(54, FixInt)
  const ORDERS: Entry := GroupEntry(146, Schema([SYMBOL, SIDE]))

  function Order(symbol: byte, side: int): Segment {
    Segment([Tagged(54, FieldVal(IntV(side))), Tagged(55, FieldVal(StrV([symbol])))])
  }

  /**
   * Two groups, printed as 146=2, 55=A, 54=1, 55=B and 54=2 with an SOH between each: the count comes first, and the
   * fields of a group in the order of its definition, whatever the order they were set in.
   */
  lemma {:induction false} GroupBytes()
    ensures PrintValue(146, Some(ORDERS), Groups([Order(65, 1), Order(66, 2)])) ==
            [49, 52, 54, 61, 50, 1, 53, 53, 61, 65, 1, 53, 52, 61, 49, 1, 53, 53, 61, 66, 1, 53, 52, 61, 50]
  {
    hide ShowInt, ShowNat, PrintGroups, PrintField;
    TwoGroups();
    assert PrintField(146, IntV(2)) == [49, 52, 54, 61, 50] by { Count(); }
  }

  lemma {:induction false} TwoGroups()
    ensures PrintGroups(ORDERS.group.entries, [Order(65, 1), Order(66, 2)]) ==
            [1, 53, 53, 61, 65, 1, 53, 52, 61, 49, 1, 53, 53, 61, 66, 1, 53, 52, 61, 50]
  {
    hide ShowInt, ShowNat, Join, Pieces, Ordered, PrintGroups;
    var e, gs := ORDERS.group.entries, [Order(65, 1), Order(66, 2)];
    GroupText(65, 1);
    GroupText(66, 2);
    NextGroup(e, gs);
    NextGroup(e, [Order(66, 2)]);
    assert gs[1..] == [Order(66, 2)] && [Order(66, 2)][1..] == [];
    assert PrintGroups(e, [Order(66, 2)]) == [1, 53, 53, 61, 66, 1, 53, 52, 61, 50];
  }

  lemma {:induction false} Count()
    ensures PrintField(146, IntV(2)) == [49, 52, 54, 61, 50]
  {
    Numbers();
  }

  lemma {:induction false} NextGroup(e: seq<Entry>, gs: seq<Segment>)
    requires gs != []
    ensures PrintGroups(e, gs) == [SOH] + Join(Ordered(e, Pieces(e, gs[0].items))) + PrintGroups(e, gs[1..])
    ensures PrintGroups(e, []) == []
  {
    hide Join, Pieces, Ordered;
  }

  lemma {:induction false} Numbers()
    ensures ShowInt(146) == [49, 52, 54] && ShowInt(55) == [53, 53] && ShowInt(54) == [53, 52]
    ensures ShowInt(1) == [49] && ShowInt(2) == [50]
  {
    assert ShowNat(1) == [49] && ShowNat(14) == [49, 52] && ShowNat(5) == [53];
  }

  lemma {:induction false} GroupText(symbol: byte, side: int)
    requires side == 1 || side == 2
    ensures Join(Ordered(ORDERS.group.entries, Pieces(ORDERS.group.entries, Order(symbol, side).items))) ==
            [53, 53, 61, symbol, 1, 53, 52, 61, 48 + side]
  {
    hide ShowInt, ShowNat, Join, Pieces, Ordered;
    Numbers();
    var e, its := ORDERS.group.entries, Order(symbol, side).items;
    assert e[..1] == [SYMBOL];
    assert Lookup(e, 54) == Some(SIDE) && Lookup(e, 55) == Some(SYMBOL);
    var x: Bytes, y: Bytes := [53, 52, 61, 48 + side], [53, 53, 61, symbol];
    TwoPieces(e, its);
    assert PrintValue(54, Some(SIDE), FieldVal(IntV(side))) == x by { assert PrintField(54, IntV(side)) == x; }
    assert PrintValue(55, Some(SYMBOL), FieldVal(StrV([symbol]))) == y by {
      assert PrintField(55, StrV([symbol])) == y;
    }
    assert Pieces(e, its) == [Tagged(54, x), Tagged(55, y)];
    Reordered(x, y);
  }

  lemma {:induction false} TwoPieces(e: seq<Entry>, its: seq<Tagged<Value>>)
    requires |its| == 2
    ensures Pieces(e, its) == [Tagged(its[0].tag, PrintValue(its[0].tag, Lookup(e, its[0].tag), its[0].value)),
                               Tagged(its[1].tag, PrintValue(its[1].tag, Lookup(e, its[1].tag), its[1].value))]
  {
    PiecesAt(e, its, 0);
    PiecesAt(e, its, 1);
  }

  lemma {:induction false} Reordered(x: Bytes, y: Bytes)
    ensures Join(Ordered(ORDERS.group.entries, [Tagged(54, x), Tagged(55, y)])) == y + [1] + x
  {
    var e, ps := ORDERS.group.entries, [Tagged(54, x), Tagged(55, y)];
    assert ps[..1] == [Tagged(54, x)];
    assert Position(ps, 55) == 1 && Position(ps, 54) == 0;
    assert e[1..] == [SIDE] && e[1..][1..] == [];
    assert Ordered(e[1..], ps) == [ps[0]];
    assert Ordered(e, ps) == [ps[1], ps[0]];
    assert [ps[1], ps[0]][1..] == [ps[0]];
  }
}
