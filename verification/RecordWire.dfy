/** The bytes of encoded values: numbers, strings, fixed strings, and the records of a small class. */
module RecordWire {
  import opened Bytes
  import opened Text
  import opened BinaryInt
  import opened RecordCodec
  import opened RecordRoundTrip
  import opened RecordDefaults

  // ---------------------------------------------------------------- numbers

  /** The digits of `n` to the base 256, the lowest first. */
  lemma {:induction false} LittleDigit(n: nat, k: nat, i: nat)
    requires i < k
    ensures Little(n, k)[i] == n / Pow256(i) % 256
    decreases i
  {
    if i > 0 {
      LittleDigit(n / 256, k - 1, i - 1);
      Quotients(n, Pow256(i - 1));
    } else {
      assert Pow256(0) == 1;
    }
  }

  lemma {:induction false} Quotients(n: nat, p: nat)
    requires p > 0
    ensures n / 256 / p == n / (256 * p)
  {
    var a := n / 256;
    var q, r := a / p, a % p;
    assert a == q * p + r;
    Quotient(n, 256 * p, q, 256 * r + n % 256);
  }

  lemma {:induction false} Quotient(n: nat, d: nat, q: nat, r: nat)
    requires n == q * d + r && r < d
    ensures n / d == q
  {
    var e := n / d - q;
    assert e * d == r - n % d;
    Multiples(e, d);
  }

  lemma {:induction false} Multiples(e: int, d: nat)
    ensures (e >= 1 ==> e * d >= d) && (e <= -1 ==> e * d <= -(d as int))
  {
    if e >= 1 { assert (e - 1) * d >= 0; } else if e <= -1 { assert (e + 1) * d <= 0; }
  }

  /** An integer in range is the base 256 digits of its two's complement, in the order of the type. */
  lemma {:induction false} IntDigits(t: IntType, n: int, i: nat)
    requires InRange(t, n) && i < t.size
    ensures var b := PackInt(t, n).value;
            var u: nat := if n < 0 then n + Pow256(t.size) else n;
            b[if t.bigEndian then t.size - 1 - i else i] == u / Pow256(i) % 256
  {
    hide Pow256;
    LittleDigit(if n < 0 then n + Pow256(t.size) else n, t.size, i);
  }

  /** The range of a type, for the sizes there are. */
  lemma {:induction false} Ranges(n: int)
    ensures InRange(IntType(1, false, false), n) <==> 0 <= n < 256
    ensures InRange(SHORT, n) <==> -32768 <= n < 32768
    ensures InRange(IntType(2, false, false), n) <==> 0 <= n < 65536
    ensures InRange(IntType(4, true, false), n) <==> -2147483648 <= n < 2147483648
    ensures InRange(IntType(4, false, false), n) <==> 0 <= n < 4294967296
  {
    Powers();
  }

  lemma {:induction false} Powers()
    ensures Pow256(0) == 1 && Pow256(1) == 256 && Pow256(2) == 65536 && Pow256(3) == 16777216
    ensures Pow256(4) == 4294967296
  {
    assert Pow256(1) == 256 * Pow256(0) && Pow256(2) == 256 * Pow256(1) && Pow256(3) == 256 * Pow256(2);
  }

  /** 456 and -456 in four bytes, either way round. */
  lemma {:induction false} FourBytes()
    ensures PackInt(IntType(4, true, false), 456) == Some([200, 1, 0, 0])
    ensures PackInt(IntType(4, true, true), 456) == Some([0, 0, 1, 200])
    ensures PackInt(IntType(4, true, false), -456) == Some([56, 254, 255, 255])
    ensures PackInt(IntType(4, true, true), -456) == Some([255, 255, 254, 56])
  {
    hide Pow256;
    Ranges(456);
    Ranges(-456);
    Powers();
    LittleFour(456);
    LittleFour(4294966840);
  }

  lemma {:induction false} LittleFour(n: nat)
    ensures Little(n, 4) == [n % 256, n / 256 % 256, n / 256 / 256 % 256, n / 256 / 256 / 256 % 256]
    ensures Reverse(Little(n, 4)) == [n / 256 / 256 / 256 % 256, n / 256 / 256 % 256, n / 256 % 256, n % 256]
  {
    assert Little(n / 256 / 256 / 256, 1) == [n / 256 / 256 / 256 % 256];
    assert Little(n / 256 / 256, 2) == [n / 256 / 256 % 256, n / 256 / 256 / 256 % 256];
  }

  // ---------------------------------------------------------------- strings

  /** A string is two bytes of length, the low one first, and its characters; what is not ASCII may be refused. */
  lemma {:induction false} TextBytes(ascii: bool, s: Bytes)
    ensures var e := Encode(TText(ascii), VText(s));
            if |s| <= 32767 && (ascii ==> Ascii(s))
            then |s| < 65536 && e == Encoded(2 + |s|, [|s| % 256, |s| / 256] + s)
            else e == Refused
  {
    hide Pow256, Ascii;
    Powers();
    if |s| < 65536 { LittleTwo(|s|); }
  }

  lemma {:induction false} LittleTwo(n: nat)
    requires n < 65536
    ensures Little(n, 2) == [n % 256, n / 256]
  {
    assert Little(n / 256, 1) == [n / 256];
  }

  /** A fixed string has its blanks at its right, or at its left if it is right-justified; a longer one is not cut. */
  lemma {:induction false} FixedBytes(ascii: bool, n: nat, right: bool, s: Bytes)
    ensures var e := Encode(TFixed(ascii, n, right), VText(s));
            if ascii && !Ascii(s) then e == Refused
            else
              && e.Encoded? && e.claimed == n && |e.bytes| == (if |s| > n then |s| else n)
              && (var blanks := |e.bytes| - |s|;
                  forall i :: 0 <= i < |e.bytes| ==>
                    e.bytes[i] == if right then (if i < blanks then 32 else s[i - blanks])
                                  else if i < |s| then s[i] else 32)
  {
    hide Ascii;
  }

  /** Blanks at both ends of a fixed string are dropped when it is read. */
  lemma {:induction false} FixedRead()
    ensures Decode(TFixed(true, 4, false), [32, 97, 32, 32, 99]) == Decoded(4, VText([97]))
    ensures Decode(TFixed(true, 4, true), [32, 32, 97, 98]) == Decoded(4, VText([97, 98]))
  {
    var b: Bytes, c: Bytes := [32, 97, 32, 32], [32, 32, 97, 98];
    assert First([32, 97, 32, 32, 99], 4) == b && First(c, 4) == c;
    BlanksOff();
  }

  lemma {:induction false} BlanksOff()
    ensures Strip([32, 97, 32, 32], Blank) == [97] && Strip([32, 32, 97, 98], Blank) == [97, 98]
  {
    var b: Bytes, c: Bytes := [32, 97, 32, 32], [32, 32, 97, 98];
    assert b[1..] == [97, 32, 32] && [97, 32, 32][..2] == [97, 32] && [97, 32][..1] == [97];
    assert c[1..] == [32, 97, 98] && c[1..][1..] == [97, 98];
    assert StripRight([97], Blank) == [97] && StripRight([97, 32], Blank) == [97];
  }

  /** One byte each: a boolean is 1 or 0, a character is the first of its string, and only 1 is read as true. */
  lemma {:induction false} OneByte(b: bool, ascii: bool, c: byte, s: Bytes)
    ensures Encode(TBool, VBool(b)) == Encoded(1, if b then [1] else [0])
    ensures Decode(TBool, [c] + s) == Decoded(1, VBool(c == 1))
    ensures Encode(TChar(ascii), VText([c] + s)) == if ascii && c >= 128 then Refused else Encoded(1, [c])
    ensures Decode(TChar(ascii), [c] + s) == if ascii && c >= 128 then Raised else Decoded(1, VText([c]))
  {
    assert First([c] + s, 1) == [c];
  }

  // ---------------------------------------------------------------- input that ends too soon

  /** An integer is made of the bytes there are. */
  lemma {:induction false} ShortInteger()
    ensures UnpackInt(IntType(4, true, false), []) == 0 && UnpackInt(IntType(4, true, false), [5]) == 5
    ensures UnpackInt(IntType(4, true, false), [255]) == -1 && UnpackInt(IntType(4, false, false), [255]) == 255
    ensures UnpackInt(IntType(4, false, true), [1, 2]) == 258 && UnpackInt(IntType(4, false, false), [1, 2]) == 513
  {
    hide Pow256, FromLittle, Reverse;
    Powers();
    FromTwo(1, 2);
    FromTwo(255, 0);
    FromTwo(5, 0);
    FromNone();
  }

  lemma {:induction false} FromNone()
    ensures FromLittle([]) == 0
  {
  }

  /** A count or a length below zero reads nothing, and a string too short for its length is what there is of it. */
  lemma {:induction false} ShortInput()
    ensures Decode(TArray(TBool, SHORT), [255, 255, 1]) == Decoded(2, VArray([]))
    ensures Decode(TText(true), [255, 255, 97]) == Decoded(1, VText([]))
    ensures Decode(TText(true), [2, 0, 97]) == Decoded(4, VText([97]))
  {
    hide UnpackInt;
    var b: Bytes, c: Bytes, d: Bytes := [255, 255, 1], [255, 255, 97], [2, 0, 97];
    TwoBytes(255, 255, 1);
    TwoBytes(255, 255, 97);
    TwoBytes(2, 0, 97);
    NoElems(TBool, b, 2, -1, []);
    assert Upto(c, 1) == [255] && From([255], 2) == [] && From(d, 2) == [97];
  }

  lemma {:induction false} TwoBytes(a: byte, b: byte, c: byte)
    ensures var u := a as int + 256 * b;
            UnpackInt(SHORT, [a, b, c]) == if u >= 32768 then u - 65536 else u
  {
    hide Pow256, FromLittle;
    Powers();
    FromTwo(a, b);
    assert First([a, b, c], 2) == [a, b];
  }

  lemma {:induction false} FromTwo(a: byte, b: byte)
    ensures FromLittle([a, b]) == a as int + 256 * b && FromLittle(Reverse([a, b])) == b as int + 256 * a
    ensures FromLittle([a]) == a as int && FromLittle(Reverse([a])) == a as int
  {
    assert [a, b][1..] == [b] && [b][1..] == [] && [b, a][1..] == [a] && [a][1..] == [];
    assert Reverse([a, b]) == [b, a] && Reverse([a]) == [a];
  }

  // ---------------------------------------------------------------- defaults

  /** A number of four bytes that is not set: its own default if it has one, and 0 if it has none. */
  lemma {:induction false} Quantity()
    ensures Encode(TRecord([Field("qty", TInt(IntType(4, true, false)), Some(VInt(5)))], false), VRecord(map[]))
            == Encoded(4, [5, 0, 0, 0])
    ensures Encode(TRecord([Field("qty", TInt(IntType(4, true, false)), Some(VInt(5)))], false),
                   VRecord(map["qty" := VInt(0)])) == Encoded(4, [0, 0, 0, 0])
    ensures Encode(TRecord([Field("qty", TInt(IntType(4, true, false)), None)], false), VRecord(map[]))
            == Encoded(4, [0, 0, 0, 0])
  {
    hide Encode, InRange, Little;
    var t := TInt(IntType(4, true, false));
    assert Encode(t, VInt(5)) == Encoded(4, [5, 0, 0, 0]) && Encode(t, VInt(0)) == Encoded(4, [0, 0, 0, 0]) by {
      Ranges(5);
      Ranges(0);
      LittleFour(5);
      LittleFour(0);
      SmallInt(t.format, 5);
      SmallInt(t.format, 0);
    }
    OneField(Field("qty", t, Some(VInt(5))), map[]);
    OneField(Field("qty", t, Some(VInt(5))), map["qty" := VInt(0)]);
    OneField(Field("qty", t, None), map[]);
  }

  lemma {:induction false} SmallInt(i: IntType, n: nat)
    requires InRange(i, n) && !i.bigEndian
    ensures Encode(TInt(i), VInt(n)) == Encoded(i.size, Little(n, i.size))
  {
    hide InRange;
  }

  lemma {:induction false} OneField(f: Field, m: map<string, Val>)
    ensures Encode(TRecord([f], false), VRecord(m)) == Encode(f.kind, FieldValue(f, m)) ||
            Encode(f.kind, FieldValue(f, m)).Refused?
  {
    hide Encode, FieldValue;
    assert [f][1..] == [];
    var e := Encode(f.kind, FieldValue(f, m));
    TopLevel([f], VRecord(m), []);
    if e.Encoded? { assert e.bytes + [] == e.bytes; }
  }

  /** Without any field there is nothing to add up. */
  lemma {:induction false} NoFieldsRefused(present: bool, v: Val)
    ensures Encode(TRecord([], false), v) == Refused
    ensures !Absent(v) ==> Encode(TRecord([], present), v) == Refused
  {
  }

  // ---------------------------------------------------------------- records in records

  const FIELDS: seq<Field> :=
    [Field("byte", TInt(IntType(1, false, false)), None), Field("short", TInt(SHORT), None),
     Field("string", TText(true), None)]

  const VALUES: Val := VRecord(map["byte" := VInt(2), "short" := VInt(5), "string" := VText([116, 101, 115, 116])])

  /** 2 in one byte, 5 in two, the length 4 in two, and `test`. */
  const PRINTED: Bytes := [2, 5, 0, 4, 0, 116, 101, 115, 116]

  lemma {:induction false} ThreeFields()
    ensures EncodeRecord(FIELDS, VALUES) == Encoded(9, PRINTED)
  {
    hide Encode, InRange;
    var m := VALUES.values;
    Ranges(2);
    Ranges(5);
    Ranges(4);
    LittleTwo(5);
    LittleTwo(4);
    SmallInt(IntType(1, false, false), 2);
    SmallInt(SHORT, 5);
    assert Little(2, 1) == [2];
    TextBytes(true, [116, 101, 115, 116]);
    var s: Bytes := [4, 0] + [116, 101, 115, 116];
    assert FIELDS[1..] == [FIELDS[1], FIELDS[2]] && FIELDS[1..][1..] == [FIELDS[2]];
    assert FIELDS[1..][1..][1..] == [];
    assert EncodeFields([], m) == Encoded(0, []);
    assert EncodeFields(FIELDS[1..][1..], m) == Encoded(6, s) by { assert s + [] == s; }
    assert EncodeFields(FIELDS[1..], m) == Encoded(8, [5, 0] + s);
    assert [2] + ([5, 0] + s) == PRINTED;
  }

  /**
   * A record is its fields one after the other; a present bit stands before it, but in an array only the number of
   * elements does, in two bytes.
   */
  lemma {:induction false} SampleBytes()
    ensures Encode(TRecord(FIELDS, false), VALUES) == Encoded(9, PRINTED)
    ensures Encode(TRecord(FIELDS, true), VALUES) == Encoded(10, [1] + PRINTED)
    ensures Encode(TRecord([Field("record", TRecord(FIELDS, true), None)], true), VRecord(map["record" := VALUES]))
            == Encoded(11, [1, 1] + PRINTED)
    ensures Encode(TRecord([Field("records", TArray(TRecord(FIELDS, true), SHORT), None)], true),
                   VRecord(map["records" := VArray([VALUES, VALUES])])) == Encoded(21, [1, 2, 0] + PRINTED + PRINTED)
  {
    hide EncodeFields, InRange, PackInt;
    ThreeFields();
    var one := TRecord(FIELDS, true);
    var f, g := Field("record", one, None), Field("records", TArray(one, SHORT), None);
    var m, n := map["record" := VALUES], map["records" := VArray([VALUES, VALUES])];
    assert "byte" in VALUES.values;
    Behind(FIELDS, VALUES);
    OneField(f, m);
    assert [1] + ([1] + PRINTED) == [1, 1] + PRINTED;
    TwoElements();
    OneField(g, n);
    assert [1] + ([2, 0] + PRINTED + PRINTED) == [1, 2, 0] + PRINTED + PRINTED;
    Behind([f], VRecord(m));
    Behind([g], VRecord(n));
  }

  lemma {:induction false} Behind(fields: seq<Field>, v: Val)
    requires v.VRecord? && v.values != map[]
    ensures var e := Encode(TRecord(fields, false), v);
            Encode(TRecord(fields, true), v) == if e.Refused? then e else Encoded(1 + e.claimed, [1] + e.bytes)
  {
    hide EncodeFields;
  }

  lemma {:induction false} TwoElements()
    ensures Encode(TArray(TRecord(FIELDS, true), SHORT), VArray([VALUES, VALUES])) ==
            Encoded(20, [2, 0] + PRINTED + PRINTED)
  {
    hide EncodeRecord, InRange;
    ThreeFields();
    Ranges(2);
    LittleTwo(2);
    var t := TRecord(FIELDS, true);
    assert EncodeElem(t, VALUES) == Encoded(9, PRINTED);
    assert [VALUES, VALUES][1..] == [VALUES] && [VALUES][1..] == [];
    assert EncodeElems(t, []) == Encoded(0, []);
    assert EncodeElems(t, [VALUES]) == Encoded(9, PRINTED) by { assert PRINTED + [] == PRINTED; }
    assert EncodeElems(t, [VALUES, VALUES]) == Encoded(18, PRINTED + PRINTED);
    assert [2, 0] + (PRINTED + PRINTED) == [2, 0] + PRINTED + PRINTED;
  }

  /** The same bytes are read as the same values. */
  lemma {:induction false} SampleRead(rest: Bytes)
    ensures Decode(TRecord(FIELDS, false), PRINTED + rest) == Decoded(9, VALUES)
    ensures Decode(TRecord(FIELDS, true), [1] + PRINTED + rest) == Decoded(10, VALUES)
    ensures Decode(TRecord(FIELDS, true), [0] + rest) == Decoded(1, VNone)
  {
    hide Encode, Decode, Survives, ComesBack;
    SampleBytes();
    SampleKind(false);
    SampleKind(true);
    DecodedIs(TRecord(FIELDS, false), VALUES, rest, VALUES);
    DecodedIs(TRecord(FIELDS, true), VALUES, rest, VALUES);
    AbsentRead(rest);
  }

  lemma {:induction false} AbsentRead(rest: Bytes)
    ensures Decode(TRecord(FIELDS, true), [0] + rest) == Decoded(1, VNone)
  {
    hide DecodeFields;
    assert First([0] + rest, 1) == [0];
  }

  lemma {:induction false} SampleKind(present: bool)
    ensures KindOk(TRecord(FIELDS, present)) && Survives(TRecord(FIELDS, present), VALUES)
    ensures ComesBack(TRecord(FIELDS, present), VALUES, VALUES)
  {
    hide FieldsComeBack, FieldsSurvive;
    SampleFields();
    SampleNames();
    assert "byte" in VALUES.values;
    assert FIELDS[0].name == "byte" && FIELDS[1].name == "short" && FIELDS[2].name == "string";
    assert forall i :: 0 <= i < |FIELDS| ==> KindOk(FIELDS[i].kind);
  }

  lemma {:induction false} SampleNames()
    ensures RecordComesBack(FIELDS, VALUES, VALUES)
  {
    hide FieldsComeBack;
    SampleFields();
    var m := VALUES.values;
    assert FIELDS[0].name == "byte" && FIELDS[1].name == "short" && FIELDS[2].name == "string";
    forall name | name in m ensures exists i :: 0 <= i < |FIELDS| && FIELDS[i].name == name {
      var i := if name == "byte" then 0 else if name == "short" then 1 else 2;
      assert FIELDS[i].name == name;
    }
  }

  lemma {:induction false} SampleFields()
    ensures FieldsComeBack(FIELDS, VALUES.values, VALUES.values) && FieldsSurvive(FIELDS, VALUES.values)
  {
    var m := VALUES.values;
    assert "byte" in m && "short" in m && "string" in m;
    forall i | 0 <= i < |FIELDS|
      ensures FIELDS[i].name in m && ComesBack(FIELDS[i].kind, m[FIELDS[i].name], m[FIELDS[i].name])
      ensures Survives(FIELDS[i].kind, FieldValue(FIELDS[i], m))
    {
    }
    hide ComesBack, Survives;
    assert FieldsComeBack(FIELDS, m, m);
  }
}
