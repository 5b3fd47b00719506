/** What an encoded record looks like when it is decoded, field by field, told without the codec's own functions. */
module RecordDefaults {
  import opened Bytes
  import opened BinaryInt
  import opened RecordCodec
  import opened RecordRoundTrip

  // ---------------------------------------------------------------- what comes back

  /** What a field without a default of its own is when nothing was set. */
  predicate Initial(t: Kind, y: Val) {
    match t
    case TBool => y == VBool(false)
    case TInt(_) => y == VInt(0)
    case TChar(_) => y == VText([32])
    case TText(_) => y == VText([])
    case TFixed(_, _, _) => y == VText([])
    case TRecord(_, present) => present && y == VNone
    case TArray(_, _) => y == VArray([])
  }

  /** `x`, which was encoded, comes back as `y`. */
  predicate ComesBack(t: Kind, x: Val, y: Val)
    decreases t, 1, 0
  {
    match t
    case TBool => x.VBool? && y == x
    case TInt(_) => x.VInt? && y == x
    case TChar(_) => x.VText? && x.s != [] && y == VText([x.s[0]])
    case TText(_) => x.VText? && y == x
    case TFixed(_, _, _) => x.VText? && y == x
    case TRecord(fields, present) =>
      if present && (x == VNone || x == VRecord(map[])) then y == VNone else RecordComesBack(fields, x, y)
    case TArray(elem, _) =>
      && x.VArray? && y.VArray? && |y.elems| == |x.elems|
      && forall i :: 0 <= i < |x.elems| ==> ElemComesBack(elem, x.elems[i], y.elems[i])
  }

  predicate ElemComesBack(elem: Kind, x: Val, y: Val)
    decreases elem, 2, 0
  {
    if elem.TRecord? then RecordComesBack(elem.fields, x, y) else ComesBack(elem, x, y)
  }

  /** Exactly the fields of the class have a value. */
  predicate RecordComesBack(fields: seq<Field>, x: Val, y: Val)
    decreases fields, 1, 0
  {
    && x.VRecord? && y.VRecord?
    && (forall name :: name in y.values ==> exists i :: 0 <= i < |fields| && fields[i].name == name)
    && FieldsComeBack(fields, x.values, y.values)
  }

  /** A field set is as it was set, a field not set is its default, or else what its type starts with. */
  predicate FieldsComeBack(fields: seq<Field>, m: map<string, Val>, n: map<string, Val>)
    decreases fields, 0, 0
  {
    forall i :: 0 <= i < |fields| ==>
      var f := fields[i];
      assert f.kind < f;
      && f.name in n
      && if f.name in m then ComesBack(f.kind, m[f.name], n[f.name])
         else if f.default.Some? then ComesBack(f.kind, f.default.value, n[f.name])
         else Initial(f.kind, n[f.name])
  }

  // ---------------------------------------------------------------- it does

  /** A field of an encoded record was encoded itself. */
  lemma {:induction false} FieldEncoded(fields: seq<Field>, m: map<string, Val>, i: nat)
    requires i < |fields| && EncodeFields(fields, m).Encoded?
    ensures Encode(fields[i].kind, FieldValue(fields[i], m)).Encoded?
    decreases i
  {
    hide Encode, FieldValue;
    if i > 0 { FieldEncoded(fields[1..], m, i - 1); }
  }

  lemma {:induction false} ElemEncoded(elem: Kind, vs: seq<Val>, i: nat)
    requires i < |vs| && EncodeElems(elem, vs).Encoded?
    ensures EncodeElem(elem, vs[i]).Encoded?
    decreases i
  {
    hide EncodeElem;
    if i > 0 { ElemEncoded(elem, vs[1..], i - 1); }
  }

  lemma {:induction false} NormalElemAt(elem: Kind, vs: seq<Val>, i: nat)
    requires i < |vs|
    ensures NormalElems(elem, vs)[i] == NormalElem(elem, vs[i])
    decreases i
  {
    hide NormalElem;
    if i > 0 { NormalElemAt(elem, vs[1..], i - 1); }
  }

  lemma {:induction false} NormalKeys(fields: seq<Field>, m: map<string, Val>, name: string)
    requires name in NormalFields(fields, m)
    ensures exists i :: 0 <= i < |fields| && fields[i].name == name
  {
    if forall i :: 0 <= i < |fields| ==> fields[i].name != name { NormalNames(fields, m, name); }
  }

  lemma {:induction false} NormalFieldAt(fields: seq<Field>, m: map<string, Val>, f: Field)
    requires FieldsOk(fields) && f in fields
    ensures f.name in NormalFields(fields, m)
    ensures NormalFields(fields, m)[f.name] == Normal(f.kind, FieldValue(f, m))
  {
    hide Normal, FieldsOk, NormalFields;
    NormalNamed(fields, m, f);
    NormalFieldValues(fields, m);
    Set(f, NormalFields(fields, m));
  }

  lemma {:induction false} Set(f: Field, n: map<string, Val>)
    requires f.name in n
    ensures FieldValue(f, n) == n[f.name]
  {
  }

  lemma {:induction false} NormalComesBack(t: Kind, v: Val)
    requires KindOk(t) && Encode(t, v).Encoded? && Survives(t, v)
    ensures ComesBack(t, v, Normal(t, v))
    decreases t, 1, 0
  {
    hide PackInt, EncodeRecord, EncodeElems, NormalRecord, NormalElems, Justify, FieldsSurvive, RecordComesBack,
         ElemComesBack, ElemSurvives;
    match t
    case TRecord(fields, present) =>
      if !(present && Absent(v)) { RecordBack(fields, v); }
    case TArray(elem, count) =>
      forall i | 0 <= i < |v.elems| ensures ElemComesBack(elem, v.elems[i], NormalElems(elem, v.elems)[i]) {
        ElemEncoded(elem, v.elems, i);
        NormalElemAt(elem, v.elems, i);
        ElemBack(elem, v.elems[i]);
      }
    case _ =>
  }

  lemma {:induction false} ElemBack(elem: Kind, v: Val)
    requires KindOk(elem) && EncodeElem(elem, v).Encoded? && ElemSurvives(elem, v)
    ensures ElemComesBack(elem, v, NormalElem(elem, v))
    decreases elem, 2, 0
  {
    hide EncodeRecord, NormalRecord, FieldsSurvive, RecordComesBack, ComesBack, Normal, Encode, Survives;
    if elem.TRecord? { RecordBack(elem.fields, v); } else { NormalComesBack(elem, v); }
  }

  lemma {:induction false} RecordBack(fields: seq<Field>, v: Val)
    requires FieldsOk(fields) && EncodeRecord(fields, v).Encoded? && v.VRecord? && FieldsSurvive(fields, v.values)
    ensures RecordComesBack(fields, v, NormalRecord(fields, v))
    decreases fields, 1, 0
  {
    hide Encode, EncodeFields, Normal, NormalFields, Survives, ComesBack, Initial;
    var m := v.values;
    var n := NormalFields(fields, m);
    forall name | name in n ensures exists i :: 0 <= i < |fields| && fields[i].name == name {
      NormalKeys(fields, m, name);
    }
    forall i | 0 <= i < |fields|
      ensures var f := fields[i];
              && f.name in n
              && if f.name in m then ComesBack(f.kind, m[f.name], n[f.name])
                 else if f.default.Some? then ComesBack(f.kind, f.default.value, n[f.name])
                 else Initial(f.kind, n[f.name])
    {
      var f := fields[i];
      assert f.kind < f;
      FieldEncoded(fields, m, i);
      NormalFieldAt(fields, m, f);
      NormalComesBack(f.kind, FieldValue(f, m));
      if f.name !in m && f.default.None? { InitialBack(f, m); }
    }
  }

  lemma {:induction false} InitialBack(f: Field, m: map<string, Val>)
    requires f.name !in m && f.default.None? && Encode(f.kind, FieldValue(f, m)).Encoded?
    ensures Initial(f.kind, Normal(f.kind, FieldValue(f, m)))
  {
    hide EncodeFields, PackInt;
  }

  /** What comes back is determined. */
  lemma {:induction false} OnlyOne(t: Kind, x: Val, y: Val, z: Val)
    requires ComesBack(t, x, y) && ComesBack(t, x, z)
    ensures y == z
    decreases t, 1, 0
  {
    hide RecordComesBack, ElemComesBack;
    match t
    case TRecord(fields, present) =>
      if !(present && (x == VNone || x == VRecord(map[]))) { OnlyRecord(fields, x, y, z); }
    case TArray(elem, _) =>
      forall i | 0 <= i < |x.elems| ensures y.elems[i] == z.elems[i] {
        OnlyElem(elem, x.elems[i], y.elems[i], z.elems[i]);
      }
      assert y.elems == z.elems;
    case _ =>
  }

  lemma {:induction false} OnlyElem(elem: Kind, x: Val, y: Val, z: Val)
    requires ElemComesBack(elem, x, y) && ElemComesBack(elem, x, z)
    ensures y == z
    decreases elem, 2, 0
  {
    hide RecordComesBack, ComesBack;
    if elem.TRecord? { OnlyRecord(elem.fields, x, y, z); } else { OnlyOne(elem, x, y, z); }
  }

  lemma {:induction false} OnlyRecord(fields: seq<Field>, x: Val, y: Val, z: Val)
    requires RecordComesBack(fields, x, y) && RecordComesBack(fields, x, z)
    ensures y == z
    decreases fields, 1, 0
  {
    hide ComesBack;
    forall name | name in y.values ensures name in z.values && y.values[name] == z.values[name] {
      var i :| 0 <= i < |fields| && fields[i].name == name;
      assert fields[i].kind < fields[i];
      if name in x.values {
        OnlyOne(fields[i].kind, x.values[name], y.values[name], z.values[name]);
      } else if fields[i].default.Some? {
        OnlyOne(fields[i].kind, fields[i].default.value, y.values[name], z.values[name]);
      }
    }
    forall name | name in z.values ensures name in y.values {
      var i :| 0 <= i < |fields| && fields[i].name == name;
    }
    assert y.values == z.values;
  }

  /**
   * Decoding what was encoded, whatever follows it: every field of a record, at every depth, comes back as it was set,
   * as its default if it was not set, or as what its type starts with if it has no default; and nothing else does.
   */
  lemma {:induction false} DecodedIs(t: Kind, v: Val, rest: Bytes, y: Val)
    requires KindOk(t) && Encode(t, v).Encoded? && Survives(t, v)
    ensures var d := Decode(t, Encode(t, v).bytes + rest);
            && d.Decoded? && d.used == |Encode(t, v).bytes|
            && (d.value == y <==> ComesBack(t, v, y))
  {
    hide Encode, Decode, Survives, ComesBack, Normal, KindOk;
    Through(t, v, rest);
    NormalComesBack(t, v);
    var d := Decode(t, Encode(t, v).bytes + rest);
    if ComesBack(t, v, y) { OnlyOne(t, v, y, d.value); }
  }

  // ---------------------------------------------------------------- what is written

  /** A field that is not set is written as if its default had been set. */
  lemma {:induction false} DefaultWritten(fields: seq<Field>, m: map<string, Val>, f: Field, d: Val)
    requires FieldsOk(fields) && f in fields && f.name !in m
    requires if f.default.Some? then d == f.default.value else Initial(f.kind, d)
    ensures Encode(TRecord(fields, false), VRecord(m)) == Encode(TRecord(fields, false), VRecord(m[f.name := d]))
  {
    hide EncodeFields;
    assert forall i, j :: 0 <= i < j < |fields| ==> fields[i].name != fields[j].name;
    FieldsWritten(fields, m, f, d);
  }

  lemma {:induction false} FieldsWritten(fields: seq<Field>, m: map<string, Val>, f: Field, d: Val)
    requires FieldsOk(fields) && f.name !in m && forall g :: g in fields && g.name == f.name ==> g == f
    requires if f.default.Some? then d == f.default.value else Initial(f.kind, d)
    ensures EncodeFields(fields, m) == EncodeFields(fields, m[f.name := d])
    decreases |fields|
  {
    hide Encode, FieldsOk, KindOk, FieldValue, Initial;
    if fields != [] {
      FirstField(fields, m);
      assert fields[0] in fields && forall g :: g in fields[1..] ==> g in fields;
      FieldsWritten(fields[1..], m, f, d);
      ValueWritten(fields[0], m, f, d);
    }
  }

  lemma {:induction false} ValueWritten(g: Field, m: map<string, Val>, f: Field, d: Val)
    requires f.name !in m && (g.name == f.name ==> g == f)
    requires if f.default.Some? then d == f.default.value else Initial(f.kind, d)
    ensures FieldValue(g, m) == FieldValue(g, m[f.name := d])
  {
  }
}
