/** Decoding what was encoded, for arbitrarily nested records and arrays. */
module RecordRoundTrip {
  import opened Bytes
  import opened Text
  import opened BinaryInt
  import opened RecordCodec

  // ---------------------------------------------------------------- strings

  lemma {:induction false} TextThrough(s: Bytes, rest: Bytes)
    requires InRange(SHORT, |s|)
    ensures var b := PackInt(SHORT, |s|).value + s + rest;
            UnpackInt(SHORT, b) == |s| && From(Upto(b, 2 + |s|), 2) == s
  {
    hide UnpackInt, InRange;
    var head := PackInt(SHORT, |s|).value;
    IntThrough(SHORT, |s|, s + rest);
    assert head + s + rest == head + (s + rest);
    assert (head + s + rest)[..2 + |s|] == head + s;
  }

  lemma {:induction false} JustifyStrips(s: Bytes, n: nat, right: bool)
    requires |s| <= n
    ensures |Justify(s, n, right)| == n && Strip(Justify(s, n, right), Blank) == Strip(s, Blank)
  {
    if right { StripLeftSpaces(n - |s|, s, Blank); } else { StripSpaces(s, n - |s|, Blank); }
    if |s| == n { assert s + [] == s; }
  }

  lemma {:induction false} FixedThrough(s: Bytes, n: nat, right: bool, rest: Bytes)
    requires |s| <= n
    ensures var b := Justify(s, n, right) + rest;
            |Justify(s, n, right)| == n && First(b, n) == Justify(s, n, right) &&
              Strip(First(b, n), Blank) == Strip(s, Blank)
  {
    JustifyStrips(s, n, right);
    assert (Justify(s, n, right) + rest)[..n] == Justify(s, n, right);
  }

  lemma {:induction false} FixedTooLong(s: Bytes, n: nat, rest: Bytes)
    requires |s| > n
    ensures Strip(First(s + rest, n), Blank) != s
  {
    var c := First(s + rest, n);
    StripShortens(c, Blank);
    StripShortens(StripLeft(c, Blank), Blank);
  }

  lemma {:induction false} WritableJustified(ascii: bool, s: Bytes, n: nat, right: bool)
    requires Writable(ascii, s)
    ensures Writable(ascii, Justify(s, n, right))
  {
  }

  // ---------------------------------------------------------------- forward

  /** The reported length is exact, and decoding gives the normal form whatever follows. */
  lemma {:induction false} Through(t: Kind, v: Val, rest: Bytes)
    requires KindOk(t) && Encode(t, v).Encoded? && Survives(t, v)
    ensures var e := Encode(t, v);
            e.claimed == |e.bytes| && Decode(t, e.bytes + rest) == Decoded(|e.bytes|, Normal(t, v))
    decreases t, 1, 0
  {
    hide PackInt, UnpackInt, Strip, InRange, DecodeRecord, EncodeRecord, NormalRecord, DecodeElems, EncodeElems,
         Justify, From, Upto;
    hide FieldsSurvive, ElemSurvives;
    var e := Encode(t, v);
    match t
    case TBool => assert First(e.bytes + rest, 1) == e.bytes;
    case TInt(i) => IntThrough(i, v.n, rest);
    case TChar(_) => assert First(e.bytes + rest, 1) == e.bytes;
    case TText(_) => TextThrough(v.s, rest);
    case TFixed(ascii, n, right) =>
      FixedThrough(v.s, n, right, rest);
      WritableJustified(ascii, v.s, n, right);
    case TRecord(fields, present) =>
      if !present {
        RecordThrough(fields, v, rest);
      } else if Absent(v) {
        assert First(e.bytes + rest, 1) == e.bytes;
      } else {
        RecordThrough(fields, v, rest);
        Present(EncodeRecord(fields, v).bytes, rest);
      }
    case TArray(elem, count) =>
      ArrayThrough(elem, count, v.elems, rest);
  }

  lemma {:induction false} Present(b: Bytes, rest: Bytes)
    ensures First([1] + b + rest, 1) == [1] && From([1] + b + rest, 1) == b + rest
  {
  }

  lemma {:induction false} RecordThrough(fields: seq<Field>, v: Val, rest: Bytes)
    requires FieldsOk(fields) && EncodeRecord(fields, v).Encoded? && v.VRecord? && FieldsSurvive(fields, v.values)
    ensures var e := EncodeRecord(fields, v);
            && e.claimed == |e.bytes|
            && DecodeRecord(fields, e.bytes + rest) == Decoded(|e.bytes|, NormalRecord(fields, v))
    decreases fields, 1, 0
  {
    hide EncodeFields, DecodeFields, NormalFields, FieldsSurvive, FieldsOk;
    var e := EncodeRecord(fields, v);
    FieldsThrough(fields, v.values, e.bytes + rest, 0, map[], rest);
    assert map[] + NormalFields(fields, v.values) == NormalFields(fields, v.values);
  }

  lemma {:induction false} FirstField(fields: seq<Field>, m: map<string, Val>)
    requires FieldsOk(fields) && fields != []
    ensures KindOk(fields[0].kind) && FieldsOk(fields[1..])
    ensures FieldsSurvive(fields, m) <==>
            Survives(fields[0].kind, FieldValue(fields[0], m)) && FieldsSurvive(fields[1..], m)
    ensures forall f :: f in fields[1..] ==> f.name != fields[0].name
  {
    hide Survives, FieldValue;
    assert forall i :: 0 < i < |fields| ==> fields[i] == fields[1..][i - 1];
  }

  /** What stands at `offset` is read, and what is read next stands after it. */
  lemma {:induction false} Advance(b: Bytes, offset: nat, first: Bytes, after: Bytes)
    requires offset <= |b| && b[offset..] == first + after
    ensures From(b, offset) == first + after
    ensures offset + |first| <= |b| && b[offset + |first|..] == after
  {
    assert b[offset + |first|..] == b[offset..][|first|..];
  }

  /** Reading one more field: with the value put under its name, or in front of those read later. */
  lemma {:induction false} FieldsStep(fields: seq<Field>, m: map<string, Val>, b: Bytes, offset: int,
                                      done: map<string, Val>)
    requires fields != [] && Decode(fields[0].kind, From(b, offset)).Decoded?
    ensures var d := Decode(fields[0].kind, From(b, offset));
            DecodeFields(fields, b, offset, done) ==
            DecodeFields(fields[1..], b, offset + d.used, done[fields[0].name := d.value])
    ensures done + NormalFields(fields, m) ==
            done[fields[0].name := Normal(fields[0].kind, FieldValue(fields[0], m))] + NormalFields(fields[1..], m)
  {
    hide Decode, Normal, FieldValue, From;
  }

  lemma {:induction false} EncodeFieldsStep(fields: seq<Field>, m: map<string, Val>)
    requires fields != [] && EncodeFields(fields, m).Encoded?
    ensures var first, later := Encode(fields[0].kind, FieldValue(fields[0], m)), EncodeFields(fields[1..], m);
            && first.Encoded? && later.Encoded?
            && EncodeFields(fields, m) == Encoded(first.claimed + later.claimed, first.bytes + later.bytes)
  {
    hide Encode, FieldValue;
  }

  lemma {:induction false} NoFields(m: map<string, Val>, b: Bytes, offset: int, done: map<string, Val>)
    ensures DecodeFields([], b, offset, done) == Decoded(offset, done)
    ensures done + NormalFields([], m) == done && EncodeFields([], m) == Encoded(0, [])
  {
  }

  lemma {:induction false} FieldsThrough(fields: seq<Field>, m: map<string, Val>, b: Bytes, offset: nat,
                                         done: map<string, Val>, rest: Bytes)
    requires FieldsOk(fields) && EncodeFields(fields, m).Encoded? && FieldsSurvive(fields, m)
    requires offset <= |b| && b[offset..] == EncodeFields(fields, m).bytes + rest
    ensures var e := EncodeFields(fields, m);
            && e.claimed == |e.bytes|
            && DecodeFields(fields, b, offset, done) == Decoded(offset + |e.bytes|, done + NormalFields(fields, m))
    decreases fields, 0, 0
  {
    hide Encode, Decode, Normal, Survives, FieldValue, FieldsSurvive, FieldsOk, EncodeFields, DecodeFields,
         NormalFields, From;
    if fields == [] {
      NoFields(m, b, offset, done);
    } else {
      FirstField(fields, m);
      EncodeFieldsStep(fields, m);
      var f, v := fields[0], FieldValue(fields[0], m);
      var first, later := Encode(f.kind, v), EncodeFields(fields[1..], m);
      assert f.kind < f;
      Associates(first.bytes, later.bytes, rest);
      Through(f.kind, v, later.bytes + rest);
      Advance(b, offset, first.bytes, later.bytes + rest);
      FieldsStep(fields, m, b, offset, done);
      FieldsThrough(fields[1..], m, b, offset + |first.bytes|, done[f.name := Normal(f.kind, v)], rest);
    }
  }

  lemma {:induction false} ArrayThrough(elem: Kind, count: IntType, vs: seq<Val>, rest: Bytes)
    requires var t := TArray(elem, count);
             KindOk(t) && Encode(t, VArray(vs)).Encoded? && forall i :: 0 <= i < |vs| ==> ElemSurvives(elem, vs[i])
    ensures var t := TArray(elem, count);
            var e := Encode(t, VArray(vs));
            e.claimed == |e.bytes| && Decode(t, e.bytes + rest) == Decoded(|e.bytes|, Normal(t, VArray(vs)))
    decreases elem, 4, 0
  {
    hide PackInt, UnpackInt, InRange, DecodeElems, EncodeElems, NormalElems, ElemSurvives;
    var e := Encode(TArray(elem, count), VArray(vs));
    var head, body := PackInt(count, |vs|).value, EncodeElems(elem, vs).bytes;
    IntThrough(count, |vs|, body + rest);
    Associates(head, body, rest);
    Counted(head, body + rest);
    ElemsThrough(elem, vs, e.bytes + rest, count.size, [], rest);
    Associates(NormalElems(elem, vs), [], []);
  }

  lemma {:induction false} Counted(head: Bytes, after: Bytes)
    ensures (head + after)[|head|..] == after
  {
  }

  lemma {:induction false} ElemThrough(elem: Kind, v: Val, rest: Bytes)
    requires KindOk(elem) && EncodeElem(elem, v).Encoded? && ElemSurvives(elem, v)
    ensures var e := EncodeElem(elem, v);
            e.claimed == |e.bytes| && DecodeElem(elem, e.bytes + rest) == Decoded(|e.bytes|, NormalElem(elem, v))
    decreases elem, 2, 0
  {
    hide EncodeRecord, DecodeRecord, NormalRecord, FieldsSurvive, Survives, Encode, Decode, Normal;
    if elem.TRecord? { RecordThrough(elem.fields, v, rest); } else { Through(elem, v, rest); }
  }

  lemma {:induction false} ElemsThrough(elem: Kind, vs: seq<Val>, b: Bytes, offset: nat, done: seq<Val>, rest: Bytes)
    requires KindOk(elem) && EncodeElems(elem, vs).Encoded? && forall i :: 0 <= i < |vs| ==> ElemSurvives(elem, vs[i])
    requires offset <= |b| && b[offset..] == EncodeElems(elem, vs).bytes + rest
    ensures var e := EncodeElems(elem, vs);
            e.claimed == |e.bytes| &&
            DecodeElems(elem, b, offset, |vs|, done) == Decoded(offset + |e.bytes|, done + NormalElems(elem, vs))
    decreases elem, 3, |vs|
  {
    hide EncodeElem, DecodeElem, NormalElem, ElemSurvives, KindOk, From, EncodeElems, DecodeElems, NormalElems;
    if vs == [] {
      NoElems(elem, b, offset, 0, done);
    } else {
      var v := vs[0];
      EncodeElemsStep(elem, vs);
      var first, later := EncodeElem(elem, v), EncodeElems(elem, vs[1..]);
      Associates(first.bytes, later.bytes, rest);
      ElemThrough(elem, v, later.bytes + rest);
      Advance(b, offset, first.bytes, later.bytes + rest);
      ElemsStep(elem, vs, b, offset, done);
      ElemsThrough(elem, vs[1..], b, offset + |first.bytes|, done + [NormalElem(elem, v)], rest);
    }
  }

  lemma {:induction false} ElemsStep(elem: Kind, vs: seq<Val>, b: Bytes, offset: int, done: seq<Val>)
    requires vs != [] && DecodeElem(elem, From(b, offset)).Decoded?
    ensures var d := DecodeElem(elem, From(b, offset));
            DecodeElems(elem, b, offset, |vs|, done) ==
            DecodeElems(elem, b, offset + d.used, |vs| - 1, done + [d.value])
    ensures done + NormalElems(elem, vs) == done + [NormalElem(elem, vs[0])] + NormalElems(elem, vs[1..])
  {
    hide DecodeElem, NormalElem, From;
  }

  lemma {:induction false} EncodeElemsStep(elem: Kind, vs: seq<Val>)
    requires vs != [] && EncodeElems(elem, vs).Encoded?
    ensures var first, later := EncodeElem(elem, vs[0]), EncodeElems(elem, vs[1..]);
            && first.Encoded? && later.Encoded?
            && EncodeElems(elem, vs) == Encoded(first.claimed + later.claimed, first.bytes + later.bytes)
  {
    hide EncodeElem;
  }

  lemma {:induction false} NoElems(elem: Kind, b: Bytes, offset: int, n: int, done: seq<Val>)
    requires n <= 0
    ensures DecodeElems(elem, b, offset, n, done) == Decoded(offset, done)
    ensures done + NormalElems(elem, []) == done && EncodeElems(elem, []) == Encoded(0, [])
  {
  }

  // ---------------------------------------------------------------- converse

  /** Not what was encoded: an exception, another value, or more bytes used than there are. */
  predicate Off<T(==)>(d: Decoded<T>, size: int, expected: T, rest: Bytes) {
    d.Decoded? ==> d.value != expected || (rest == [] && d.used > size)
  }

  /** Decoding nothing never goes backwards. */
  lemma {:induction false} NothingForward(t: Kind)
    ensures Decode(t, []).Decoded? ==> Decode(t, []).used >= 0
    decreases t, 1, 0
  {
    hide DecodeFields, DecodeElems;
    match t
    case TRecord(fields, present) =>
      if !present { BeyondForward(fields, [], 0, map[]); }
    case TArray(elem, count) => NoElems(elem, [], count.size, 0, []);
    case _ =>
  }

  lemma {:induction false} BeyondForward(fields: seq<Field>, b: Bytes, offset: int, done: map<string, Val>)
    requires offset >= |b|
    ensures var d := DecodeFields(fields, b, offset, done); d.Decoded? ==> d.used >= offset
    decreases fields, 0, 0
  {
    hide Decode;
    if fields != [] {
      assert fields[0].kind < fields[0];
      NothingForward(fields[0].kind);
      var d := Decode(fields[0].kind, []);
      if d.Decoded? { BeyondForward(fields[1..], b, offset + d.used, done[fields[0].name := d.value]); }
    }
  }

  lemma {:induction false} ElemForward(elem: Kind)
    ensures DecodeElem(elem, []).Decoded? ==> DecodeElem(elem, []).used >= 0
  {
    hide Decode, DecodeFields;
    if elem.TRecord? { BeyondForward(elem.fields, [], 0, map[]); } else { NothingForward(elem); }
  }

  lemma {:induction false} ElemsBeyondForward(elem: Kind, b: Bytes, offset: int, n: int, done: seq<Val>)
    requires offset >= |b|
    ensures var d := DecodeElems(elem, b, offset, n, done); d.Decoded? ==> d.used >= offset
    decreases n
  {
    hide DecodeElem;
    if n > 0 {
      ElemForward(elem);
      var d := DecodeElem(elem, []);
      assert From(b, offset) == [];
      if d.Decoded? { ElemsBeyondForward(elem, b, offset + d.used, n - 1, done + [d.value]); }
    }
  }

  /** Fields read later do not change a field read before, nor do elements. */
  lemma {:induction false} FieldStays(fields: seq<Field>, b: Bytes, offset: int, done: map<string, Val>, name: string)
    requires name in done && forall f :: f in fields ==> f.name != name
    ensures var d := DecodeFields(fields, b, offset, done);
            d.Decoded? ==> name in d.value && d.value[name] == done[name]
  {
    hide Decode;
    if fields != [] {
      var d := Decode(fields[0].kind, From(b, offset));
      if d.Decoded? { FieldStays(fields[1..], b, offset + d.used, done[fields[0].name := d.value], name); }
    }
  }

  lemma {:induction false} NormalNames(fields: seq<Field>, m: map<string, Val>, name: string)
    requires forall f :: f in fields ==> f.name != name
    ensures name !in NormalFields(fields, m)
  {
    hide Normal;
    if fields != [] { NormalNames(fields[1..], m, name); }
  }

  lemma {:induction false} ElemStays(elem: Kind, b: Bytes, offset: int, n: int, done: seq<Val>)
    ensures var d := DecodeElems(elem, b, offset, n, done); d.Decoded? ==> done <= d.value
    decreases n
  {
    hide DecodeElem;
    if n > 0 {
      var d := DecodeElem(elem, From(b, offset));
      if d.Decoded? { ElemStays(elem, b, offset + d.used, n - 1, done + [d.value]); }
    }
  }

  lemma {:induction false} Converse(t: Kind, v: Val, rest: Bytes)
    requires KindOk(t) && Encode(t, v).Encoded? && !Survives(t, v)
    ensures Off(Decode(t, Encode(t, v).bytes + rest), |Encode(t, v).bytes|, Normal(t, v), rest)
    decreases t, 1, 0
  {
    hide PackInt, UnpackInt, Strip, InRange, DecodeRecord, EncodeRecord, NormalRecord, DecodeElems, EncodeElems,
         Justify, From, Upto;
    hide FieldsSurvive, ElemSurvives;
    var e := Encode(t, v);
    match t
    case TChar(_) => assert e.bytes + rest == rest;
    case TFixed(ascii, n, right) =>
      if |v.s| > n {
        FixedTooLong(v.s, n, rest);
        JustifyLong(v.s, n, right);
      } else {
        FixedThrough(v.s, n, right, rest);
      }
    case TRecord(fields, present) =>
      RecordConverse(fields, v, rest);
      if present { Present(EncodeRecord(fields, v).bytes, rest); }
    case TArray(elem, count) => ArrayConverse(elem, count, v.elems, rest);
  }

  lemma {:induction false} JustifyLong(s: Bytes, n: nat, right: bool)
    requires |s| > n
    ensures Justify(s, n, right) == s
  {
  }

  lemma {:induction false} RecordConverse(fields: seq<Field>, v: Val, rest: Bytes)
    requires FieldsOk(fields) && EncodeRecord(fields, v).Encoded? && !(v.VRecord? && FieldsSurvive(fields, v.values))
    ensures Off(DecodeRecord(fields, EncodeRecord(fields, v).bytes + rest), |EncodeRecord(fields, v).bytes|,
                NormalRecord(fields, v), rest)
    decreases fields, 1, 0
  {
    hide EncodeFields, DecodeFields, NormalFields, FieldsSurvive, FieldsOk;
    FieldsConverse(fields, v.values, EncodeRecord(fields, v).bytes + rest, 0, map[], rest);
    assert map[] + NormalFields(fields, v.values) == NormalFields(fields, v.values);
  }

  lemma {:induction false} FieldsConverse(fields: seq<Field>, m: map<string, Val>, b: Bytes, offset: nat,
                                          done: map<string, Val>, rest: Bytes)
    requires FieldsOk(fields) && EncodeFields(fields, m).Encoded? && !FieldsSurvive(fields, m)
    requires offset <= |b| && b[offset..] == EncodeFields(fields, m).bytes + rest
    ensures Off(DecodeFields(fields, b, offset, done), offset + |EncodeFields(fields, m).bytes|,
                done + NormalFields(fields, m), rest)
    decreases fields, 0, 0
  {
    hide Encode, Decode, Normal, Survives, FieldValue, FieldsSurvive, FieldsOk, EncodeFields, DecodeFields,
         NormalFields, From;
    assert fields != [] by { if fields == [] { NoneSurvive(m); } }
    FirstField(fields, m);
    EncodeFieldsStep(fields, m);
    var f, v := fields[0], FieldValue(fields[0], m);
    var first, later := Encode(f.kind, v), EncodeFields(fields[1..], m);
    var tail := fields[1..];
    assert f.kind < f;
    Associates(first.bytes, later.bytes, rest);
    Advance(b, offset, first.bytes, later.bytes + rest);
    var d := Decode(f.kind, From(b, offset));
    if Survives(f.kind, v) {
      Through(f.kind, v, later.bytes + rest);
      FieldsStep(fields, m, b, offset, done);
      FieldsConverse(tail, m, b, offset + |first.bytes|, done[f.name := Normal(f.kind, v)], rest);
    } else {
      Converse(f.kind, v, later.bytes + rest);
      if d.Decoded? {
        FieldsStep(fields, m, b, offset, done);
        if d.value != Normal(f.kind, v) {
          FieldStays(tail, b, offset + d.used, done[f.name := d.value], f.name);
          NormalNames(tail, m, f.name);
        } else {
          assert |later.bytes + rest| == 0 && |b| == offset + |first.bytes|;
          BeyondForward(tail, b, offset + d.used, done[f.name := d.value]);
        }
      } else {
        FieldRaises(fields, b, offset, done);
      }
    }
  }

  lemma {:induction false} FieldRaises(fields: seq<Field>, b: Bytes, offset: int, done: map<string, Val>)
    requires fields != [] && Decode(fields[0].kind, From(b, offset)).Raised?
    ensures DecodeFields(fields, b, offset, done).Raised?
  {
  }

  lemma {:induction false} NoneSurvive(m: map<string, Val>)
    ensures FieldsSurvive([], m)
  {
  }

  lemma {:induction false} ArrayConverse(elem: Kind, count: IntType, vs: seq<Val>, rest: Bytes)
    requires var t := TArray(elem, count);
             KindOk(t) && Encode(t, VArray(vs)).Encoded? && !forall i :: 0 <= i < |vs| ==> ElemSurvives(elem, vs[i])
    ensures var t := TArray(elem, count);
            Off(Decode(t, Encode(t, VArray(vs)).bytes + rest), |Encode(t, VArray(vs)).bytes|, Normal(t, VArray(vs)),
              rest)
    decreases elem, 4, 0
  {
    hide PackInt, UnpackInt, InRange, DecodeElems, EncodeElems, NormalElems, ElemSurvives;
    var e := Encode(TArray(elem, count), VArray(vs));
    var head, body := PackInt(count, |vs|).value, EncodeElems(elem, vs).bytes;
    IntThrough(count, |vs|, body + rest);
    Associates(head, body, rest);
    Counted(head, body + rest);
    ElemsConverse(elem, vs, e.bytes + rest, count.size, [], rest);
    Associates(NormalElems(elem, vs), [], []);
  }

  lemma {:induction false} ElemConverse(elem: Kind, v: Val, rest: Bytes)
    requires KindOk(elem) && EncodeElem(elem, v).Encoded? && !ElemSurvives(elem, v)
    ensures Off(DecodeElem(elem, EncodeElem(elem, v).bytes + rest), |EncodeElem(elem, v).bytes|,
                NormalElem(elem, v), rest)
    decreases elem, 2, 0
  {
    hide EncodeRecord, DecodeRecord, NormalRecord, FieldsSurvive, Survives, Encode, Decode, Normal;
    if elem.TRecord? { RecordConverse(elem.fields, v, rest); } else { Converse(elem, v, rest); }
  }

  lemma {:induction false} ElemsConverse(elem: Kind, vs: seq<Val>, b: Bytes, offset: nat, done: seq<Val>, rest: Bytes)
    requires KindOk(elem) && EncodeElems(elem, vs).Encoded? && !forall i :: 0 <= i < |vs| ==> ElemSurvives(elem, vs[i])
    requires offset <= |b| && b[offset..] == EncodeElems(elem, vs).bytes + rest
    ensures Off(DecodeElems(elem, b, offset, |vs|, done), offset + |EncodeElems(elem, vs).bytes|,
                done + NormalElems(elem, vs), rest)
    decreases elem, 3, |vs|
  {
    hide EncodeElem, DecodeElem, NormalElem, ElemSurvives, KindOk, From, EncodeElems, DecodeElems, NormalElems;
    EncodeElemsStep(elem, vs);
    var v, tail := vs[0], vs[1..];
    var first, later := EncodeElem(elem, v), EncodeElems(elem, tail);
    Associates(first.bytes, later.bytes, rest);
    Advance(b, offset, first.bytes, later.bytes + rest);
    var d := DecodeElem(elem, From(b, offset));
    if ElemSurvives(elem, v) {
      ElemThrough(elem, v, later.bytes + rest);
      ElemsStep(elem, vs, b, offset, done);
      assert forall i :: 0 < i < |vs| ==> vs[i] == tail[i - 1];
      ElemsConverse(elem, tail, b, offset + |first.bytes|, done + [NormalElem(elem, v)], rest);
    } else {
      ElemConverse(elem, v, later.bytes + rest);
      if d.Decoded? {
        ElemsStep(elem, vs, b, offset, done);
        if d.value != NormalElem(elem, v) {
          ElemStays(elem, b, offset + d.used, |vs| - 1, done + [d.value]);
          var all := DecodeElems(elem, b, offset, |vs|, done);
          if all.Decoded? { Differ(done, d.value, all.value, NormalElem(elem, v), NormalElems(elem, tail)); }
          Associates(done, [NormalElem(elem, v)], NormalElems(elem, tail));
        } else {
          assert |later.bytes + rest| == 0 && |b| == offset + |first.bytes|;
          ElemsBeyondForward(elem, b, offset + d.used, |vs| - 1, done + [d.value]);
        }
      } else {
        ElemRaises(elem, b, offset, |vs|, done);
      }
    }
  }

  lemma {:induction false} ElemRaises(elem: Kind, b: Bytes, offset: int, n: int, done: seq<Val>)
    requires n > 0 && DecodeElem(elem, From(b, offset)).Raised?
    ensures DecodeElems(elem, b, offset, n, done).Raised?
  {
  }

  lemma {:induction false} Differ<T>(a: seq<T>, x: T, r: seq<T>, y: T, others: seq<T>)
    requires x != y && a + [x] <= r
    ensures r != a + ([y] + others)
  {
    assert r[|a|] == (a + [x])[|a|] == x && (a + ([y] + others))[|a|] == y;
  }

  // ---------------------------------------------------------------- the round trip

  /**
   * For every kind and every value that can be encoded at all: decoding the encoding gives the normal form
   * and uses every byte exactly when no character is empty and every fixed string fits and is stripped.
   */
  lemma {:induction false} RoundTrip(t: Kind, v: Val)
    requires KindOk(t) && Encode(t, v).Encoded?
    ensures Decode(t, Encode(t, v).bytes) == Decoded(|Encode(t, v).bytes|, Normal(t, v)) <==> Survives(t, v)
  {
    hide Encode, Decode, Normal, Survives, KindOk;
    var b := Encode(t, v).bytes;
    assert b + [] == b;
    if Survives(t, v) { Through(t, v, []); } else { Converse(t, v, []); }
  }

  /** An empty character claims a byte it does not write: the byte of the next field is read in its place. */
  lemma {:induction false} EmptyCharacter(fields: seq<Field>, v: Val)
    requires fields == [Field("c", TChar(true), None), Field("n", TInt(IntType(1, false, false)), None)]
    requires v == VRecord(map["c" := VText([]), "n" := VInt(7)])
    ensures Encode(TRecord(fields, false), v) == Encoded(2, [7])
    ensures Decode(TRecord(fields, false), [7]) == Decoded(2, VRecord(map["c" := VText([7]), "n" := VInt(0)]))
  {
    hide Encode, Decode, EncodeFields, DecodeFields, FieldValue, NormalFields;
    var seven: Bytes, none: Bytes := [7], [];
    var c, all := map["c" := VText(seven)], map["c" := VText(seven), "n" := VInt(0)];
    var m, tail := v.values, fields[1..];
    assert tail == [fields[1]] && tail[1..] == [];
    CharacterField(fields[0], m);
    NumberField(fields[1], m);
    TwoEncoded(fields, m);
    assert From(seven, 0) == seven && From(seven, 1) == none;
    FieldsStep(fields, m, seven, 0, map[]);
    FieldsStep(tail, m, seven, 1, c);
    NoFields(m, seven, 2, all);
    assert map[]["c" := VText(seven)] == c && c["n" := VInt(0)] == all;
    assert DecodeFields(fields, seven, 0, map[]) == Decoded(2, all);
    TopLevel(fields, v, seven);
  }

  lemma {:induction false} CharacterField(f: Field, m: map<string, Val>)
    requires f == Field("c", TChar(true), None) && "c" in m && m["c"] == VText([])
    ensures Encode(f.kind, FieldValue(f, m)) == Encoded(1, [])
    ensures Decode(f.kind, [7]) == Decoded(1, VText([7]))
  {
    var seven: Bytes := [7];
    assert First(seven, 1) == seven && Writable(true, seven);
  }

  lemma {:induction false} NumberField(f: Field, m: map<string, Val>)
    requires f == Field("n", TInt(IntType(1, false, false)), None) && "n" in m && m["n"] == VInt(7)
    ensures Encode(f.kind, FieldValue(f, m)) == Encoded(1, [7])
    ensures Decode(f.kind, []) == Decoded(1, VInt(0))
  {
    assert Pow256(0) == 1 && Pow256(1) == 256;
    assert Little(0, 0) == [] && Little(7, 1) == [7];
  }

  lemma {:induction false} TwoEncoded(fields: seq<Field>, m: map<string, Val>)
    requires |fields| == 2
    requires Encode(fields[0].kind, FieldValue(fields[0], m)) == Encoded(1, [])
    requires Encode(fields[1].kind, FieldValue(fields[1], m)) == Encoded(1, [7])
    ensures EncodeFields(fields, m) == Encoded(2, [7])
  {
    hide Encode, FieldValue;
    assert fields[1..][1..] == [];
    assert EncodeFields(fields[1..], m) == Encoded(1, [7]);
  }

  lemma {:induction false} TopLevel(fields: seq<Field>, v: Val, b: Bytes)
    requires fields != [] && v.VRecord?
    ensures Encode(TRecord(fields, false), v) == EncodeFields(fields, v.values)
    ensures var d := DecodeFields(fields, b, 0, map[]);
            Decode(TRecord(fields, false), b) == if d.Raised? then Raised else Decoded(d.used, VRecord(d.value))
  {
    hide EncodeFields, DecodeFields;
  }

  // ---------------------------------------------------------------- encoding again

  /** Encoding what was decoded gives the same bytes, defaults and absent records included. */
  lemma {:induction false} EncodeAgain(t: Kind, v: Val)
    requires KindOk(t) && Encode(t, v).Encoded?
    ensures Encode(t, Normal(t, v)) == Encode(t, v)
    decreases t, 1, 0
  {
    hide PackInt, EncodeRecord, NormalRecord, EncodeElems, Justify;
    match t
    case TRecord(fields, present) =>
      if !(present && Absent(v)) {
        RecordAgain(fields, v);
        RecordNotAbsent(fields, v);
      }
    case TArray(elem, count) => ElemsAgain(elem, v.elems);
    case _ =>
  }

  lemma {:induction false} RecordNotAbsent(fields: seq<Field>, v: Val)
    requires EncodeRecord(fields, v).Encoded?
    ensures !Absent(NormalRecord(fields, v)) && NormalRecord(fields, v).VRecord?
  {
    hide Normal, Encode, FieldValue;
    assert fields[0].name in NormalFields(fields, v.values);
  }

  lemma {:induction false} RecordAgain(fields: seq<Field>, v: Val)
    requires FieldsOk(fields) && EncodeRecord(fields, v).Encoded?
    ensures EncodeRecord(fields, NormalRecord(fields, v)) == EncodeRecord(fields, v)
    decreases fields, 1, 0
  {
    hide EncodeFields, NormalFields, FieldsOk, Normal, FieldValue;
    var m := NormalFields(fields, v.values);
    NormalFieldValues(fields, v.values);
    FieldsAgain(fields, v.values, m);
  }

  lemma {:induction false} NormalFieldValues(fields: seq<Field>, m: map<string, Val>)
    requires FieldsOk(fields)
    ensures forall f :: f in fields ==> FieldValue(f, NormalFields(fields, m)) == Normal(f.kind, FieldValue(f, m))
  {
    hide Normal, KindOk, FieldsOk;
    if fields != [] {
      FirstField(fields, m);
      NormalFieldValues(fields[1..], m);
      NormalNames(fields[1..], m, fields[0].name);
      var all, tail := NormalFields(fields, m), NormalFields(fields[1..], m);
      forall f | f in fields ensures FieldValue(f, all) == Normal(f.kind, FieldValue(f, m)) {
        if f != fields[0] {
          assert f in fields[1..];
          NormalNamed(fields[1..], m, f);
        }
      }
    }
  }

  lemma {:induction false} NormalNamed(fields: seq<Field>, m: map<string, Val>, f: Field)
    requires f in fields
    ensures f.name in NormalFields(fields, m)
  {
    hide Normal;
    if f != fields[0] { NormalNamed(fields[1..], m, f); }
  }

  lemma {:induction false} FieldsAgain(fields: seq<Field>, m: map<string, Val>, n: map<string, Val>)
    requires FieldsOk(fields) && EncodeFields(fields, m).Encoded?
    requires forall f :: f in fields ==> FieldValue(f, n) == Normal(f.kind, FieldValue(f, m))
    ensures EncodeFields(fields, n) == EncodeFields(fields, m)
    decreases fields, 0, 0
  {
    hide Encode, Normal, FieldValue, FieldsOk, KindOk;
    if fields != [] {
      FirstField(fields, m);
      assert fields[0].kind < fields[0];
      EncodeAgain(fields[0].kind, FieldValue(fields[0], m));
      assert fields[0] in fields && forall f :: f in fields[1..] ==> f in fields;
      FieldsAgain(fields[1..], m, n);
    }
  }

  lemma {:induction false} ElemsAgain(elem: Kind, vs: seq<Val>)
    requires KindOk(elem) && EncodeElems(elem, vs).Encoded?
    ensures EncodeElems(elem, NormalElems(elem, vs)) == EncodeElems(elem, vs)
    decreases elem, 3, |vs|
  {
    hide EncodeRecord, NormalRecord, Encode, Normal;
    if vs != [] {
      if elem.TRecord? { RecordAgain(elem.fields, vs[0]); } else { EncodeAgain(elem, vs[0]); }
      ElemsAgain(elem, vs[1..]);
    }
  }
}
