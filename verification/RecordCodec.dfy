/**
 * The binary record codec (common/message/structures.py, common/message/types.py): integers, strings,
 * records, records behind a present bit, and length-prefixed arrays.
 */
module RecordCodec {
  import opened Bytes
  import opened Text
  import opened BinaryInt

  // ---------------------------------------------------------------- types and values

  datatype Kind =
    | TBool
    | TInt(format: IntType)
    | TChar(ascii: bool)
    | TText(ascii: bool)
    | TFixed(ascii: bool, length: nat, right: bool)
    | TRecord(fields: seq<Field>, present: bool)
    | TArray(elem: Kind, count: IntType)

  datatype Field = Field(name: string, kind: Kind, default: Option<Val>)

  /** A str is held as its code points; the values of a record are a dictionary by field name. */
  datatype Val =
    | VBool(b: bool)
    | VInt(n: int)
    | VText(s: Bytes)
    | VRecord(values: map<string, Val>)
    | VArray(elems: seq<Val>)
    | VNone

  /** Field names differ, and an array's elements are of a class: no fixed strings, no arrays. */
  predicate KindOk(t: Kind)
    decreases t
  {
    match t
    case TRecord(fields, _) =>
      && (forall i, j :: 0 <= i < j < |fields| ==> fields[i].name != fields[j].name)
      && forall i :: 0 <= i < |fields| ==> assert fields[i] < t; KindOk(fields[i].kind)
    case TArray(elem, _) => !elem.TFixed? && !elem.TArray? && KindOk(elem)
    case _ => true
  }

  predicate FieldsOk(fields: seq<Field>) {
    KindOk(TRecord(fields, false))
  }

  /** `type.default_value`. */
  function DefaultOf(t: Kind): Val {
    match t
    case TBool => VBool(false)
    case TInt(_) => VInt(0)
    case TChar(_) => VText([SPACE])
    case TText(_) => VText([])
    case TFixed(_, _, _) => VText([])
    case TRecord(_, _) => VNone
    case TArray(_, _) => VArray([])
  }

  /** `get_field_value`: the value set, else the field's default, else its type's. */
  function FieldValue(f: Field, m: map<string, Val>): Val {
    if f.name in m then m[f.name] else if f.default.Some? then f.default.value else DefaultOf(f.kind)
  }

  // ---------------------------------------------------------------- encoding

  /** The length `to_bytes` reports and the bytes, or the exception it raises. */
  datatype Encoded = Encoded(claimed: int, bytes: Bytes) | Refused

  function Append(a: Encoded, b: Encoded): Encoded {
    if a.Encoded? && b.Encoded? then Encoded(a.claimed + b.claimed, a.bytes + b.bytes) else Refused
  }

  predicate Writable(ascii: bool, s: Bytes) {
    ascii ==> Ascii(s)
  }

  function Justify(s: Bytes, n: nat, right: bool): Bytes {
    if |s| >= n then s else if right then Spaces(n - |s|) + s else s + Spaces(n - |s|)
  }

  predicate Absent(v: Val) {
    v.VNone? || (v.VRecord? && v.values == map[])
  }

  function Encode(t: Kind, v: Val): Encoded
    decreases t, 1, 0
  {
    match (t, v)
    case (TBool, VBool(b)) => Encoded(1, [if b then 1 else 0])
    case (TInt(i), VInt(n)) => (match PackInt(i, n) case None => Refused case Some(b) => Encoded(i.size, b))
    case (TChar(ascii), VText(s)) => if Writable(ascii, First(s, 1)) then Encoded(1, First(s, 1)) else Refused
    case (TText(ascii), VText(s)) =>
      if !Writable(ascii, s) then Refused
      else (match PackInt(SHORT, |s|) case None => Refused case Some(b) => Encoded(2 + |s|, b + s))
    case (TFixed(ascii, n, right), VText(s)) => if Writable(ascii, s) then Encoded(n, Justify(s, n, right)) else Refused
    case (TRecord(fields, present), _) =>
      if !present then EncodeRecord(fields, v)
      else if Absent(v) then Encoded(1, [0])
      else Append(Encoded(1, [1]), EncodeRecord(fields, v))
    case (TArray(elem, count), VArray(vs)) =>
      (match PackInt(count, |vs|)
       case None => Refused
       case Some(b) => Append(Encoded(count.size, b), EncodeElems(elem, vs)))
    case _ => Refused
  }

  /** `Record.to_bytes`; a record without fields has nothing to add up and raises. */
  function EncodeRecord(fields: seq<Field>, v: Val): Encoded
    decreases fields, 1, 0
  {
    if !v.VRecord? || fields == [] then Refused else EncodeFields(fields, v.values)
  }

  function EncodeFields(fields: seq<Field>, m: map<string, Val>): Encoded
    decreases fields, 0, 0
  {
    if fields == [] then Encoded(0, [])
    else
      assert fields[0].kind < fields[0];
      Append(Encode(fields[0].kind, FieldValue(fields[0], m)), EncodeFields(fields[1..], m))
  }

  /** An array packs its elements without their present bits. */
  function EncodeElem(elem: Kind, v: Val): Encoded
    decreases elem, 2, 0
  {
    if elem.TRecord? then EncodeRecord(elem.fields, v) else Encode(elem, v)
  }

  function EncodeElems(elem: Kind, vs: seq<Val>): Encoded
    decreases elem, 3, |vs|
  {
    if vs == [] then Encoded(0, []) else Append(EncodeElem(elem, vs[0]), EncodeElems(elem, vs[1..]))
  }

  // ---------------------------------------------------------------- decoding

  /** The length `from_bytes` reports and the value, or the UnicodeDecodeError. */
  datatype Decoded<+T> = Decoded(used: int, value: T) | Raised

  /** `str.strip()` on decoded text: ISO-8859-1 has two more blanks than ASCII. */
  predicate Blank(c: byte) {
    Whitespace(c) || c == 0x85 || c == 0xA0
  }

  function Decode(t: Kind, b: Bytes): Decoded<Val>
    decreases t, 1, 0
  {
    match t
    case TBool => Decoded(1, VBool(First(b, 1) == [1]))
    case TInt(i) => Decoded(i.size, VInt(UnpackInt(i, b)))
    case TChar(ascii) => if Writable(ascii, First(b, 1)) then Decoded(1, VText(First(b, 1))) else Raised
    case TText(ascii) =>
      var end := 2 + UnpackInt(SHORT, b);
      var s := From(Upto(b, end), 2);
      if Writable(ascii, s) then Decoded(end, VText(s)) else Raised
    case TFixed(ascii, n, _) =>
      if Writable(ascii, First(b, n)) then Decoded(n, VText(Strip(First(b, n), Blank))) else Raised
    case TRecord(fields, present) =>
      if !present then DecodeRecord(fields, b)
      else if First(b, 1) != [1] then Decoded(1, VNone)
      else (match DecodeRecord(fields, From(b, 1)) case Raised => Raised case Decoded(n, v) => Decoded(1 + n, v))
    case TArray(elem, count) =>
      match DecodeElems(elem, b, count.size, UnpackInt(count, b), [])
      case Raised => Raised
      case Decoded(n, vs) => Decoded(n, VArray(vs))
  }

  /** `Record.from_bytes`. */
  function DecodeRecord(fields: seq<Field>, b: Bytes): Decoded<Val>
    decreases fields, 1, 0
  {
    match DecodeFields(fields, b, 0, map[])
    case Raised => Raised
    case Decoded(n, m) => Decoded(n, VRecord(m))
  }

  /** The loop of `Record.from_bytes` from `offset` on, with `done` read already. */
  function DecodeFields(fields: seq<Field>, b: Bytes, offset: int, done: map<string, Val>): Decoded<map<string, Val>>
    decreases fields, 0, 0
  {
    if fields == [] then Decoded(offset, done)
    else
      assert fields[0].kind < fields[0];
      match Decode(fields[0].kind, From(b, offset))
      case Raised => Raised
      case Decoded(n, v) => DecodeFields(fields[1..], b, offset + n, done[fields[0].name := v])
  }

  function DecodeElem(elem: Kind, b: Bytes): Decoded<Val>
    decreases elem, 2, 0
  {
    if elem.TRecord? then DecodeRecord(elem.fields, b) else Decode(elem, b)
  }

  /** The loop of `Array.from_bytes` with `n` elements to go. */
  function DecodeElems(elem: Kind, b: Bytes, offset: int, n: int, done: seq<Val>): Decoded<seq<Val>>
    decreases elem, 3, n
  {
    if n <= 0 then Decoded(offset, done)
    else
      match DecodeElem(elem, From(b, offset))
      case Raised => Raised
      case Decoded(k, v) => DecodeElems(elem, b, offset + k, n - 1, done + [v])
  }

  // ---------------------------------------------------------------- normal form

  /** A value as it comes back: defaults filled in, characters cut to one, empty optional records gone. */
  function Normal(t: Kind, v: Val): Val
    decreases t, 1, 0
  {
    match (t, v)
    case (TChar(_), VText(s)) => VText(First(s, 1))
    case (TRecord(fields, present), _) => if present && Absent(v) then VNone else NormalRecord(fields, v)
    case (TArray(elem, _), VArray(vs)) => VArray(NormalElems(elem, vs))
    case _ => v
  }

  function NormalRecord(fields: seq<Field>, v: Val): Val
    decreases fields, 1, 0
  {
    if v.VRecord? then VRecord(NormalFields(fields, v.values)) else v
  }

  function NormalFields(fields: seq<Field>, m: map<string, Val>): map<string, Val>
    decreases fields, 0, 0
  {
    if fields == [] then map[]
    else
      assert fields[0].kind < fields[0];
      map[fields[0].name := Normal(fields[0].kind, FieldValue(fields[0], m))] + NormalFields(fields[1..], m)
  }

  function NormalElem(elem: Kind, v: Val): Val
    decreases elem, 2, 0
  {
    if elem.TRecord? then NormalRecord(elem.fields, v) else Normal(elem, v)
  }

  function NormalElems(elem: Kind, vs: seq<Val>): (r: seq<Val>)
    ensures |r| == |vs|
    decreases elem, 3, |vs|
  {
    if vs == [] then [] else [NormalElem(elem, vs[0])] + NormalElems(elem, vs[1..])
  }

  // ---------------------------------------------------------------- values that survive

  /** No character is empty, and every fixed-length string fits and has no blanks at its ends. */
  predicate Survives(t: Kind, v: Val)
    decreases t, 1, 0
  {
    match (t, v)
    case (TChar(_), VText(s)) => s != []
    case (TFixed(_, n, _), VText(s)) => |s| <= n && Strip(s, Blank) == s
    case (TRecord(fields, present), _) => (present && Absent(v)) || (v.VRecord? && FieldsSurvive(fields, v.values))
    case (TArray(elem, _), VArray(vs)) => forall i :: 0 <= i < |vs| ==> ElemSurvives(elem, vs[i])
    case _ => true
  }

  predicate FieldsSurvive(fields: seq<Field>, m: map<string, Val>)
    decreases fields, 0, 0
  {
    forall i :: 0 <= i < |fields| ==>
      assert fields[i].kind < fields[i];
      Survives(fields[i].kind, FieldValue(fields[i], m))
  }

  predicate ElemSurvives(elem: Kind, v: Val)
    decreases elem, 2, 0
  {
    if elem.TRecord? then v.VRecord? && FieldsSurvive(elem.fields, v.values) else Survives(elem, v)
  }
}
