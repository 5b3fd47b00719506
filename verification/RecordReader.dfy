/** `from_bytes` of records and arrays as the loops they are. */
module RecordReader {
  import opened Bytes
  import opened BinaryInt
  import opened RecordCodec

  method FromBytes(t: Kind, b: Bytes) returns (r: Decoded<Val>)
    ensures r == Decode(t, b)
    decreases t, 1
  {
    match t
    case TRecord(fields, present) =>
      if !present {
        r := RecordFromBytes(fields, b);
      } else if First(b, 1) != [1] {
        r := Decoded(1, VNone);
      } else {
        r := RecordFromBytes(fields, From(b, 1));
        r := if r.Raised? then Raised else Decoded(1 + r.used, r.value);
      }
    case TArray(elem, count) => r := ArrayFromBytes(elem, count, b);
    case _ => r := Decode(t, b);
  }

  method RecordFromBytes(fields: seq<Field>, b: Bytes) returns (r: Decoded<Val>)
    ensures r == DecodeRecord(fields, b)
    decreases fields, 1
  {
    hide Decode, From;
    var offset: int := 0;
    var values: map<string, Val> := map[];
    var i := 0;
    while i < |fields|
      invariant i <= |fields|
      invariant DecodeFields(fields, b, 0, map[]) == DecodeFields(fields[i..], b, offset, values)
    {
      var f := fields[i];
      assert f in fields && f.kind < f;
      var d := FromBytes(f.kind, From(b, offset));
      assert fields[i..][0] == f && fields[i..][1..] == fields[i + 1..];
      if d.Raised? { return Raised; }
      offset := offset + d.used;
      values := values[f.name := d.value];
      i := i + 1;
    }
    r := Decoded(offset, VRecord(values));
  }

  /** The elements are unpacked by `Record.from_bytes`, past any present bit of their class. */
  method ArrayFromBytes(elem: Kind, count: IntType, b: Bytes) returns (r: Decoded<Val>)
    ensures r == Decode(TArray(elem, count), b)
    decreases elem, 3
  {
    hide DecodeElem, From, UnpackInt;
    var offset: int, len := count.size, UnpackInt(count, b);
    var data: seq<Val>, i := [], 0;
    while i < len
      invariant 0 <= i && (i <= len || i == 0)
      invariant DecodeElems(elem, b, count.size, len, []) == DecodeElems(elem, b, offset, len - i, data)
    {
      var d := ElemFromBytes(elem, From(b, offset));
      if d.Raised? { return Raised; }
      offset := offset + d.used;
      data := data + [d.value];
      i := i + 1;
    }
    r := Decoded(offset, VArray(data));
  }

  method ElemFromBytes(elem: Kind, b: Bytes) returns (r: Decoded<Val>)
    ensures r == DecodeElem(elem, b)
    decreases elem, 2
  {
    if elem.TRecord? { r := RecordFromBytes(elem.fields, b); } else { r := FromBytes(elem, b); }
  }
}
