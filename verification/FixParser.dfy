/** The parsing loops of fix/core.py over a table of classes, proved to compute the recursive specification. */
module FixParser {
  import opened Bytes
  import opened FixCodec
  import opened FixClassTable
  import opened FixMessage

  /** The outcome of a loop that has read `gs` from `n` bytes and goes on as `p`. */
  function Resume(n: nat, gs: seq<Segment>, p: Parsed<seq<Segment>>): Parsed<seq<Segment>> {
    match p case Error => Error case Ok(m, more) => Ok(n + m, gs + more)
  }

  lemma {:induction false} ResumeStart(p: Parsed<seq<Segment>>)
    ensures Resume(0, [], p) == p
  {
    if p.Ok? { assert [] + p.value == p.value; }
  }

  lemma {:induction false} ResumeGroups(table: Table, entries: Indexed, b: Bytes, need: int, n: nat, gs: seq<Segment>)
    requires b != [] && need > 0
    ensures var p := ReadItems(table, entries, b, []);
            Resume(n, gs, ReadGroups(table, entries, b, need)) ==
            if p.Error? then Error
            else Resume(n + p.used, gs + [Segment(p.value)], ReadGroups(table, entries, b[p.used..], need - 1))
  {
    hide ReadItems;
    var p := ReadItems(table, entries, b, []);
    if p.Ok? {
      var q := ReadGroups(table, entries, b[p.used..], need - 1);
      if q.Ok? { Associates(gs, [Segment(p.value)], q.value); }
    }
  }

  lemma {:induction false} ParseSegmentsStep(schemas: seq<seq<Entry>>, b: Bytes)
    requires schemas != []
    ensures var p := ParseItems(schemas[0], b, []);
            ParseSegments(schemas, b) ==
            if p.Error? then Error else Resume(p.used, [Segment(p.value)], ParseSegments(schemas[1..], b[p.used..]))
  {
    hide ParseItems;
  }

  lemma {:induction false} ResumeSegments(schemas: seq<seq<Entry>>, b: Bytes, n: nat, segs: seq<Segment>)
    requires schemas != []
    ensures var p := ParseItems(schemas[0], b, []);
            Resume(n, segs, ParseSegments(schemas, b)) ==
            if p.Error? then Error
            else Resume(n + p.used, segs + [Segment(p.value)], ParseSegments(schemas[1..], b[p.used..]))
  {
    hide ParseItems, ParseSegments;
    ParseSegmentsStep(schemas, b);
    var p := ParseItems(schemas[0], b, []);
    if p.Ok? {
      var q := ParseSegments(schemas[1..], b[p.used..]);
      if q.Ok? { assert segs + ([Segment(p.value)] + q.value) == segs + [Segment(p.value)] + q.value; }
    }
  }

  /** How the loop over a segment goes on: it fails, ends, or reads one entry more. */
  lemma {:induction false} ReadItemsStep(table: Table, entries: Indexed, b: Bytes, done: seq<Tagged<Value>>, n: nat)
    requires b != []
    ensures var tag := HeadTag(b);
            && (tag.None? ==> ReadItems(table, entries, b, done) == Error)
            && (tag.Some? && (HasTag(done, tag.value) || Slot(entries, tag.value).None?) ==>
                  ReadItems(table, entries, b, done) == Ok(0, done))
            && (tag.Some? && !HasTag(done, tag.value) && Slot(entries, tag.value).Some? ==>
                  var p := ReadEntry(table, Slot(entries, tag.value).value, b);
                  && (p.Error? ==> ReadItems(table, entries, b, done) == Error)
                  && (p.Ok? ==>
                        Shift(n, ReadItems(table, entries, b, done)) ==
                        Shift(n + p.used, ReadItems(table, entries, b[p.used..], done + [Tagged(tag.value, p.value)]))))
  {
    hide HeadTag, Position, ReadEntry;
  }

  /** One entry of a segment: a field, or a container. */
  method EntryFromBytes(table: Table, e: ClassEntry, bytes: Bytes) returns (r: Parsed<Value>)
    ensures r == ReadEntry(table, e, bytes)
    decreases |bytes|, 0, 1
  {
    hide ParseField, ReadGroups;
    match e {
      case Plain(t) =>
        var f := ParseField(t, bytes);
        r := if f.Error? then Error else Ok(f.used, FieldVal(f.value));
      case Container(groupCls) =>
        r := ContainerFromBytes(table, groupCls, bytes);
    }
  }

  /** `DataSegment.from_bytes`. */
  method SegmentFromBytes(table: Table, entries: Indexed, bytes: Bytes) returns (r: Parsed<seq<Tagged<Value>>>)
    ensures r == ReadItems(table, entries, bytes, [])
    decreases |bytes|, 1, 0
  {
    hide HeadTag, Position, ReadItems, ReadEntry, ParseField;
    var b := bytes;
    var count := 0;
    var deserialized: seq<Tagged<Value>> := [];
    while |b| != 0
      invariant count + |b| == |bytes|
      invariant Shift(count, ReadItems(table, entries, b, deserialized)) == ReadItems(table, entries, bytes, [])
      decreases |b|
    {
      ReadItemsStep(table, entries, b, deserialized, count);
      var tag := HeadTag(b);
      if tag.None? {
        return Error;
      }
      if HasTag(deserialized, tag.value) {
        break;
      }
      var entry := Slot(entries, tag.value);
      if entry.None? {
        break;
      }
      var p := EntryFromBytes(table, entry.value, b);
      if p.Error? {
        return Error;
      }
      deserialized := deserialized + [Tagged(tag.value, p.value)];
      b := b[p.used..];
      count := count + p.used;
    }
    if b == [] { ReadItemsNil(table, entries, deserialized); }
    r := Ok(count, deserialized);
  }

  lemma {:induction false} ReadItemsNil(table: Table, entries: Indexed, done: seq<Tagged<Value>>)
    ensures ReadItems(table, entries, [], done) == Ok(0, done)
  {
  }

  /** `GroupContainer.from_bytes`. */
  method ContainerFromBytes(table: Table, groupCls: string, bytes: Bytes) returns (r: Parsed<Value>)
    ensures r == ReadEntry(table, Container(groupCls), bytes)
    decreases |bytes|, 0, 0
  {
    hide ReadItems, ReadGroups, ParseField;
    var entries := EntriesOf(table, groupCls);
    var f := ParseField(FixInt, bytes);
    if f.Error? {
      return Error;
    }
    var count := if f.value.IntV? then f.value.n else 0;
    var b := bytes[f.used..];
    var used: nat := 0;
    var deserialized: seq<Segment> := [];
    ResumeStart(ReadGroups(table, entries, b, count));
    while |b| != 0 && |deserialized| < count
      invariant f.used + used + |b| == |bytes|
      invariant |deserialized| <= count || deserialized == []
      invariant Resume(used, deserialized, ReadGroups(table, entries, b, count - |deserialized|))
             == ReadGroups(table, entries, bytes[f.used..], count)
      decreases count - |deserialized|
    {
      var p := SegmentFromBytes(table, entries, b);
      ResumeGroups(table, entries, b, count - |deserialized|, used, deserialized);
      if p.Error? {
        return Error;
      }
      b := b[p.used..];
      deserialized := deserialized + [Segment(p.value)];
      used := used + p.used;
    }
    ReadGroupsEnd(table, entries, b, count - |deserialized|);
    if |deserialized| != count {
      return Error;
    }
    Associates(deserialized, [], []);
    r := Ok(f.used + used, Groups(deserialized));
  }

  lemma {:induction false} ReadGroupsEnd(table: Table, entries: Indexed, b: Bytes, need: int)
    requires b == [] || need <= 0
    ensures ReadGroups(table, entries, b, need) == if need == 0 then Ok(0, []) else Error
  {
  }

  /** `from_bytes` of a concrete message class whose segment classes spell out the class's schemas. */
  method MessageFromBytes(table: Table, segments: seq<Indexed>, ghost cls: MessageClass, bytes: Bytes)
    returns (r: Parsed<Message>)
    requires |segments| == 3 && forall i :: 0 <= i < 3 ==> Spells(table, segments[i], cls.Schemas()[i])
    ensures r == FromBytes(cls, bytes)
  {
    hide ParseItems, ReadItems, Spells;
    ghost var schemas := cls.Schemas();
    var b := bytes;
    var total: nat := 0;
    var data: seq<Segment> := [];
    ResumeStart(ParseSegments(schemas, bytes));
    assert schemas[0..] == schemas;
    while |data| < |segments|
      invariant |data| <= |segments| && total + |b| == |bytes|
      invariant Resume(total, data, ParseSegments(schemas[|data|..], b)) == ParseSegments(schemas, bytes)
    {
      var p := SegmentFromBytes(table, segments[|data|], b);
      ItemsAlike(table, segments[|data|], schemas[|data|], b, []);
      ResumeSegments(schemas[|data|..], b, total, data);
      assert schemas[|data|..][1..] == schemas[|data| + 1..];
      if p.Error? {
        return Error;
      }
      total := total + p.used;
      data := data + [Segment(p.value)];
      b := b[p.used..];
    }
    r := Ok(total, Message(data[0], data[1], data[2]));
  }
}
