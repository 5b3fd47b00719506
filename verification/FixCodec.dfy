/** The FIX tag=value codec: schemas, values, printing and parsing (fix/core.py, fix/types.py). */
module FixCodec {
  import opened Bytes

  datatype FieldType = FixString | FixInt | FixBool

  /** A str is held as its code points. */
  datatype FieldValue = StrV(s: Bytes) | IntV(n: int) | BoolV(b: bool)

  /** The class-level `Entries` of a DataSegment or Group: plain fields and group containers. */
  datatype Entry =
    | FieldEntry(tag: int, ftype: FieldType)
    | GroupEntry(tag: int, group: Schema)
  datatype Schema = Schema(entries: seq<Entry>)

  /** One slot of an insertion-ordered dictionary keyed by tag. */
  datatype Tagged<+T> = Tagged(tag: int, value: T)

  datatype Value = FieldVal(v: FieldValue) | Groups(groups: seq<Segment>)
  datatype Segment = Segment(items: seq<Tagged<Value>>)

  /** A result of `from_bytes`: bytes used and value, or the ValueError that was raised. */
  datatype Parsed<+T> = Ok(used: nat, value: T) | Error

  // ---------------------------------------------------------------- dictionaries

  /** The slot of `tag`, or -1 when the dictionary does not hold it. */
  function Position<T>(items: seq<Tagged<T>>, tag: int): (i: int)
    ensures -1 <= i < |items|
    ensures i == -1 ==> forall x :: x in items ==> x.tag != tag
    ensures i != -1 ==> items[i].tag == tag
  {
    if items == [] then -1
    else if items[|items| - 1].tag == tag then |items| - 1
    else Position(items[..|items| - 1], tag)
  }

  predicate HasTag<T>(items: seq<Tagged<T>>, tag: int) {
    Position(items, tag) != -1
  }

  /** The value stored under a tag. */
  function Slot<T>(items: seq<Tagged<T>>, tag: int): Option<T> {
    var i := Position(items, tag);
    if i == -1 then None else Some(items[i].value)
  }

  predicate DistinctTags<T>(items: seq<Tagged<T>>) {
    forall i, j :: 0 <= i < j < |items| ==> items[i].tag != items[j].tag
  }

  /** `IndexedEntries[tag]`; a later entry with the same tag overwrites an earlier one. */
  function Lookup(entries: seq<Entry>, tag: int): (r: Option<Entry>)
    ensures r.Some? ==> r.value in entries && r.value.tag == tag
    ensures r.None? ==> forall e :: e in entries ==> e.tag != tag
  {
    if entries == [] then None
    else if entries[|entries| - 1].tag == tag then Some(entries[|entries| - 1])
    else Lookup(entries[..|entries| - 1], tag)
  }

  /** The slots present in `items`, in the order the entries are defined. */
  function Ordered<T>(entries: seq<Entry>, items: seq<Tagged<T>>): (r: seq<Tagged<T>>)
    ensures forall x :: x in r ==> x in items
  {
    if entries == [] then []
    else
      var i := Position(items, entries[0].tag);
      var tail := Ordered(entries[1..], items);
      if i == -1 then tail else [items[i]] + tail
  }

  // ---------------------------------------------------------------- fields

  function PackValue(v: FieldValue): Bytes {
    match v
    case StrV(s) => s
    case IntV(n) => ShowInt(n)
    case BoolV(b) => if b then [89] else [78]
  }

  function UnpackValue(t: FieldType, b: Bytes): Option<FieldValue> {
    match t
    case FixString => if Ascii(b) then Some(StrV(b)) else None
    case FixInt => (match ParseInt(b) case None => None case Some(n) => Some(IntV(n)))
    case FixBool => Some(BoolV(b == [89]))
  }

  function PrintField(tag: int, v: FieldValue): Bytes {
    ShowInt(tag) + [EQUALS] + PackValue(v)
  }

  /** `Field.from_bytes`: the value runs from the first `=` to the first SOH, or to the end. */
  function ParseField(t: FieldType, b: Bytes): (r: Parsed<FieldValue>)
    ensures r.Ok? ==> 0 < r.used <= |b|
  {
    var eq := Find(b, EQUALS, 0);
    var soh := Find(b, SOH, 0);
    if eq == -1 then Error
    else
      var end := if soh == -1 then |b| else soh;
      match UnpackValue(t, Slice(b, eq + 1, end))
      case None => Error
      case Some(v) => Ok(if soh == -1 then |b| else soh + 1, v)
  }

  // ---------------------------------------------------------------- printing

  /** `SOH.join(...)` over the values of a dictionary. */
  function Join(parts: seq<Tagged<Bytes>>): Bytes {
    if parts == [] then []
    else if |parts| == 1 then parts[0].value
    else parts[0].value + [SOH] + Join(parts[1..])
  }

  ghost predicate TypedValue(e: Entry, v: Value)
    decreases v
  {
    match (e, v)
    case (FieldEntry(_, t), FieldVal(x)) =>
      && (t.FixString? <==> x.StrV?) && (t.FixInt? <==> x.IntV?)
      && (x.StrV? ==> Ascii(x.s))
    case (GroupEntry(_, group), Groups(gs)) =>
      forall g :: g in gs ==> Typed(group.entries, g)
    case _ => false
  }

  /** What `from_value` establishes: distinct known tags, each with a value of its entry's type. */
  ghost predicate Typed(entries: seq<Entry>, seg: Segment)
    decreases seg
  {
    && DistinctTags(seg.items)
    && forall x :: x in seg.items ==>
      && Lookup(entries, x.tag).Some?
      && TypedValue(Lookup(entries, x.tag).value, x.value)
  }

  /** A value printed by itself: `tag=value`, or the count field and the groups joined by SOH. */
  function PrintValue(tag: int, e: Option<Entry>, v: Value): Bytes
    decreases v, 0
  {
    match v
    case FieldVal(x) => PrintField(tag, x)
    case Groups(gs) =>
      PrintField(tag, IntV(|gs|)) +
      PrintGroups(if e.Some? && e.value.GroupEntry? then e.value.group.entries else [], gs)
  }

  /** The groups of a container, each after an SOH, each with its fields in definition order. */
  function PrintGroups(entries: seq<Entry>, gs: seq<Segment>): Bytes
    decreases gs, 0
  {
    if gs == [] then []
    else [SOH] + Join(Ordered(entries, Pieces(entries, gs[0].items))) + PrintGroups(entries, gs[1..])
  }

  function Pieces(entries: seq<Entry>, items: seq<Tagged<Value>>): (r: seq<Tagged<Bytes>>)
    ensures |r| == |items| && forall i :: 0 <= i < |r| ==> r[i].tag == items[i].tag
    decreases items, 1
  {
    if items == [] then []
    else
      assert items[0].value < items[0];
      [Tagged(items[0].tag, PrintValue(items[0].tag, Lookup(entries, items[0].tag), items[0].value))]
      + Pieces(entries, items[1..])
  }

  /** `DataSegment.to_bytes`: insertion order. */
  function PrintSegment(entries: seq<Entry>, seg: Segment): Bytes {
    Join(Pieces(entries, seg.items))
  }

  // ---------------------------------------------------------------- parsing

  /** The tag read at the head of the input; without any `=` the code drops the last byte. */
  function HeadTag(b: Bytes): Option<int>
    requires b != []
  {
    var eq := Find(b, EQUALS, 0);
    ParseInt(if eq == -1 then b[..|b| - 1] else b[..eq])
  }

  /** `DataSegment.from_bytes` after the slots in `done` have been read. */
  function ParseItems(entries: seq<Entry>, b: Bytes, done: seq<Tagged<Value>>): (r: Parsed<seq<Tagged<Value>>>)
    ensures r.Ok? ==> r.used <= |b| && done <= r.value
    decreases |b|, 1, 0
  {
    if b == [] then Ok(0, done)
    else
      match HeadTag(b)
      case None => Error
      case Some(tag) =>
        if HasTag(done, tag) || Lookup(entries, tag).None? then Ok(0, done)
        else
          match ParseEntry(Lookup(entries, tag).value, b)
          case Error => Error
          case Ok(n, v) => Shift(n, ParseItems(entries, b[n..], done + [Tagged(tag, v)]))
  }

  function ParseEntry(e: Entry, b: Bytes): (r: Parsed<Value>)
    ensures r.Ok? ==> 0 < r.used <= |b|
    decreases |b|, 0, 0
  {
    match e
    case FieldEntry(_, t) =>
      (match ParseField(t, b) case Error => Error case Ok(n, v) => Ok(n, FieldVal(v)))
    case GroupEntry(_, group) =>
      match ParseField(FixInt, b)
      case Error => Error
      case Ok(n, count) =>
        match ParseGroups(group.entries, b[n..], if count.IntV? then count.n else 0)
        case Error => Error
        case Ok(m, gs) => Ok(n + m, Groups(gs))
  }

  /** The groups loop of `GroupContainer.from_bytes`, `need` groups short of the declared count. */
  function ParseGroups(entries: seq<Entry>, b: Bytes, need: int): (r: Parsed<seq<Segment>>)
    ensures r.Ok? ==> r.used <= |b| && |r.value| == need
    decreases |b|, 2, if need > 0 then need else 0
  {
    if b == [] || need <= 0 then (if need == 0 then Ok(0, []) else Error)
    else
      match ParseItems(entries, b, [])
      case Error => Error
      case Ok(n, items) =>
        match ParseGroups(entries, b[n..], need - 1)
        case Error => Error
        case Ok(m, gs) => Ok(n + m, [Segment(items)] + gs)
  }

  function Shift<T>(n: nat, p: Parsed<T>): Parsed<T> {
    match p case Error => Error case Ok(m, v) => Ok(n + m, v)
  }
}
