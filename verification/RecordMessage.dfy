/** Messages made of an id and a body record, and the table of their classes (CommonMessage, SoupAppMessage). */
module RecordMessage {
  import opened Bytes
  import opened BinaryInt
  import opened RecordCodec
  import opened RecordRoundTrip

  const BYTE := IntType(1, false, false)

  datatype Direction = Outgoing | Incoming
  datatype MsgId = MsgId(indicator: int, direction: Direction)
  datatype MsgClass = MsgClass(app: string, name: string, id: MsgId, fields: seq<Field>, present: bool) {
    function Body(): Kind { TRecord(fields, present) }
  }

  type Table = map<(string, MsgId), MsgClass>

  /** `CommonMessage.__init_subclass__`: one class for an id within an application. */
  class Registry {
    var byId: Table
    var byName: map<(string, string), MsgClass>

    constructor ()
      ensures byId == map[] && byName == map[]
    {
      byId, byName := map[], map[];
    }

    /** False for the DuplicateMessageException, which leaves both tables as they were. */
    method Register(c: MsgClass) returns (ok: bool)
      modifies this
      ensures ok <==> (c.app, c.id) !in old(byId) || old(byId)[(c.app, c.id)] == c
      ensures byId == if ok then old(byId)[(c.app, c.id) := c] else old(byId)
      ensures byName == if ok then old(byName)[(c.app, c.name) := c] else old(byName)
      ensures Filed(old(byId)) ==> Filed(byId)
    {
      if (c.app, c.id) in byId && byId[(c.app, c.id)] != c { return false; }
      byId := byId[(c.app, c.id) := c];
      byName := byName[(c.app, c.name) := c];
      ok := true;
    }
  }

  /** Every class stands under its own application and id. */
  predicate Filed(table: Table) {
    forall k :: k in table ==> k == (table[k].app, table[k].id)
  }

  datatype Incoming = Got(used: int, cls: MsgClass, body: Val) | Failed

  /** `BodyRecord()`: nothing set, except that every record among the fields is made, and so on inside it. */
  function BlankValues(fields: seq<Field>): map<string, Val>
    decreases fields
  {
    if fields == [] then map[]
    else
      assert fields[0].kind < fields[0];
      (if fields[0].kind.TRecord? then map[fields[0].name := VRecord(BlankValues(fields[0].kind.fields))] else map[])
      + BlankValues(fields[1..])
  }

  /** A message made without a record gets a blank one. */
  function Installed(c: MsgClass, v: Val): Val {
    if v.VNone? then VRecord(BlankValues(c.fields)) else v
  }

  /** `to_bytes` of a message: its indicator byte and its body. */
  function MessageToBytes(c: MsgClass, v: Val): Option<Bytes> {
    match (PackInt(BYTE, c.id.indicator), Encode(c.Body(), v))
    case (Some(b), Encoded(_, body)) => Some(b + body)
    case _ => None
  }

  /** `from_bytes`: an id read from the wire always has the default direction. */
  function MessageFromBytes(table: Table, app: string, b: Bytes): Incoming {
    var id := MsgId(UnpackInt(BYTE, b), Outgoing);
    if (app, id) !in table then Failed
    else
      var c := table[(app, id)];
      match Decode(c.Body(), From(b, 1))
      case Raised => Failed
      case Decoded(n, v) => Got(1 + n, c, Installed(c, v))
  }

  /** The message is its indicator in one byte, 0 to 255, and the bytes of its body. */
  lemma {:induction false} MessageLayout(c: MsgClass, v: Val)
    ensures var r, body := MessageToBytes(c, v), Encode(c.Body(), v);
            && (r.Some? <==> 0 <= c.id.indicator < 256 && body.Encoded?)
            && (r.Some? ==> r.value == [c.id.indicator] + body.bytes)
  {
    hide Encode;
    assert Pow256(1) == 256 * Pow256(0);
    assert 0 <= c.id.indicator < 256 ==> Little(c.id.indicator, 1) == [c.id.indicator];
  }

  /** A value that does not survive was not taken for an absent record. */
  lemma {:induction false} NotSurvivingIsPresent(c: MsgClass, v: Val)
    requires Encode(c.Body(), v).Encoded? && !Survives(c.Body(), v)
    ensures v.VRecord? && Normal(c.Body(), v).VRecord?
    ensures var d := Decode(c.Body(), Encode(c.Body(), v).bytes);
            d.Decoded? ==> d.value.VRecord?
  {
    hide EncodeFields, DecodeFields, NormalFields, FieldsSurvive;
    if c.present {
      var e := EncodeRecord(c.fields, v).bytes;
      Present(e, []);
      assert [1] + e + [] == [1] + e;
    }
  }

  /**
   * A message of a registered class comes back, as its class, with every byte used and its defaults filled in,
   * exactly when its class is registered as outgoing and its body survives. An absent body comes back blank.
   */
  lemma {:induction false} RoundTrip(table: Table, c: MsgClass, v: Val)
    requires Filed(table) && (c.app, c.id) in table && table[(c.app, c.id)] == c
    requires KindOk(c.Body()) && MessageToBytes(c, v).Some?
    ensures var b := MessageToBytes(c, v).value;
            MessageFromBytes(table, c.app, b) == Got(|b|, c, Installed(c, Normal(c.Body(), v)))
            <==> c.id.direction.Outgoing? && Survives(c.Body(), v)
  {
    hide PackInt, UnpackInt, Encode, Decode, Normal, Survives, KindOk, BlankValues;
    var head, body := PackInt(BYTE, c.id.indicator).value, Encode(c.Body(), v).bytes;
    IntThrough(BYTE, c.id.indicator, body);
    assert From(head + body, 1) == body;
    RecordRoundTrip.RoundTrip(c.Body(), v);
    if !Survives(c.Body(), v) { NotSurvivingIsPresent(c, v); }
  }

  /** A blank record holds a blank record for every record among its fields, and nothing else. */
  lemma {:induction false} BlankHolds(fields: seq<Field>, i: nat)
    requires FieldsOk(fields) && i < |fields|
    ensures var f, blank := fields[i], BlankValues(fields);
            && (f.name in blank <==> f.kind.TRecord?)
            && (f.kind.TRecord? ==> blank[f.name] == VRecord(BlankValues(f.kind.fields)))
    decreases i
  {
    hide KindOk;
    FirstField(fields, map[]);
    BlankNames(fields[1..], fields[0].name);
    if i > 0 {
      assert fields[i] in fields[1..];
      BlankHolds(fields[1..], i - 1);
    }
  }

  lemma {:induction false} BlankNames(fields: seq<Field>, name: string)
    requires forall f :: f in fields ==> f.name != name
    ensures name !in BlankValues(fields)
  {
    if fields != [] { BlankNames(fields[1..], name); }
  }

  lemma {:induction false} BlankNested(fields: seq<Field>)
    ensures BlankValues(fields) == map[] <==> forall f :: f in fields ==> !f.kind.TRecord?
  {
    if fields != [] {
      BlankNested(fields[1..]);
      assert forall f :: f in fields <==> f == fields[0] || f in fields[1..];
      assert fields[0].kind.TRecord? ==> fields[0].name in BlankValues(fields);
    }
  }

  /**
   * An absent body, decoded, is encoded as absent again exactly when its class nests no record: otherwise the
   * blank record that was installed holds records, counts as present, and the message has changed.
   */
  lemma {:induction false} AbsentBody(c: MsgClass)
    requires c.present
    ensures Decode(c.Body(), [0]) == Decoded(1, VNone)
    ensures Encode(c.Body(), Installed(c, VNone)) == Encoded(1, [0]) <==> forall f :: f in c.fields ==> !f.kind.TRecord?
  {
    hide EncodeFields, BlankValues;
    BlankNested(c.fields);
    var absent: Bytes := [0];
    assert First(absent, 1) == absent && absent[0] == 0;
    var v := Installed(c, VNone);
    var r := EncodeRecord(c.fields, v);
    if r.Encoded? { assert ([1] + r.bytes)[0] == 1; }
  }
}
