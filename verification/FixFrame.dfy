/** Outgoing FIX frames (fix/session.py), and cutting them out of a byte stream (fix/_reader.py). */
module FixFrame {
  import opened Bytes
  import opened Framing
  import opened SessionDrain
  import opened FixCodec
  import opened FixMessage

  const TRAILER_LENGTH := 7
  const TYPE_MARK: Bytes := [51, 53, 61]   // 35=

  // ---------------------------------------------------------------- searching

  predicate MarkAt(b: Bytes, mark: Bytes, i: int) {
    0 <= i && i + |mark| <= |b| && b[i..i + |mark|] == mark
  }

  /** Python's `b.find(mark)` from position `from`. */
  function FindMark(b: Bytes, mark: Bytes, from: nat): (i: int)
    ensures i == -1 ==> forall k :: from <= k ==> !MarkAt(b, mark, k)
    ensures i != -1 ==> from <= i && MarkAt(b, mark, i) && forall k :: from <= k < i ==> !MarkAt(b, mark, k)
    decreases |b| - from
  {
    if from + |mark| > |b| then -1 else if MarkAt(b, mark, from) then from else FindMark(b, mark, from + 1)
  }

  // ---------------------------------------------------------------- dispatch

  /** `Message.Def`: message classes by name and by type. */
  type Registry = map<Bytes, MessageClass>

  datatype Received = Received(cls: MessageClass, msg: Message)

  /** `Message.get_msg_type`, with Python's slices: a search that finds nothing yields -1. */
  function TypeText(b: Bytes): Bytes {
    var start := FindMark(b, TYPE_MARK, 0) + 2;
    var end := Find(b, SOH, start);
    Slice(b, start + 1, if end != -1 then end else if b == [] then 0 else |b| - 1)
  }

  /** `Message.from_bytes`: the class is chosen by type; a KeyError or ValueError is an Error. */
  function Dispatch(defs: Registry, b: Bytes): Parsed<Received> {
    var t := TypeText(b);
    if !Ascii(t) || t !in defs then Error
    else
      match FromBytes(defs[t], b)
      case Error => Error
      case Ok(n, m) => Ok(n, Received(defs[t], m))
  }

  // ---------------------------------------------------------------- the reader

  function CalcMsgLen(thirdFieldPos: nat, bodyLength: int): int {
    thirdFieldPos + bodyLength + TRAILER_LENGTH
  }

  /** The message length announced by the unread bytes: not there yet, not a number, or known. */
  datatype Announced = Unknown | Malformed | Length(size: int)

  function Announce(view: Bytes): Announced {
    if FindMark(view, TYPE_MARK, 0) == -1 then Unknown
    else
      var start := Find(view, EQUALS, 2);
      if start == -1 then Unknown
      else
        var end := Find(view, SOH, start);
        if end == -1 then Unknown
        else
          match ParseInt(Slice(view, start + 1, end))
          case None => Malformed
          case Some(n) => Length(CalcMsgLen(end + 1, n))
  }

  /**
   * `FixMessageReader.deserialize` on the unread bytes. The announced length is signed, and a negative one cuts
   * the unread bytes short from their end.
   */
  function Peek(defs: Registry, view: Bytes): Outcome<Received> {
    match Announce(view)
    case Unknown => Wait
    case Malformed => Broken
    case Length(size) =>
      if |view| < size then Wait
      else
        match Dispatch(defs, Upto(view, size))
        case Error => Broken
        case Ok(_, r) => Frame(size, r)
  }

  const HEARTBEAT_TYPE: Bytes := [48]   // 0
  const LOGOUT_TYPE: Bytes := [53]      // 5

  function Fix(defs: Registry): Protocol<Received> {
    Protocol(b => Peek(defs, b),
             (r: Received) => r.cls.msgType == LOGOUT_TYPE,
             (r: Received) => r.cls.msgType == HEARTBEAT_TYPE)
  }

  lemma {:induction false} FindExtended(b: Bytes, c: byte, from: nat, more: Bytes)
    requires Find(b, c, from) != -1
    ensures Find(b + more, c, from) == Find(b, c, from)
  {
    var i, j := Find(b, c, from), Find(b + more, c, from);
    assert (b + more)[i] == c;
    assert forall k :: 0 <= k < |b| ==> (b + more)[k] == b[k];
  }

  lemma {:induction false} FindMarkExtended(b: Bytes, mark: Bytes, more: Bytes)
    requires FindMark(b, mark, 0) != -1
    ensures FindMark(b + more, mark, 0) == FindMark(b, mark, 0)
  {
    var i, j := FindMark(b, mark, 0), FindMark(b + more, mark, 0);
    assert MarkAt(b + more, mark, i) by { assert (b + more)[i..i + |mark|] == b[i..i + |mark|]; }
    forall k | 0 <= k < i ensures !MarkAt(b + more, mark, k) {
      assert (b + more)[k..k + |mark|] == b[k..k + |mark|];
      assert !MarkAt(b, mark, k);
    }
  }

  lemma {:induction false} SliceExtended(b: Bytes, i: nat, j: nat, more: Bytes)
    requires j <= |b|
    ensures Slice(b + more, i, j) == Slice(b, i, j)
  {
  }

  lemma {:induction false} AnnounceExtended(b: Bytes, more: Bytes)
    requires !Announce(b).Unknown?
    ensures Announce(b + more) == Announce(b)
  {
    hide ParseInt, Find, FindMark;
    var start := Find(b, EQUALS, 2);
    var end := Find(b, SOH, start);
    FindMarkExtended(b, TYPE_MARK, more);
    FindExtended(b, EQUALS, 2, more);
    FindExtended(b, SOH, start, more);
    SliceExtended(b, start + 1, end, more);
  }

  /** The unread bytes announce a length with which the reader would not move on. */
  predicate Stuck(view: Bytes) {
    Announce(view).Length? && Announce(view).size <= 0
  }

  /**
   * Whatever classes are registered: an answer of the reader stands when more bytes arrive, for all unread bytes
   * that do not announce a negative length.
   */
  lemma {:induction false} AnswerStands(defs: Registry, b: Bytes, c: Bytes)
    requires Announce(b).Length? ==> Announce(b).size >= 0
    requires !Peek(defs, b).Wait?
    ensures Peek(defs, b + c) == Peek(defs, b)
  {
    hide Dispatch, Announce;
    AnnounceExtended(b, c);
    if Announce(b).Length? { assert Upto(b + c, Announce(b).size) == Upto(b, Announce(b).size); }
  }

  /** The bytes the reader would parse as one message. */
  function Cut(view: Bytes): Bytes
    requires Announce(view).Length?
  {
    Upto(view, Announce(view).size)
  }

  /** The bytes cut off as a message stay the same whatever follows exactly when the length is not negative. */
  lemma {:induction false} CutStands(b: Bytes)
    requires Announce(b).Length? && Announce(b).size <= |b|
    ensures (forall c {:trigger b + c} :: Announce(b + c).Length? && Cut(b + c) == Cut(b)) <==> Announce(b).size >= 0
  {
    hide Announce;
    var size := Announce(b).size;
    if size >= 0 {
      forall c: Bytes ensures Announce(b + c).Length? && Cut(b + c) == Cut(b) {
        AnnounceExtended(b, c);
        assert Upto(b + c, size) == Upto(b, size);
      }
    } else {
      var c: Bytes := seq(-size, _ => 0);
      AnnounceExtended(b, c);
      AnnounceNothing();
      assert Upto(b + c, size) == b;
      assert |Upto(b, size)| < |b|;
      assert !(Announce(b + c).Length? && Cut(b + c) == Cut(b));
    }
  }

  /** The reader that gives up where it would not move on. */
  function Guarded(defs: Registry): Protocol<Received> {
    Fix(defs).(peek := b => if Stuck(b) then Broken else Peek(defs, b))
  }

  /** Every byte stream: up to an announcement of a length that is not positive, no answer of the reader changes. */
  lemma {:induction false} FixIncremental(defs: Registry)
    ensures Incremental(Guarded(defs)) && Guards(Guarded(defs), Fix(defs))
  {
    hide Dispatch, Announce;
    AnnounceNothing();
    var q := Guarded(defs);
    forall b: Bytes, c: Bytes
      ensures (q.peek(b).Frame? ==> 0 < q.peek(b).size <= |b|)
      ensures (!q.peek(b).Wait? ==> q.peek(b + c) == q.peek(b))
    {
      if !Announce(b).Unknown? { AnnounceExtended(b, c); }
      if !q.peek(b).Wait? && !Stuck(b) { AnswerStands(defs, b, c); }
    }
  }

  lemma {:induction false} AnnounceNothing()
    ensures Announce([]) == Unknown
  {
  }

  // ---------------------------------------------------------------- outgoing frames

  function Sum(b: Bytes): nat {
    if b == [] then 0 else Sum(b[..|b| - 1]) + b[|b| - 1]
  }

  /** `str(n).rjust(3, '0')` for a checksum. */
  function Pad3(n: nat): Bytes
    requires n < 256
  {
    if n < 10 then [ZERO, ZERO] + ShowNat(n) else if n < 100 then [ZERO] + ShowNat(n) else ShowNat(n)
  }

  function Stamp(tag: int, text: Bytes): Bytes {
    PrintField(tag, StrV(text)) + [SOH]
  }

  /** BeginString and BodyLength. */
  function Prefix(begin: Bytes, length: nat): Bytes {
    Stamp(8, begin) + PrintField(9, IntV(length)) + [SOH]
  }

  function Checked(begin: Bytes, msgType: Bytes, payload: Bytes): Bytes {
    var body := Stamp(35, msgType) + payload;
    Prefix(begin, |body|) + body
  }

  function FrameOf(begin: Bytes, msgType: Bytes, payload: Bytes): Bytes {
    var checked := Checked(begin, msgType, payload);
    checked + Stamp(10, Pad3(Sum(checked) % 256))
  }

  lemma {:induction false} LeadingZero(s: Bytes)
    requires AllDigits(s)
    ensures DigitsValue([ZERO] + s) == DigitsValue(s)
  {
    if s != [] {
      LeadingZero(s[..|s| - 1]);
      assert ([ZERO] + s)[..|s|] == [ZERO] + s[..|s| - 1];
    } else {
      assert [ZERO] + s == [ZERO] && [ZERO][..0] == [];
    }
  }

  lemma {:induction false} Pad3Value(n: nat)
    requires n < 256
    ensures |Pad3(n)| == 3 && AllDigits(Pad3(n)) && ParseInt(Pad3(n)) == Some(n)
  {
    ShowNatParses(n);
    var s := ShowNat(n);
    if n < 10 {
      LeadingZero(s);
      LeadingZero([ZERO] + s);
      assert [ZERO, ZERO] + s == [ZERO] + ([ZERO] + s);
    } else if n < 100 {
      LeadingZero(s);
      assert |ShowNat(n / 10)| == 1;
    } else {
      assert n / 10 >= 10 && (n / 10) / 10 < 10;
      assert |ShowNat((n / 10) / 10)| == 1;
      assert |ShowNat(n / 10)| == 2;
    }
  }

  /** A BeginString or MsgType that can be framed. */
  predicate Plain(text: Bytes) {
    Ascii(text) && SOH !in text && EQUALS !in text
  }

  lemma {:induction false} SmallNumbers()
    ensures ShowInt(8) == [56] && ShowInt(9) == [57]
    ensures ShowInt(10) == [49, 48] && ShowInt(35) == [51, 53]
  {
    assert ShowNat(1) == [49] && ShowNat(3) == [51];
  }

  /** Where BeginString and BodyLength stand. */
  lemma {:induction false} PrefixLayout(begin: Bytes, length: nat, rest: Bytes)
    ensures var digits, e := ShowNat(length), |begin| + 4;
            var h := e + 2 + |digits|;
            var b := Prefix(begin, length) + rest;
            && |Prefix(begin, length)| == h
            && b[..2] == [56, 61] && b[2..e - 2] == begin && b[e - 2..e + 1] == [SOH, 57, EQUALS]
            && b[e + 1..h - 1] == digits && b[h - 1] == SOH && b[h..] == rest
  {
    hide ShowNat, Prefix;
    PrefixBytes(begin, length);
    FourParts([56, 61], begin, [SOH, 57, EQUALS], ShowNat(length), [SOH] + rest);
    var b := Prefix(begin, length) + rest;
    assert b == [56, 61] + (begin + ([SOH, 57, EQUALS] + (ShowNat(length) + ([SOH] + rest))));
    assert ([SOH] + rest)[1..] == rest;
  }

  lemma {:induction false} PrefixBytes(begin: Bytes, length: nat)
    ensures Prefix(begin, length) == [56, 61] + (begin + ([SOH, 57, EQUALS] + (ShowNat(length) + [SOH])))
  {
    hide ShowNat, ShowInt;
    SmallNumbers();
    ShowIntNat(length);
  }

  /** Four pieces and what follows them, each where the lengths say. */
  lemma {:induction false} FourParts(p: Bytes, q: Bytes, r: Bytes, s: Bytes, rest: Bytes)
    ensures var b := p + (q + (r + (s + rest)));
            var i, j, k := |p| + |q|, |p| + |q| + |r|, |p| + |q| + |r| + |s|;
            && b[..|p|] == p && b[|p|..i] == q && b[i..j] == r && b[j..k] == s && b[k..] == rest
  {
    var z := s + rest;
    var y := r + z;
    var x := q + y;
    Parts(s, rest);
    Parts(r, z);
    Parts(q, y);
    Parts(p, x);
    var b, n := p + x, |q| + |r| + |s|;
    Shifted(p, x, 0, |q|);
    Shifted(p, x, |q|, |q| + |r|);
    Shifted(p, x, |q| + |r|, n);
    Shifted(p, x, n, |x|);
    Shifted(q, y, 0, |r|);
    Shifted(q, y, |r|, |r| + |s|);
    Shifted(q, y, |r| + |s|, |y|);
    Shifted(r, z, 0, |s|);
    Shifted(r, z, |s|, |z|);
  }

  lemma {:induction false} Shifted(p: Bytes, x: Bytes, i: nat, j: nat)
    requires i <= j <= |x|
    ensures (p + x)[|p| + i..|p| + j] == x[i..j]
  {
  }

  lemma {:induction false} ShowIntNat(n: nat)
    ensures ShowInt(n) == ShowNat(n)
  {
  }

  /** The trailer is always `10=` and three digits and an SOH. */
  lemma {:induction false} TrailerLayout(n: nat)
    requires n < 256
    ensures var t := Stamp(10, Pad3(n));
            |t| == TRAILER_LENGTH && t[..3] == [49, 48, EQUALS] && t[3..6] == Pad3(n) && t[6] == SOH
  {
    hide ShowInt, ShowNat, Pad3;
    SmallNumbers();
    Pad3Value(n);
  }

  lemma {:induction false} TypeLayout(msgType: Bytes, rest: Bytes)
    ensures var b := Stamp(35, msgType) + rest;
            && |b| >= |msgType| + 4 && b[..3] == TYPE_MARK && b[3..3 + |msgType|] == msgType && b[3 + |msgType|] == SOH
  {
    hide ShowInt, ShowNat;
    SmallNumbers();
  }

  /** The bytes of the header up to BodyLength, one by one. */
  lemma {:induction false} HeaderBytes(begin: Bytes, length: nat, rest: Bytes)
    ensures var b := Prefix(begin, length) + rest;
            var e, h := |begin| + 4, |Prefix(begin, length)|;
            && h == e + 2 + |ShowNat(length)|
            && b[0] == 56 && b[1] == EQUALS && b[e - 2] == SOH && b[e - 1] == 57 && b[e] == EQUALS && b[h - 1] == SOH
            && (forall k :: 2 <= k < e - 2 ==> b[k] == begin[k - 2])
            && b[e + 1..h - 1] == ShowNat(length)
  {
    hide ShowNat, Prefix;
    PrefixLayout(begin, length, rest);
    var b := Prefix(begin, length) + rest;
    var e := |begin| + 4;
    assert b[..2][0] == b[0] && b[..2][1] == b[1];
    assert b[e - 2..e + 1][0] == b[e - 2] && b[e - 2..e + 1][1] == b[e - 1] && b[e - 2..e + 1][2] == b[e];
    forall k | 2 <= k < e - 2 ensures b[k] == begin[k - 2] { assert b[2..e - 2][k - 2] == b[k]; }
  }

  /** The bytes of the MsgType field, one by one, `h` bytes into the input. */
  lemma {:induction false} TypeBytes(front: Bytes, msgType: Bytes, rest: Bytes)
    ensures var b, h := front + (Stamp(35, msgType) + rest), |front|;
            && |b| >= h + |msgType| + 4
            && b[h] == 51 && b[h + 1] == 53 && b[h + 2] == EQUALS
            && b[h + 3..h + 3 + |msgType|] == msgType && b[h + 3 + |msgType|] == SOH
  {
    hide Stamp;
    TypeLayout(msgType, rest);
    var t := Stamp(35, msgType) + rest;
    var b, h := front + t, |front|;
    assert t[..3][0] == b[h] && t[..3][1] == b[h + 1] && t[..3][2] == b[h + 2];
    assert b[h + 3..h + 3 + |msgType|] == t[3..3 + |msgType|];
    assert b[h + 3 + |msgType|] == t[3 + |msgType|];
  }

  /** The bytes of a frame up to the end of its MsgType field, one by one. */
  lemma {:induction false} FrameBytes(begin: Bytes, msgType: Bytes, payload: Bytes, rest: Bytes)
    ensures var b := FrameOf(begin, msgType, payload) + rest;
            var length := |Stamp(35, msgType) + payload|;
            var e, h := |begin| + 4, |Prefix(begin, length)|;
            && |FrameOf(begin, msgType, payload)| == h + length + TRAILER_LENGTH
            && h == e + 2 + |ShowNat(length)| && length >= |msgType| + 4
            && b[0] == 56 && b[1] == EQUALS && b[e - 2] == SOH && b[e - 1] == 57 && b[e] == EQUALS && b[h - 1] == SOH
            && (forall k :: 2 <= k < e - 2 ==> b[k] == begin[k - 2])
            && b[e + 1..h - 1] == ShowNat(length)
            && b[h] == 51 && b[h + 1] == 53 && b[h + 2] == EQUALS
            && b[h + 3..h + 3 + |msgType|] == msgType && b[h + 3 + |msgType|] == SOH
  {
    hide ShowInt, ShowNat, Sum, Pad3, Stamp, Prefix;
    var body := Stamp(35, msgType) + payload;
    var checked := Checked(begin, msgType, payload);
    var check := Stamp(10, Pad3(Sum(checked) % 256));
    var prefix := Prefix(begin, |body|);
    var tail := payload + (check + rest);
    TypeLayout(msgType, payload);
    TrailerLayout(Sum(checked) % 256);
    Reassociated(prefix, Stamp(35, msgType), payload, check, rest);
    HeaderBytes(begin, |body|, Stamp(35, msgType) + tail);
    TypeBytes(prefix, msgType, tail);
  }

  lemma {:induction false} Reassociated(p: Bytes, q: Bytes, r: Bytes, s: Bytes, t: Bytes)
    ensures p + (q + r) + s + t == p + (q + (r + (s + t)))
  {
  }

  /** The two delimiters the reader looks for textually are those of the BodyLength field. */
  lemma {:induction false} HeaderFound(begin: Bytes, msgType: Bytes, payload: Bytes, rest: Bytes)
    requires Plain(begin)
    ensures var b := FrameOf(begin, msgType, payload) + rest;
            var length := |Stamp(35, msgType) + payload|;
            var h := |Prefix(begin, length)|;
            && Find(b, EQUALS, 2) == |begin| + 4 < h - 1
            && Find(b, SOH, |begin| + 4) == h - 1
            && ParseInt(b[|begin| + 5..h - 1]) == Some(length)
            && |FrameOf(begin, msgType, payload)| == h + length + TRAILER_LENGTH
            && b[h..h + 3] == TYPE_MARK
  {
    hide ShowInt, ParseInt, Stamp, Prefix, FrameOf, ShowNat, Find;
    var b := FrameOf(begin, msgType, payload) + rest;
    var length := |Stamp(35, msgType) + payload|;
    var h, e := |Prefix(begin, length)|, |begin| + 4;
    FrameBytes(begin, msgType, payload, rest);
    ShowIntParses(length);
    ShowIntNat(length);
    FindFrom(b, EQUALS, 2, e);
    NoneAmong(b, SOH, e + 1, h - 1, ShowNat(length));
    FindFrom(b, SOH, e, h - 1);
    assert b[h..h + 3] == [b[h], b[h + 1], b[h + 2]];
  }

  /**
   * Every prepared frame: BodyLength is the number of bytes after that field up to the checksum field, the
   * checksum field is always exactly seven bytes and holds the sum of all bytes before it modulo 256, and the
   * length the reader computes from BodyLength is the length of the frame.
   */
  lemma {:induction false} FrameFields(begin: Bytes, msgType: Bytes, payload: Bytes, lengthAt: int, bodyAt: int,
                                       checkAt: int)
    requires Plain(begin)
    requires lengthAt == Find(FrameOf(begin, msgType, payload), EQUALS, 2)
    requires lengthAt >= 0 ==> bodyAt == Find(FrameOf(begin, msgType, payload), SOH, lengthAt) + 1
    requires checkAt == |FrameOf(begin, msgType, payload)| - TRAILER_LENGTH
    ensures 2 < lengthAt < bodyAt - 1 && bodyAt <= checkAt
    ensures var f := FrameOf(begin, msgType, payload);
            && f[lengthAt - 2] == SOH && f[lengthAt - 1] == 57
            && ParseInt(f[lengthAt + 1..bodyAt - 1]) == Some(checkAt - bodyAt)
            && CalcMsgLen(bodyAt, checkAt - bodyAt) == |f|
            && f[checkAt..checkAt + 3] == [49, 48, EQUALS] && f[|f| - 1] == SOH
            && ParseInt(f[checkAt + 3..|f| - 1]) == Some(Sum(f[..checkAt]) % 256)
  {
    hide ShowNat, Sum, Pad3, Find, ParseInt, Prefix, Stamp, ShowInt;
    var checked := Checked(begin, msgType, payload);
    var check := Stamp(10, Pad3(Sum(checked) % 256));
    var f := FrameOf(begin, msgType, payload);
    HeaderFound(begin, msgType, payload, []);
    FrameBytes(begin, msgType, payload, []);
    assert f + [] == f;
    TrailerLayout(Sum(checked) % 256);
    Pad3Value(Sum(checked) % 256);
    assert f[..checkAt] == checked && f[checkAt..] == check;
    assert f[checkAt..checkAt + 3] == check[..3];
    assert f[checkAt + 3..|f| - 1] == check[3..6];
  }

  lemma {:induction false} FindFrom(b: Bytes, c: byte, from: nat, i: nat)
    requires from <= i < |b| && b[i] == c && forall k :: from <= k < i ==> b[k] != c
    ensures Find(b, c, from) == i
  {
  }

  /** As soon as the header is there, the reader knows the length of exactly this frame. */
  lemma {:induction false} FrameAnnounced(begin: Bytes, msgType: Bytes, payload: Bytes, rest: Bytes)
    requires Plain(begin)
    ensures Announce(FrameOf(begin, msgType, payload) + rest) == Length(|FrameOf(begin, msgType, payload)|)
  {
    hide ShowNat, FrameOf, Find, ParseInt, Prefix, FindMark;
    HeaderFound(begin, msgType, payload, rest);
    var b := FrameOf(begin, msgType, payload) + rest;
    var h := |Prefix(begin, |Stamp(35, msgType) + payload|)|;
    assert MarkAt(b, TYPE_MARK, h);
  }

  /** The first `35=` in a frame is the MsgType field. */
  lemma {:induction false} FrameType(begin: Bytes, msgType: Bytes, payload: Bytes)
    requires Plain(begin) && Plain(msgType)
    ensures TypeText(FrameOf(begin, msgType, payload)) == msgType
  {
    hide ShowInt, ShowNat, ParseInt, Prefix, Stamp, FrameOf, Find, FindMark;
    var b := FrameOf(begin, msgType, payload);
    var length := |Stamp(35, msgType) + payload|;
    var h, e := |Prefix(begin, length)|, |begin| + 4;
    FrameBytes(begin, msgType, payload, []);
    assert b + [] == b;
    NoneAmong(b, EQUALS, e + 1, h - 1, ShowNat(length));
    FirstMark(b, e, h);
    NoneAmong(b, SOH, h + 3, h + 3 + |msgType|, msgType);
    FindFrom(b, SOH, h + 2, h + 3 + |msgType|);
  }

  lemma {:induction false} NoneAmong(b: Bytes, c: byte, i: nat, j: nat, text: Bytes)
    requires i <= j <= |b| && b[i..j] == text && forall k :: 0 <= k < |text| ==> text[k] != c
    ensures forall k :: i <= k < j ==> b[k] != c
  {
    forall k | i <= k < j ensures b[k] != c { assert b[k] == text[k - i]; }
  }

  /** With no other `=` than those of the first two fields before it, a `35=` is the first one. */
  lemma {:induction false} FirstMark(b: Bytes, e: nat, h: nat)
    requires 4 <= e && e + 2 < h && h + 2 < |b|
    requires b[1] == EQUALS && b[e] == EQUALS && b[e - 1] == 57 && b[h - 1] == SOH
    requires forall k :: 2 <= k < h - 1 && k != e ==> b[k] != EQUALS
    requires b[h] == 51 && b[h + 1] == 53 && b[h + 2] == EQUALS
    ensures FindMark(b, TYPE_MARK, 0) == h
  {
    hide FindMark;
    assert b[h..h + 3] == [b[h], b[h + 1], b[h + 2]] == TYPE_MARK;
    assert MarkAt(b, TYPE_MARK, h);
    forall i | 0 <= i < h ensures !MarkAt(b, TYPE_MARK, i) {
      assert b[i..i + 3] == [b[i], b[i + 1], b[i + 2]];
    }
  }
}
