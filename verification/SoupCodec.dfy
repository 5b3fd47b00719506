/** The SoupBinTCP packets of soup/core.py and the framing of soup/_reader.py. */
module SoupCodec {
  import opened Bytes
  import opened Text
  import opened Framing

  datatype RejectReason = NotAuthorized | SessionNotAvailable

  /** A str is held as its code points. */
  datatype SoupMessage =
    | LoginRequest(user: Bytes, password: Bytes, session: Bytes, sequence: Bytes)
    | LoginAccepted(sessionId: Bytes, nextSequence: int)
    | LoginRejected(reason: RejectReason)
    | SequencedData(data: Bytes)
    | UnSequencedData(data: Bytes)
    | Debug(text: Bytes)
    | ClientHeartbeat
    | ServerHeartbeat
    | EndOfSession
    | LogoutRequest

  predicate IsHeartbeat(m: SoupMessage) { m.ClientHeartbeat? || m.ServerHeartbeat? }

  predicate IsLogout(m: SoupMessage) { m.EndOfSession? || m.LogoutRequest? }

  function Indicator(m: SoupMessage): byte {
    match m
    case LoginRequest(_, _, _, _) => 76
    case LoginAccepted(_, _) => 65
    case LoginRejected(_) => 74
    case SequencedData(_) => 83
    case UnSequencedData(_) => 85
    case Debug(_) => 43
    case ClientHeartbeat => 82
    case ServerHeartbeat => 72
    case EndOfSession => 90
    case LogoutRequest => 79
  }

  // ---------------------------------------------------------------- text fields

  predicate SpaceOrNul(c: byte) { c == SPACE || c == 0 }

  /** `s.ljust(n)` packed by struct as `ns`, which cuts a longer string short. */
  function Pad(s: Bytes, n: nat): (r: Bytes)
    ensures |r| == n
  {
    if |s| >= n then s[..n] else s + Spaces(n - |s|)
  }

  function UnpackString(b: Bytes): Option<Bytes> {
    if Ascii(b) then Some(Strip(b, Whitespace)) else None
  }

  function UnpackInt(b: Bytes): Option<int> {
    ParseInt(Strip(b, SpaceOrNul))
  }

  // ---------------------------------------------------------------- packets

  /** `struct.pack('!h c', length, indicator)`: the length is a signed 16-bit number. */
  function Packet(m: SoupMessage, body: Bytes): Option<Bytes> {
    var length := |body| + 1;
    if length > 32767 then None else Some([length / 256, length % 256, Indicator(m)] + body)
  }

  /** `to_bytes`, or None when it raises. */
  function Encode(m: SoupMessage): Option<Bytes> {
    match m
    case LoginRequest(user, password, session, sequence) =>
      if !(Ascii(user) && Ascii(password) && Ascii(session) && Ascii(sequence)) then None
      else Packet(m, Pad(user, 6) + Pad(password, 10) + Pad(session, 10) + Pad(sequence, 20))
    case LoginAccepted(sessionId, n) =>
      if !Ascii(sessionId) then None else Packet(m, Pad(sessionId, 10) + Pad(ShowInt(n), 20))
    case LoginRejected(reason) => Packet(m, [if reason.NotAuthorized? then 65 else 83])
    case SequencedData(data) => Packet(m, data)
    case UnSequencedData(data) => Packet(m, data)
    case Debug(text) => if Ascii(text) then Packet(m, text) else None
    case _ => Packet(m, [])
  }

  /** The length header as the reader takes it: unsigned, big-endian. */
  function UnsignedLength(b: Bytes): nat
    requires |b| >= 2
  {
    var high: int := b[0];
    high * 256 + b[1]
  }

  /** The length header as struct unpacks it: signed. */
  function SignedLength(b: Bytes): int
    requires |b| >= 2
  {
    var n := UnsignedLength(b);
    if n >= 32768 then n - 65536 else n
  }

  function Payload(b: Bytes): Bytes
    requires |b| >= 3
  {
    if SignedLength(b) > 1 then b[3..] else []
  }

  function DecodeLoginRequest(b: Bytes): Option<SoupMessage> {
    if |b| != 49 then None
    else
      match (UnpackString(b[3..9]), UnpackString(b[9..19]), UnpackString(b[19..29]), UnpackInt(b[29..49]))
      case (Some(user), Some(password), Some(session), Some(n)) =>
        Some(LoginRequest(user, password, session, ShowInt(n)))
      case _ => None
  }

  function DecodeLoginAccepted(b: Bytes): Option<SoupMessage> {
    if |b| != 33 then None
    else
      match (UnpackString(b[3..13]), UnpackInt(b[13..33]))
      case (Some(session), Some(n)) => Some(LoginAccepted(session, n))
      case _ => None
  }

  function DecodeLoginRejected(b: Bytes): Option<SoupMessage> {
    if |b| != 4 then None
    else if b[3] == 65 then Some(LoginRejected(NotAuthorized))
    else if b[3] == 83 then Some(LoginRejected(SessionNotAvailable))
    else None
  }

  function DecodeBare(m: SoupMessage, b: Bytes): Option<SoupMessage> {
    if |b| == 3 then Some(m) else None
  }

  /** `SoupMessage.from_bytes` of one frame, or None when it raises. */
  function Decode(b: Bytes): Option<SoupMessage> {
    if |b| < 3 then None
    else if b[2] == 76 then DecodeLoginRequest(b)
    else if b[2] == 65 then DecodeLoginAccepted(b)
    else if b[2] == 74 then DecodeLoginRejected(b)
    else if b[2] == 83 then Some(SequencedData(Payload(b)))
    else if b[2] == 85 then Some(UnSequencedData(Payload(b)))
    else if b[2] == 43 then if Ascii(Payload(b)) then Some(Debug(Payload(b))) else None
    else if b[2] == 82 then DecodeBare(ClientHeartbeat, b)
    else if b[2] == 72 then DecodeBare(ServerHeartbeat, b)
    else if b[2] == 90 then DecodeBare(EndOfSession, b)
    else if b[2] == 79 then DecodeBare(LogoutRequest, b)
    else None
  }

  // ---------------------------------------------------------------- the codec

  /** A text field survives: it is ASCII, short enough and has no outer whitespace. */
  predicate FieldFits(s: Bytes, n: nat) {
    Ascii(s) && |s| <= n && Strip(s, Whitespace) == s
  }

  /** A number written the way `str` writes it. */
  predicate Canonical(s: Bytes) {
    ParseInt(s).Some? && ShowInt(ParseInt(s).value) == s
  }

  predicate Fits(m: SoupMessage) {
    match m
    case LoginRequest(user, password, session, sequence) =>
      && FieldFits(user, 6) && FieldFits(password, 10) && FieldFits(session, 10)
      && Canonical(sequence) && |sequence| <= 20
    case LoginAccepted(sessionId, n) => FieldFits(sessionId, 10) && |ShowInt(n)| <= 20
    case SequencedData(data) => |data| <= 32766
    case UnSequencedData(data) => |data| <= 32766
    case Debug(text) => Ascii(text) && |text| <= 32766
    case _ => true
  }

  /** A padded text field comes back exactly when it fits. */
  lemma {:induction false} StringField(s: Bytes, n: nat)
    requires Ascii(s)
    ensures Ascii(Pad(s, n))
    ensures UnpackString(Pad(s, n)) == Some(s) <==> FieldFits(s, n)
  {
    if |s| >= n {
      StripShortens(s[..n], Whitespace);
      StripShortens(StripLeft(s[..n], Whitespace), Whitespace);
      if |s| == n { assert s[..n] == s; }
    } else {
      StripSpaces(s, n - |s|, Whitespace);
    }
  }

  lemma {:induction false} DigitsShorter(t: Bytes)
    requires AllDigits(t) && t != []
    ensures |ShowNat(DigitsValue(t))| <= |t|
  {
    if |t| > 1 {
      DigitsShorter(t[..|t| - 1]);
      var high := DigitsValue(t[..|t| - 1]);
      assert DigitsValue(t) / 10 == high;
    } else {
      assert t[..|t| - 1] == [];
    }
  }

  lemma {:induction false} ShownShorter(t: Bytes)
    ensures ParseInt(t).Some? ==> |ShowInt(ParseInt(t).value)| <= |t|
  {
    if ParseInt(t).Some? {
      var signed := t[0] == MINUS || t[0] == PLUS;
      DigitsShorter(if signed then t[1..] else t);
    }
  }

  /** A padded number in canonical form comes back exactly when it fits. */
  lemma {:induction false} NumberField(s: Bytes, n: nat)
    ensures UnpackInt(Pad(s, n)).Some? && ShowInt(UnpackInt(Pad(s, n)).value) == s <==> Canonical(s) && |s| <= n
  {
    var t := Strip(Pad(s, n), SpaceOrNul);
    ShownShorter(t);
    StripShortens(Pad(s, n), SpaceOrNul);
    StripShortens(StripLeft(Pad(s, n), SpaceOrNul), SpaceOrNul);
    if ParseInt(t).Some? && ShowInt(ParseInt(t).value) == s {
      ShowIntParses(ParseInt(t).value);
    }
    if Canonical(s) && |s| <= n {
      assert Pad(s, n) == s + Spaces(n - |s|);
      StripSpaces(s, n - |s|, SpaceOrNul);
      StripNothing(s, SpaceOrNul);
    }
  }

  /** The length header is big-endian and always counts the bytes after it. */
  lemma {:induction false} LengthHeader(m: SoupMessage)
    requires Encode(m).Some?
    ensures var f := Encode(m).value;
            |f| >= 3 && UnsignedLength(f) == SignedLength(f) == |f| - 2 && f[2] == Indicator(m)
  {
  }

  lemma {:induction false} LoginRequestRoundTrip(m: SoupMessage)
    requires m.LoginRequest? && Encode(m).Some?
    ensures DecodeLoginRequest(Encode(m).value) == Some(m) <==> Fits(m)
  {
    hide Pad, UnpackString, UnpackInt, FieldFits, Canonical, Ascii;
    var f := Encode(m).value;
    assert f[3..9] == Pad(m.user, 6) && f[9..19] == Pad(m.password, 10);
    assert f[19..29] == Pad(m.session, 10) && f[29..49] == Pad(m.sequence, 20);
    StringField(m.user, 6);
    StringField(m.password, 10);
    StringField(m.session, 10);
    NumberField(m.sequence, 20);
  }

  lemma {:induction false} LoginAcceptedRoundTrip(m: SoupMessage)
    requires m.LoginAccepted? && Encode(m).Some?
    ensures DecodeLoginAccepted(Encode(m).value) == Some(m) <==> Fits(m)
  {
    hide Pad, UnpackString, UnpackInt, FieldFits, Ascii, ShowInt, ParseInt;
    var f, digits := Encode(m).value, ShowInt(m.nextSequence);
    assert f[3..13] == Pad(m.sessionId, 10) && f[13..33] == Pad(digits, 20);
    StringField(m.sessionId, 10);
    NumberField(digits, 20);
    ShowIntParses(m.nextSequence);
    var n := UnpackInt(Pad(digits, 20));
    if n.Some? { ShowIntParses(n.value); }
  }

  /** For every packet type: unpacking inverts packing exactly when the values fit their fields. */
  lemma {:induction false} CodecRoundTrip(m: SoupMessage)
    ensures Encode(m).Some? && Decode(Encode(m).value) == Some(m) <==> Fits(m)
  {
    hide DecodeLoginRequest, DecodeLoginAccepted, Pad, FieldFits;
    if Encode(m).Some? {
      LengthHeader(m);
      var f := Encode(m).value;
      match m
      case LoginRequest(_, _, _, _) => LoginRequestRoundTrip(m);
      case LoginAccepted(_, _) => LoginAcceptedRoundTrip(m);
      case SequencedData(data) => assert f[3..] == data;
      case UnSequencedData(data) => assert f[3..] == data;
      case Debug(text) => assert f[3..] == text;
      case _ =>
    } else {
      NotEncodable(m);
    }
  }

  lemma {:induction false} NotEncodable(m: SoupMessage)
    requires Encode(m).None?
    ensures !Fits(m)
  {
  }

  // ---------------------------------------------------------------- framing

  /** `SoupMessageReader.deserialize`. */
  function Peek(view: Bytes): Outcome<SoupMessage> {
    if |view| < 2 || UnsignedLength(view) + 2 > |view| then Wait
    else
      var size := UnsignedLength(view) + 2;
      match Decode(view[..size])
      case None => Broken
      case Some(m) => Frame(size, m)
  }

  const Soup: Protocol<SoupMessage> := Protocol(Peek, IsLogout, IsHeartbeat)

  lemma {:induction false} PeekStands(b: Bytes, c: Bytes)
    ensures Peek(b).Frame? ==> 0 < Peek(b).size <= |b|
    ensures !Peek(b).Wait? ==> Peek(b + c) == Peek(b)
  {
    hide Decode;
    if !Peek(b).Wait? {
      assert (b + c)[0] == b[0] && (b + c)[1] == b[1];
      assert (b + c)[..UnsignedLength(b) + 2] == b[..UnsignedLength(b) + 2];
    }
  }

  lemma {:induction false} PeekNothing()
    ensures Peek([]).Wait?
  {
  }

  /** The reader's answers do not change as more bytes arrive, for every byte stream. */
  lemma {:induction false} SoupIncremental()
    ensures Incremental(Soup)
  {
    hide Peek;
    PeekNothing();
    forall b: Bytes, c: Bytes
      ensures (Soup.peek(b).Frame? ==> 0 < Soup.peek(b).size <= |b|)
      ensures (!Soup.peek(b).Wait? ==> Soup.peek(b + c) == Soup.peek(b))
    {
      PeekStands(b, c);
    }
  }

  /** The packed form of a message that fits is one frame of the stream. */
  lemma {:induction false} SoupFrames(m: SoupMessage)
    requires Fits(m)
    ensures Encode(m).Some? && Frames(Soup, Encode(m).value, m)
  {
    hide Decode, Encode, Fits;
    CodecRoundTrip(m);
    LengthHeader(m);
    var f := Encode(m).value;
    forall rest: Bytes ensures Peek(f + rest) == Frame(|f|, m)
    {
      assert (f + rest)[0] == f[0] && (f + rest)[1] == f[1];
      assert (f + rest)[..|f|] == f;
    }
    forall k | 0 <= k < |f| ensures Peek(f[..k]).Wait?
    {
      if k >= 2 { assert f[..k][0] == f[0] && f[..k][1] == f[1]; }
    }
  }

  /** The packed forms of messages that fit. */
  function Encodings(msgs: seq<SoupMessage>): (r: seq<Bytes>)
    requires forall m :: m in msgs ==> Fits(m)
    ensures |r| == |msgs|
    ensures forall i :: 0 <= i < |r| ==> Encode(msgs[i]) == Some(r[i])
  {
    if msgs == [] then []
    else
      CodecRoundTrip(msgs[0]);
      [Encode(msgs[0]).value] + Encodings(msgs[1..])
  }

  /** Packets need no separator: equal byte streams come from equal message lists. */
  lemma {:induction false} UniquelyDecodable(a: seq<SoupMessage>, b: seq<SoupMessage>)
    requires (forall m :: m in a ==> Fits(m)) && forall m :: m in b ==> Fits(m)
    requires Concat(Encodings(a)) == Concat(Encodings(b))
    ensures a == b
  {
    hide Encode, Fits;
    if a != [] { SoupFrames(a[0]); }
    if b != [] { SoupFrames(b[0]); }
    if a != [] && b != [] {
      var f, g := Encode(a[0]).value, Encode(b[0]).value;
      var x, y := Concat(Encodings(a[1..])), Concat(Encodings(b[1..]));
      assert f + x == g + y;
      assert Soup.peek(f + x) == Frame(|f|, a[0]) && Soup.peek(g + y) == Frame(|g|, b[0]);
      assert x == (f + x)[|f|..] && y == (g + y)[|g|..];
      UniquelyDecodable(a[1..], b[1..]);
    }
  }

  /** The three packets that carry a payload of any length. */
  function Carrying(indicator: byte, payload: Bytes): SoupMessage {
    if indicator == 83 then SequencedData(payload)
    else if indicator == 85 then UnSequencedData(payload)
    else Debug(payload)
  }

  /**
   * A frame of any length the two length bytes can express is consumed whole, and its payload comes back exactly
   * when it has at most 32766 bytes: a longer one makes the length negative as a signed number and is dropped.
   */
  lemma {:induction false} PayloadKept(indicator: byte, payload: Bytes, rest: Bytes)
    requires indicator == 83 || indicator == 85 || (indicator == 43 && Ascii(payload))
    requires |payload| <= 65534
    ensures var length := |payload| + 1;
            var r := Peek([length / 256, length % 256, indicator] + payload + rest);
            && r == Frame(length + 2, Carrying(indicator, if |payload| <= 32766 then payload else []))
            && (r == Frame(length + 2, Carrying(indicator, payload)) <==> |payload| <= 32766)
  {
    var length := |payload| + 1;
    var f := [length / 256, length % 256, indicator] + payload;
    assert (f + rest)[..length + 2] == f;
    assert f[3..] == payload;
  }
}
