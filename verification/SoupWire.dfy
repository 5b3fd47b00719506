/** The bytes of each packet, and what a session does with each kind of frame. */
module SoupWire {
  import opened Bytes
  import opened Text
  import opened Framing
  import opened SoupCodec
  import StreamReader
  import opened SessionDrain
  import DrainEnds
  import Q = MessageQueue

  // ---------------------------------------------------------------- the bytes of a packet

  /** At `from` stands `s` with blanks to its right up to `n` bytes, cut to `n` bytes if it is longer. */
  ghost predicate LeftJustified(b: Bytes, from: nat, n: nat, s: Bytes) {
    && from + n <= |b|
    && forall i {:trigger b[from + i]} :: 0 <= i < n ==> b[from + i] == if i < |s| then s[i] else 32
  }

  /** The two length bytes count everything after them, the higher one first, and the type follows. */
  ghost predicate Headed(b: Bytes, indicator: byte) {
    |b| >= 3 && (b[0] as int) * 256 + b[1] == |b| - 2 && b[2] == indicator
  }

  lemma {:induction false} PadBytes(b: Bytes, from: nat, n: nat, s: Bytes)
    requires from + n <= |b| && b[from..from + n] == Pad(s, n)
    ensures LeftJustified(b, from, n, s)
  {
    forall i | 0 <= i < n ensures b[from + i] == if i < |s| then s[i] else 32 {
      assert b[from + i] == b[from..from + n][i];
    }
  }

  /** A login request is L and four fields of 6, 10, 10 and 20 bytes. */
  lemma {:induction false} LoginRequestBytes(user: Bytes, password: Bytes, session: Bytes, sequence: Bytes)
    ensures var r := Encode(LoginRequest(user, password, session, sequence));
            && (r.Some? <==> Ascii(user) && Ascii(password) && Ascii(session) && Ascii(sequence))
            && (r.Some? ==>
                  && |r.value| == 49 && Headed(r.value, 76)
                  && LeftJustified(r.value, 3, 6, user) && LeftJustified(r.value, 9, 10, password)
                  && LeftJustified(r.value, 19, 10, session) && LeftJustified(r.value, 29, 20, sequence))
  {
    hide Pad, Ascii, LeftJustified;
    var r := Encode(LoginRequest(user, password, session, sequence));
    if r.Some? {
      var f := r.value;
      assert f[3..9] == Pad(user, 6) && f[9..19] == Pad(password, 10);
      assert f[19..29] == Pad(session, 10) && f[29..49] == Pad(sequence, 20);
      PadBytes(f, 3, 6, user);
      PadBytes(f, 9, 10, password);
      PadBytes(f, 19, 10, session);
      PadBytes(f, 29, 20, sequence);
    }
  }

  /** A login reply is A, the session of 10 bytes and the next number of 20, in decimal. */
  lemma {:induction false} LoginAcceptedBytes(sessionId: Bytes, next: int)
    ensures var r := Encode(LoginAccepted(sessionId, next));
            && (r.Some? <==> Ascii(sessionId))
            && (r.Some? ==>
                  && |r.value| == 33 && Headed(r.value, 65)
                  && LeftJustified(r.value, 3, 10, sessionId) && LeftJustified(r.value, 13, 20, ShowInt(next)))
  {
    hide Pad, Ascii, LeftJustified, ShowInt;
    var r := Encode(LoginAccepted(sessionId, next));
    if r.Some? {
      assert r.value[3..13] == Pad(sessionId, 10) && r.value[13..33] == Pad(ShowInt(next), 20);
      PadBytes(r.value, 3, 10, sessionId);
      PadBytes(r.value, 13, 20, ShowInt(next));
    }
  }

  /** The packets with a payload are S, U or + and the payload, which at most 32766 bytes of can be announced. */
  lemma {:induction false} PayloadBytes(data: Bytes)
    ensures var s, u, d := Encode(SequencedData(data)), Encode(UnSequencedData(data)), Encode(Debug(data));
            && (s.Some? <==> |data| <= 32766) && (u.Some? <==> |data| <= 32766)
            && (d.Some? <==> |data| <= 32766 && Ascii(data))
            && (s.Some? ==> Headed(s.value, 83) && s.value[3..] == data)
            && (u.Some? ==> Headed(u.value, 85) && u.value[3..] == data)
            && (d.Some? ==> Headed(d.value, 43) && d.value[3..] == data)
  {
  }

  /** The packets without text, byte by byte. */
  lemma {:induction false} ShortBytes()
    ensures Encode(LoginRejected(NotAuthorized)) == Some([0, 2, 74, 65])
    ensures Encode(LoginRejected(SessionNotAvailable)) == Some([0, 2, 74, 83])
    ensures Encode(ClientHeartbeat) == Some([0, 1, 82]) && Encode(ServerHeartbeat) == Some([0, 1, 72])
    ensures Encode(EndOfSession) == Some([0, 1, 90]) && Encode(LogoutRequest) == Some([0, 1, 79])
  {
    assert Encode(LoginRejected(NotAuthorized)).value == [0, 2, 74, 65];
    assert Encode(LoginRejected(SessionNotAvailable)).value == [0, 2, 74, 83];
    assert Encode(ClientHeartbeat).value == [0, 1, 82] && Encode(ServerHeartbeat).value == [0, 1, 72];
    assert Encode(EndOfSession).value == [0, 1, 90] && Encode(LogoutRequest).value == [0, 1, 79];
  }

  // ---------------------------------------------------------------- what a frame is read as

  /** A frame is refused if it is shorter than its header, of an unknown type, or of the wrong length for its type. */
  lemma {:induction false} Refused(b: Bytes)
    ensures |b| < 3 ==> Decode(b).None?
    ensures |b| >= 3 && b[2] !in {76, 65, 74, 83, 85, 43, 82, 72, 90, 79} ==> Decode(b).None?
    ensures |b| >= 3 && b[2] == 76 && |b| != 49 ==> Decode(b).None?
    ensures |b| >= 3 && b[2] == 65 && |b| != 33 ==> Decode(b).None?
    ensures |b| >= 3 && b[2] == 74 && (|b| != 4 || (b[3] != 65 && b[3] != 83)) ==> Decode(b).None?
    ensures |b| > 3 && b[2] in {82, 72, 90, 79} ==> Decode(b).None?
  {
  }

  /** Complete frames of three and four bytes, incomplete ones and malformed ones. */
  lemma {:induction false} ShortFrames()
    ensures Peek([0, 2, 74, 65]) == Frame(4, LoginRejected(NotAuthorized))
    ensures Peek([0, 2, 74, 83]) == Frame(4, LoginRejected(SessionNotAvailable))
    ensures Peek([0, 1, 82]) == Frame(3, ClientHeartbeat) && Peek([0, 1, 72]) == Frame(3, ServerHeartbeat)
    ensures Peek([0, 1, 90]) == Frame(3, EndOfSession) && Peek([0, 1, 79]) == Frame(3, LogoutRequest)
    ensures Peek([0, 2, 83, 7]) == Frame(4, SequencedData([7]))
    ensures Peek([0, 2, 62]).Wait? && Peek([0]).Wait? && Peek([0, 1, 62]).Broken? && Peek([0, 0]).Broken?
  {
    hide Peek, Decode;
    Rejections();
    BareFrame(82);
    BareFrame(72);
    BareFrame(90);
    BareFrame(79);
    BareFrame(62);
    Incomplete();
  }

  lemma {:induction false} Rejections()
    ensures Peek([0, 2, 74, 65]) == Frame(4, LoginRejected(NotAuthorized))
    ensures Peek([0, 2, 74, 83]) == Frame(4, LoginRejected(SessionNotAvailable))
    ensures Peek([0, 2, 83, 7]) == Frame(4, SequencedData([7]))
  {
    hide Peek;
    WholeFrame([0, 2, 74, 65]);
    WholeFrame([0, 2, 74, 83]);
    WholeFrame([0, 2, 83, 7]);
    assert [0, 2, 83, 7][3..] == [7];
  }

  lemma {:induction false} Incomplete()
    ensures Peek([0, 2, 62]).Wait? && Peek([0]).Wait? && Peek([0, 0]).Broken?
  {
    WholeFrame([0, 0]);
  }

  lemma {:induction false} WholeFrame(b: Bytes)
    requires |b| >= 2 && (b[0] as int) * 256 + b[1] + 2 == |b|
    ensures b[..|b|] == b
    ensures Peek(b) == if Decode(b).Some? then Frame(|b|, Decode(b).value) else Broken
  {
    hide Decode;
    assert b[..|b|] == b;
  }

  /** What is taken off both ends of a text field, and of a number field. */
  lemma {:induction false} Stripped(c: byte, x: byte)
    requires c < 128 && 33 <= x < 128
    ensures UnpackString([c, x, c]) ==
            Some(if c in {9, 10, 11, 12, 13, 28, 29, 30, 31, 32} then [x] else [c, x, c])
    ensures c == 0 || c == 32 ==> UnpackInt([c, 49, c]) == Some(1)
    ensures c != 0 && c != 32 && !IsDigit(c) ==> UnpackInt([c, 49, c]) == None
  {
    OffBothEnds(c, x, Whitespace);
    OffBothEnds(c, 49, SpaceOrNul);
    assert [49][..0] == [];
    assert DigitsValue([49]) == 1;
    assert c == PLUS || c == MINUS ==> [c, 49, c][1..] == [49, c] && !IsDigit([49, c][1]);
    assert !IsDigit([c, 49, c][0]) <==> !IsDigit(c);
  }

  lemma {:induction false} OffBothEnds(c: byte, x: byte, drop: byte -> bool)
    requires !drop(x)
    ensures Strip([c, x, c], drop) == if drop(c) then [x] else [c, x, c]
  {
    assert [c, x, c][1..] == [x, c] && [x, c][..1] == [x];
    if drop(c) {
      assert StripLeft([x, c], drop) == [x, c];
      assert StripRight([x], drop) == [x];
    }
  }

  // ---------------------------------------------------------------- what a session does with a frame

  /**
   * A new session that receives a frame of a type byte alone and gets to read it: End of Session and Logout Request
   * close it, stop its queue and run its handler; the two heartbeats leave it as it was; the packets that carry a
   * payload are queued, with an empty one; anything else is an exception that ends its reader and leaves it open.
   */
  lemma {:induction false} OneBareFrame(t: byte, dispatching: bool)
    ensures var s0: Session<SoupMessage> := Initial(dispatching);
            var s := Run(Soup, s0, [Data([0, 1, t]), ReaderTurn]);
            && (t == 90 || t == 79 ==>
                  && s.closed && s.queue.closed && !s.queue.dispatching && s.handlerRuns == 1
                  && s.reader.loop.Stopped? && s.reader.pending == [] && s.queue.Accepted() == [])
            && (t == 72 || t == 82 ==> s == s0)
            && (t == 83 ==> s == s0.(queue := s0.queue.(main := [SequencedData([])])))
            && (t == 85 ==> s == s0.(queue := s0.queue.(main := [UnSequencedData([])])))
            && (t == 43 ==> s == s0.(queue := s0.queue.(main := [Debug([])])))
            && (t !in {90, 79, 72, 82, 83, 85, 43} ==>
                  && s.reader.loop.Crashed? && !s.closed && !s.queue.closed && s.handlerRuns == 0
                  && s.queue == s0.queue && s.reader.pending == [0, 1, t])
  {
    hide Peek, Next;
    var s0: Session<SoupMessage> := Initial(dispatching);
    TwoEvents(s0, Data([0, 1, t]), ReaderTurn);
    BareFrame(t);
    assert [0, 1, t][3..] == [];
    Arrived(s0, [0, 1, t]);
    FrameTurn(s0.(reader := s0.reader.(pending := [0, 1, t])));
  }

  lemma {:induction false} Arrived(s: Session<SoupMessage>, b: Bytes)
    requires s.reader.pending == [] && s.reader.held.None?
    ensures Next(Soup, s, Data(b)) == s.(reader := s.reader.(pending := b))
  {
    assert [] + b == b;
  }

  predicate EndedBy(s: Session<SoupMessage>, s': Session<SoupMessage>) {
    && s'.closed && s'.queue.closed && !s'.queue.dispatching && s'.handlerRuns == s.handlerRuns + 1
    && s'.reader == s.reader.(loop := StreamReader.Stopped) && s'.queue.Accepted() == s.queue.Accepted()
  }

  /** A turn of an open session with something to read. */
  lemma {:induction false} FrameTurn(s: Session<SoupMessage>)
    requires s.reader.loop.Reading? && s.reader.held.None? && s.reader.pending != [] && !s.closed
    requires s.queue.side.None? && !s.queue.closed && s.queue.main == []
    requires var r := Soup.peek(s.reader.pending);
             r.Broken? || (r.Frame? && 0 <= r.size <= |s.reader.pending| && !r.msg.LoginRequest? &&
                           !r.msg.LoginAccepted? && !r.msg.LoginRejected?)
    ensures var r, s' := Soup.peek(s.reader.pending), Next(Soup, s, ReaderTurn);
            && (r.Broken? ==> s' == s.(reader := s.reader.(loop := StreamReader.Crashed)))
            && (r.Frame? ==>
                  var left := s.(reader := s.reader.(pending := s.reader.pending[r.size..]));
                  match r.msg
                  case EndOfSession => EndedBy(left, s')
                  case LogoutRequest => EndedBy(left, s')
                  case ServerHeartbeat => s' == left
                  case ClientHeartbeat => s' == left
                  case _ => s' == left.(queue := s.queue.(main := [r.msg])))
  {
    hide Peek, Q.OrphanStep, Q.Taken, Q.Swapped, Q.Read;
    assert forall m: SoupMessage :: [] + [m] == [m];
  }

  lemma {:induction false} TwoEvents(s: Session<SoupMessage>, e: Event<SoupMessage>, f: Event<SoupMessage>)
    ensures Run(Soup, s, [e, f]) == Next(Soup, Next(Soup, s, e), f)
  {
    hide Next;
    assert [e, f] == [e] + [f];
    DrainEnds.RunAppend(Soup, s, [e], [f]);
    DrainEnds.RunOne(Soup, s, e);
    DrainEnds.RunOne(Soup, Next(Soup, s, e), f);
  }

  lemma {:induction false} BareFrame(t: byte)
    ensures Soup.peek([0, 1, t]) ==
            if t == 90 then Frame(3, EndOfSession)
            else if t == 79 then Frame(3, LogoutRequest)
            else if t == 72 then Frame(3, ServerHeartbeat)
            else if t == 82 then Frame(3, ClientHeartbeat)
            else if t == 83 then Frame(3, SequencedData([]))
            else if t == 85 then Frame(3, UnSequencedData([]))
            else if t == 43 then Frame(3, Debug([]))
            else Broken
  {
    WholeFrame([0, 1, t]);
  }
}
