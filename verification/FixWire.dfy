/** The bytes of one whole FIX frame, and what a session does with one frame of each kind. */
module FixWire {
  import opened Bytes
  import opened Framing
  import opened FixMessage
  import opened FixFrame
  import opened FixDelivery
  import opened SessionDrain
  import DrainEnds

  // ---------------------------------------------------------------- the bytes of a frame

  /** 8=X, 9=10, 35=5 and 49=A, each with its SOH. */
  const CHECKED: Bytes :=
    [56, 61, 88, 1, 57, 61, 49, 48, 1, 51, 53, 61, 53, 1, 52, 57, 61, 65, 1]

  lemma {:induction false} SumAppend(a: Bytes, b: Bytes)
    ensures Sum(a + b) == Sum(a) + Sum(b)
  {
    if b == [] {
      assert a + b == a;
    } else {
      assert (a + b)[..|a + b| - 1] == a + b[..|b| - 1];
      SumAppend(a, b[..|b| - 1]);
    }
  }

  lemma {:induction false} SumFour(a: byte, b: byte, c: byte, d: byte)
    ensures Sum([a, b, c, d]) == a as int + b as int + c as int + d as int
  {
    SumThree(a, b, c);
    assert [a, b, c, d][..3] == [a, b, c];
  }

  /** Its bytes add up to 877, which is 109 modulo 256. */
  lemma {:induction false} CheckedSum()
    ensures Sum(CHECKED) == 877
  {
    hide Sum;
    SumFour(56, 61, 88, 1);
    SumFour(57, 61, 49, 48);
    SumFour(1, 51, 53, 61);
    SumFour(53, 1, 52, 57);
    SumThree(61, 65, 1);
    var a, b, c: Bytes := [56, 61, 88, 1], [57, 61, 49, 48], [1, 51, 53, 61];
    var d: Bytes, e: Bytes := [53, 1, 52, 57], [61, 65, 1];
    SumAppend(a, b);
    SumAppend(a + b, c);
    SumAppend(a + b + c, d);
    SumAppend(a + b + c + d, e);
    assert CHECKED == a + b + c + d + e;
  }

  lemma {:induction false} SumThree(a: byte, b: byte, c: byte)
    ensures Sum([a, b, c]) == a as int + b as int + c as int
  {
    assert [a][..0] == [] && Sum([a]) == a as int;
    assert [a, b][..1] == [a] && Sum([a, b]) == a as int + b as int;
    assert [a, b, c][..2] == [a, b];
  }

  /** A logout with one header field, as it goes over the wire: 8=X, 9=10, 35=5, 49=A and 10=109. */
  lemma {:induction false} LogoutBytes()
    ensures FrameOf([88], [53], [52, 57, 61, 65, 1]) == CHECKED + [49, 48, 61, 49, 48, 57, 1]
  {
    hide Sum, ShowNat, ShowInt;
    CheckedSum();
    SmallNumbers();
    Numbers();
    var payload: Bytes := [52, 57, 61, 65, 1];
    assert Stamp(35, [53]) == [51, 53, 61, 53, 1];
    assert Prefix([88], 10) == [56, 61, 88, 1, 57, 61, 49, 48, 1];
    assert Checked([88], [53], payload) == CHECKED;
    assert Pad3(109) == [49, 48, 57];
    assert Stamp(10, [49, 48, 57]) == [49, 48, 61, 49, 48, 57, 1];
  }

  lemma {:induction false} Numbers()
    ensures ShowInt(10) == ShowNat(10) == [49, 48] && ShowNat(109) == [49, 48, 57]
  {
    assert ShowNat(1) == [49] && ShowNat(10) == [49, 48];
  }

  /** The checksum always has three digits. */
  lemma {:induction false} ChecksumDigits(n: nat)
    requires n < 256
    ensures Pad3(n) == [48 + n / 100, 48 + n / 10 % 10, 48 + n % 10]
  {
    if n >= 100 {
      assert ShowNat(n / 100) == [48 + n / 100] && ShowNat(n / 10) == [48 + n / 100, 48 + n / 10 % 10];
    } else if n >= 10 {
      assert ShowNat(n / 10) == [48 + n / 10];
    }
  }

  // ---------------------------------------------------------------- one frame and one turn

  /**
   * A new session that receives a frame and gets to read it. By the bytes of the type of the frame: a logout, 5,
   * closes the session, stops its queue, runs its handler and hands nothing over; a heartbeat, 0, leaves the session
   * as it was; any other message is queued, framing fields included.
   */
  lemma {:induction false} OneFrame(defs: Registry, cls: MessageClass, m: Message, begin: Bytes, dispatching: bool)
    requires Sendable(cls, m, begin) && cls.msgType in defs && defs[cls.msgType] == cls
    ensures var frame := FrameOf(begin, cls.msgType, ToBytes(cls, m));
            var s0: Session<FixFrame.Received> := Initial(dispatching);
            var s := Run(Fix(defs), s0, [Data(frame), ReaderTurn]);
            && (cls.msgType == [53] ==>
                  && s.closed && s.queue.closed && !s.queue.dispatching && s.handlerRuns == 1
                  && s.reader.loop.Stopped? && s.reader.pending == [] && s.queue.Accepted() == [])
            && (cls.msgType == [48] ==> s == s0)
            && (cls.msgType != [53] && cls.msgType != [48] ==>
                  s == s0.(queue := s0.queue.(main := [Seen(cls, m, begin)])))
  {
    hide Sendable, FrameOf, ToBytes, Seen, Peek;
    var frame := FrameOf(begin, cls.msgType, ToBytes(cls, m));
    var s0: Session<FixFrame.Received> := Initial(dispatching);
    FixFrames(defs, cls, m, begin);
    assert frame + [] == frame;
    assert Fix(defs).peek(frame) == Frame(|frame|, Seen(cls, m, begin));
    assert Seen(cls, m, begin).cls == cls by { SeenClass(cls, m, begin); }
    TwoEvents(defs, s0, Data(frame), ReaderTurn);
    assert Next(Fix(defs), s0, Data(frame)) == s0.(reader := s0.reader.(pending := frame)) by {
      assert [] + frame == frame;
    }
  }

  lemma {:induction false} SeenClass(cls: MessageClass, m: Message, begin: Bytes)
    ensures Seen(cls, m, begin).cls == cls
  {
    hide ToBytes, Framed, NormalMessage;
  }

  lemma {:induction false} TwoEvents(defs: Registry, s: Session<FixFrame.Received>, e: Event<FixFrame.Received>,
                                     f: Event<FixFrame.Received>)
    ensures Run(Fix(defs), s, [e, f]) == Next(Fix(defs), Next(Fix(defs), s, e), f)
  {
    hide Next, Peek;
    assert [e, f] == [e] + [f];
    DrainEnds.RunAppend(Fix(defs), s, [e], [f]);
    DrainEnds.RunOne(Fix(defs), s, e);
    DrainEnds.RunOne(Fix(defs), Next(Fix(defs), s, e), f);
  }

  /** A frame of a type that no class has ends the reader by an exception and leaves the session open. */
  lemma {:induction false} UnknownType(defs: Registry, begin: Bytes, msgType: Bytes, payload: Bytes, dispatching: bool)
    requires Plain(begin) && Plain(msgType) && msgType !in defs
    ensures var frame := FrameOf(begin, msgType, payload);
            var s0: Session<FixFrame.Received> := Initial(dispatching);
            var s := Run(Fix(defs), s0, [Data(frame), ReaderTurn]);
            && Peek(defs, frame).Broken? && s.reader.loop.Crashed? && !s.closed && !s.queue.closed
            && s.handlerRuns == 0 && s.queue == s0.queue && s.reader.pending == frame
  {
    hide FrameOf, Announce, TypeText, Plain;
    var frame := FrameOf(begin, msgType, payload);
    var s0: Session<FixFrame.Received> := Initial(dispatching);
    FrameAnnounced(begin, msgType, payload, []);
    assert frame + [] == frame && Upto(frame, |frame|) == frame;
    FrameType(begin, msgType, payload);
    assert Peek(defs, frame).Broken?;
    hide Peek;
    TwoEvents(defs, s0, Data(frame), ReaderTurn);
    assert frame != [] by { AnnounceNothing(); }
    assert Next(Fix(defs), s0, Data(frame)) == s0.(reader := s0.reader.(pending := frame)) by {
      assert [] + frame == frame;
    }
  }

  // ---------------------------------------------------------------- waiting for a frame

  /** As long as no 35= is there, the reader waits. */
  lemma {:induction false} NoTypeWaits(defs: Registry, b: Bytes)
    requires forall k :: 0 <= k < |b| - 2 ==> !(b[k] == 51 && b[k + 1] == 53 && b[k + 2] == 61)
    ensures Peek(defs, b).Wait?
  {
    hide Dispatch;
    var at := FindMark(b, TYPE_MARK, 0);
    if at != -1 { MarkBytes(b, at); }
  }

  lemma {:induction false} MarkBytes(b: Bytes, i: nat)
    requires MarkAt(b, TYPE_MARK, i)
    ensures i + 3 <= |b| && b[i] == 51 && b[i + 1] == 53 && b[i + 2] == 61
  {
    var m := b[i..i + 3];
    assert m[0] == 51 && m[1] == 53 && m[2] == 61;
  }

  /**
   * With a 35= somewhere, BodyLength is what stands between the first = from the third byte on and the SOH after it:
   * if that is no number the reader raises, and else a message ends so many bytes and seven more behind that SOH.
   */
  lemma {:induction false} LengthRead(b: Bytes, mark: nat, equals: nat, soh: nat)
    requires mark + 3 <= |b| && b[mark..mark + 3] == [51, 53, 61]
    requires 2 <= equals < soh < |b| && b[equals] == 61 && b[soh] == 1
    requires (forall k :: 2 <= k < equals ==> b[k] != 61) && forall k :: equals <= k < soh ==> b[k] != 1
    ensures Announce(b) == match ParseInt(b[equals + 1..soh])
                           case None => Malformed
                           case Some(n) => Length(soh + 1 + n + 7)
  {
    hide ParseInt, Find;
    assert MarkAt(b, TYPE_MARK, mark);
    FindFrom(b, EQUALS, 2, equals);
    FindFrom(b, SOH, equals, soh);
  }
}
