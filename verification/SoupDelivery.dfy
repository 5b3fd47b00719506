/** SOUP messages from the wire to the application, over every interleaving. */
module SoupDelivery {
  import opened Bytes
  import opened Framing
  import opened SoupCodec
  import opened SessionDrain
  import opened DrainEnds
  import Q = MessageQueue

  /** What a client session sees of a message list: nothing from the first logout on, and no heartbeats. */
  function Visible(msgs: seq<SoupMessage>): seq<SoupMessage> {
    Handed(Soup, msgs)
  }

  /**
   * However the packets of a message list are cut into pieces and interleaved with reader turns, reads and
   * drains: what the session's queue accepted is a prefix of the visible messages among the packets that
   * arrived completely, and it is all of them once the reader has nothing whole left to read.
   */
  lemma {:induction false} Delivery(msgs: seq<SoupMessage>, k: nat, dispatching: bool, events: seq<Event<SoupMessage>>)
    requires forall m :: m in msgs ==> Fits(m)
    requires k <= |Concat(Encodings(msgs))| && Received(events) == Concat(Encodings(msgs))[..k]
    requires Lossless(events)
    ensures WholeFrames(Encodings(msgs), k) <= |msgs|
    ensures var s := Run(Soup, Initial(dispatching), events);
            var arrived := Visible(msgs[..WholeFrames(Encodings(msgs), k)]);
            && s.queue.Accepted() <= arrived
            && (!s.reader.loop.Reading? || Soup.peek(s.reader.Unread()).Wait? ==> s.queue.Accepted() == arrived)
  {
    hide Fits, Encode, Peek, Run, Received;
    var frames := Encodings(msgs);
    SoupIncremental();
    forall i | 0 <= i < |frames| ensures Frames(Soup, frames[i], msgs[i]) { SoupFrames(msgs[i]); }
    StreamDelivery(Soup, frames, msgs, k, dispatching, events);
  }

  /** The payloads of the sequenced packets in a list. */
  function Payloads(msgs: seq<SoupMessage>): seq<Bytes> {
    if msgs == [] then []
    else (if msgs[0].SequencedData? then [msgs[0].data] else []) + Payloads(msgs[1..])
  }

  lemma {:induction false} PayloadsAppend(a: seq<SoupMessage>, b: seq<SoupMessage>)
    ensures Payloads(a + b) == Payloads(a) + Payloads(b)
  {
    if a == [] {
      assert a + b == b;
    } else {
      assert (a + b)[1..] == a[1..] + b;
      PayloadsAppend(a[1..], b);
    }
  }

  lemma {:induction false} VisiblePrefix(msgs: seq<SoupMessage>, n: nat)
    requires n <= |msgs|
    ensures Visible(msgs[..n]) <= Visible(msgs)
  {
    if n > 0 {
      assert msgs[..n][1..] == msgs[1..][..n - 1];
      VisiblePrefix(msgs[1..], n - 1);
    }
  }

  lemma {:induction false} NoPayloads(msgs: seq<SoupMessage>)
    ensures Payloads(msgs) == [] <==> forall m :: m in msgs ==> !m.SequencedData?
  {
    if msgs != [] {
      NoPayloads(msgs[1..]);
      assert forall m :: m in msgs <==> m == msgs[0] || m in msgs[1..];
    }
  }

  // ---------------------------------------------------------------- a drain nobody feeds

  /**
   * A client session that has received one ordinary packet and has not started dispatching: once a closing drain
   * has begun it never gets past and its close handler never runs, in any run with no reads and no dispatcher
   * started.
   */
  lemma {:induction false} UndispatchedDrainHangs(packet: Bytes, events: seq<Event<SoupMessage>>)
    requires packet == [0, 1, 83]
    requires forall e :: e in events ==> !e.EndDrain? && (e.Consume? ==> TaskTurn(e.call))
    ensures Incremental(Soup)
    ensures var s := Run(Soup, Initial(false), [Data(packet), StartDrain(true)]);
            && s.phase == AwaitReader(true) && s.reader.loop.Reading? && Scan(Soup, s.reader.pending).end.Open?
            && !Run(Soup, s, events).phase.Past? && Run(Soup, s, events).handlerRuns == 0
  {
    hide Run, Incremental, Scan, WellPhased, Undisturbed, Unconsumed;
    OnePacket(packet);
    DrainBegun(packet);
    var s := Run(Soup, Initial(false), [Data(packet), StartDrain(true)]);
    WaitingEvents(s, events);
    UnconsumedNeverEnds(Soup, s, events);
    HandlerWaits(Soup, s, events);
  }

  lemma {:induction false} WaitingEvents(s: Session<SoupMessage>, events: seq<Event<SoupMessage>>)
    requires s.closed && s.queue == Q.Fresh(false)
    requires forall e :: e in events ==> !e.EndDrain? && (e.Consume? ==> TaskTurn(e.call))
    ensures Undisturbed(s, events) && Unconsumed(s, events)
  {
  }

  /** The session when its drain has begun. */
  lemma {:induction false} DrainBegun(packet: Bytes)
    requires packet == [0, 1, 83]
    ensures var s := Run(Soup, Initial(false), [Data(packet), StartDrain(true)]);
            && WellPhased(Soup, s) && s.phase == AwaitReader(true) && s.closed && s.handlerRuns == 0
            && s.reader.loop.Reading? && s.reader.pending == packet && s.queue == Q.Fresh(false)
  {
    hide Peek;
    var f := Initial<SoupMessage>(false);
    var a: seq<Event<SoupMessage>>, b: seq<Event<SoupMessage>> := [Data(packet)], [StartDrain(true)];
    assert [Data(packet), StartDrain(true)] == a + b;
    DrainEnds.RunAppend(Soup, f, a, b);
    RunOne(Soup, f, Data(packet));
    RunOne(Soup, Next(Soup, f, Data(packet)), StartDrain(true));
    assert [] + packet == packet;
  }

  lemma {:induction false} OnePacket(packet: Bytes)
    requires packet == [0, 1, 83]
    ensures Incremental(Soup) && Scan(Soup, packet) == Scanned([SequencedData([])], [], Open)
  {
    SoupIncremental();
    assert packet[..3] == packet && packet[3..] == [];
    assert Soup.peek(packet) == Frame(3, SequencedData([]));
    ScanStep(Soup, packet);
    ScanStep(Soup, []);
  }

}
