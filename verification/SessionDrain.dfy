/**
 * An AsyncSession as a state machine: data arrival, turns of the reader task, turns of the dispatcher, reads
 * by the application, a drain (`buffer_until_drained` or `close(drain=True)`) and a plain close, in any
 * interleaving.
 */
module SessionDrain {
  import opened Bytes
  import opened Framing
  import opened StreamReader
  import Q = MessageQueue

  /** Where the one drain in progress stands; `closing` tells `close(drain=True)` from the application's own. */
  datatype Phase =
    | Idle
    | AwaitReader(closing: bool)
    | AwaitQueue(closing: bool)
    | Past(closing: bool)

  /**
   * A session; `handlerRuns` counts the runs of its close handler. It is half closed when `close(drain=True)` came
   * while a drain was in progress: marked closed, and then the error of the nested drain was raised.
   */
  datatype Session<M> = Session(reader: View, queue: Q.Store<M>, phase: Phase,
                                closed: bool, halfClosed: bool, handlerRuns: nat)

  datatype Event<M> =
    | Data(bytes: Bytes)
    | ReaderTurn
    | Consume(call: Q.Call<M>)      // a dispatcher's turn, or the application reads, pauses, resumes
    | StartDrain(closing: bool)
    | ReaderDrained                 // the drain event was set; the side queue is put up
    | QueueDrained                  // the main queue was seen empty
    | EndDrain(discard: bool, own: bool)
    | Close(own: bool)              // `close()` without a drain; `own` when the dispatcher's own handler calls it

  predicate Consumer<M>(c: Q.Call<M>) {
    !(c.Put? || c.StartBuffering? || c.EndBuffering? || c.Stop?)
  }

  function Initial<M>(dispatching: bool): Session<M> {
    Session(Fresh, Q.Fresh(dispatching), Idle, false, false, 0)
  }

  /** One event; an event that cannot happen now leaves the session as it is. */
  function Next<M>(p: Protocol<M>, s: Session<M>, e: Event<M>): Session<M> {
    match e
    case Data(d) => s.(reader := Receive(s.reader, d))
    case ReaderTurn =>
      if !s.reader.loop.Reading? then s
      else
        var (v, t) := Turned(p, s.reader);
        (match t
         case Quiet => s.(reader := v)
         case Message(m) => s.(reader := v, queue := Q.Step(s.queue, Q.Put(m)).0)
         case Logout => Closed(s.(reader := v), false))
    case Consume(c) => if Consumer(c) then s.(queue := Q.Step(s.queue, c).0) else s
    case StartDrain(closing) =>
      if closing && s.closed then s
      else if !s.phase.Idle? then (if closing then s.(closed := true, halfClosed := true) else s)
      else s.(reader := DrainStarted(s.reader), phase := AwaitReader(closing), closed := s.closed || closing)
    case ReaderDrained =>
      if !s.phase.AwaitReader? || !s.reader.drained then s
      else s.(queue := Q.Step(s.queue, Q.StartBuffering).0, phase := AwaitQueue(s.phase.closing))
    case QueueDrained =>
      if !s.phase.AwaitQueue? || s.queue.main != [] then s else s.(phase := Past(s.phase.closing))
    case EndDrain(discard, own) =>
      if !s.phase.Past? || (s.phase.closing && !discard) then s
      else
        var v := DrainEnded(s.reader, discard);
        var q := Q.Step(s.queue, Q.EndBuffering(discard, own)).0;
        if s.phase.closing then
          s.(reader := v.(loop := Stopped), queue := Q.Step(q, Q.Stop(own)).0, phase := Idle,
             handlerRuns := s.handlerRuns + 1)
        else s.(reader := v, queue := q, phase := Idle)
    case Close(own) => if s.closed then s else Closed(s.(reader := s.reader.(loop := Stopped)), own)
  }

  /** The part of `close` that stops the queue and runs the close handler, unless the session is marked closed. */
  function Closed<M>(s: Session<M>, own: bool): Session<M> {
    if s.closed then s
    else s.(queue := Q.Step(s.queue, Q.Stop(own)).0, closed := true, handlerRuns := s.handlerRuns + 1)
  }

  /** Nothing is discarded and the session is not closed outright. */
  predicate Keeping<M>(e: Event<M>) {
    !(e.EndDrain? && e.discard) && !e.Close?
  }

  ghost predicate Lossless<M>(events: seq<Event<M>>) {
    forall e :: e in events ==> Keeping(e)
  }

  function Run<M>(p: Protocol<M>, s: Session<M>, events: seq<Event<M>>): Session<M>
    decreases |events|
  {
    if events == [] then s else Run(p, Next(p, s, events[0]), events[1..])
  }

  function Received<M>(events: seq<Event<M>>): Bytes
    decreases |events|
  {
    if events == [] then []
    else (if events[0].Data? then events[0].bytes else []) + Received(events[1..])
  }

  function ReaderTurns<M>(events: seq<Event<M>>): nat
    decreases |events|
  {
    if events == [] then 0 else (if events[0].ReaderTurn? then 1 else 0) + ReaderTurns(events[1..])
  }

  // ---------------------------------------------------------------- what one turn of the reader does

  lemma {:induction false} TurnScans<M(!new)>(p: Protocol<M>, v: View, later: Bytes)
    requires Incremental(p) && v.loop.Reading?
    ensures var (v', t) := Turned(p, v);
            var s, s' := Scan(p, v.pending + later), Scan(p, v'.pending + later);
            && v'.held == v.held
            && (t.Message? ==> v'.loop.Reading?)
            && (t.Logout? ==> v'.loop.Stopped?)
            && s.msgs == (if t.Message? then [t.msg] else []) + (if v'.loop.Reading? then s'.msgs else [])
            && (v'.loop.Reading? ==> s'.end == s.end && s'.rest == s.rest)
            && (!v'.loop.Reading? ==> s.end == if v'.loop.Crashed? then Failed else LoggedOut)
  {
    if v.pending != [] && !p.peek(v.pending).Wait? {
      PeekExtended(p, v.pending, later);
      if p.peek(v.pending).Frame? {
        FrameFits(p, v.pending);
        var n := p.peek(v.pending).size;
        assert (v.pending + later)[n..] == v.pending[n..] + later;
      }
    }
  }

  /** A turn that consumes nothing means that no whole frame is pending. */
  lemma {:induction false} QuietTurnWaits<M(!new)>(p: Protocol<M>, v: View)
    requires Incremental(p) && v.loop.Reading? && v.held.Some? && !v.drained
    ensures var v' := Turned(p, v).0;
            && (v'.drained ==> v'.loop.Reading? && v'.pending == v.pending && p.peek(v.pending).Wait?)
            && (!v'.drained && v'.loop.Reading? ==> |v'.pending| < |v.pending|)
  {
    if p.peek(v.pending).Frame? { FrameFits(p, v.pending); }
  }

  // ---------------------------------------------------------------- conservation over all runs

  /** The phase, the drain buffer and the side queue go together. */
  ghost predicate WellPhased<M(!new)>(p: Protocol<M>, s: Session<M>) {
    && (s.phase.Idle? <==> s.reader.held.None?)
    && (s.queue.side.Some? <==> s.phase.AwaitQueue? || s.phase.Past?)
    && (s.phase.Past? ==> s.queue.main == [])
    && (s.reader.drained && !s.phase.Idle? ==>
          && p.peek(s.reader.pending).Wait?
          && (s.reader.loop.Reading? || (s.closed && !s.phase.closing)))
    && (!s.phase.Idle? && s.phase.closing ==> s.closed)
    && (s.phase.AwaitQueue? || s.phase.Past? ==> s.reader.drained && s.queue.side == Some([]))
  }

  /** What was accepted by the queue and what the unread bytes still hold make up what was received. */
  ghost predicate Conserves<M(!new)>(p: Protocol<M>, s: Session<M>, received: Bytes)
    requires Incremental(p)
  {
    var all := Scan(p, received);
    if s.reader.loop.Reading? then
      var left := Scan(p, s.reader.Unread());
      s.queue.Accepted() + left.msgs == all.msgs && left.rest == all.rest && left.end == all.end
    else
      s.queue.Accepted() == all.msgs && all.end == if s.reader.loop.Crashed? then Failed else LoggedOut
  }

  lemma {:induction false} WellPhasedNext<M(!new)>(p: Protocol<M>, s: Session<M>, e: Event<M>)
    requires Incremental(p) && WellPhased(p, s)
    ensures WellPhased(p, Next(p, s, e))
  {
    hide Q.Step, Incremental;
    match e
    case ReaderTurn => WellPhasedTurn(p, s);
    case Consume(c) => Q.StepShape(s.queue, c);
    case ReaderDrained => Q.StepShape(s.queue, Q.StartBuffering);
    case EndDrain(discard, own) =>
      Q.StepShape(s.queue, Q.EndBuffering(discard, own));
      Q.StepShape(Q.Step(s.queue, Q.EndBuffering(discard, own)).0, Q.Stop(own));
    case Close(own) => Q.StepShape(s.queue, Q.Stop(own));
    case _ =>
  }

  lemma {:induction false} WellPhasedTurn<M(!new)>(p: Protocol<M>, s: Session<M>)
    requires Incremental(p) && WellPhased(p, s)
    ensures WellPhased(p, Next(p, s, ReaderTurn))
  {
    hide Q.Step, Incremental;
    if s.reader.loop.Reading? {
      if s.reader.held.Some? && !s.reader.drained { QuietTurnWaits(p, s.reader); }
      var t := Turned(p, s.reader).1;
      if t.Message? { Q.StepShape(s.queue, Q.Put(t.msg)); }
      Q.StepShape(s.queue, Q.Stop(false));
    }
  }

  lemma {:induction false} DataConserves<M(!new)>(p: Protocol<M>, s: Session<M>, d: Bytes, received: Bytes)
    requires Incremental(p) && Conserves(p, s, received)
    ensures Conserves(p, Next(p, s, Data(d)), received + d)
  {
    hide Scan, Incremental;
    ScanExtended(p, received, d);
    assert Receive(s.reader, d).Unread() == s.reader.Unread() + d;
    if s.reader.loop.Reading? {
      ScanExtended(p, s.reader.Unread(), d);
      var left := Scan(p, s.reader.Unread());
      if left.end.Open? {
        Associates(s.queue.Accepted(), left.msgs, Scan(p, left.rest + d).msgs);
      }
    }
  }

  /** A message read in a turn goes to the end of the queue; nothing else a turn does touches its entries. */
  lemma {:induction false} TurnAccepts<M>(p: Protocol<M>, s: Session<M>)
    ensures var (v, t) := Turned(p, s.reader);
            Next(p, s, ReaderTurn).queue.Accepted() ==
            s.queue.Accepted() + if s.reader.loop.Reading? && t.Message? then [t.msg] else []
  {
    hide Turned;
    var (v, t) := Turned(p, s.reader);
    if s.reader.loop.Reading? && t.Message? {
      Q.StepAccepts(s.queue, Q.Put(t.msg));
    } else {
      Q.StepAccepts(s.queue, Q.Stop(false));
      Associates(s.queue.Accepted(), [], []);
    }
  }

  lemma {:induction false} TurnConserves<M(!new)>(p: Protocol<M>, s: Session<M>, received: Bytes)
    requires Incremental(p) && Conserves(p, s, received)
    ensures Conserves(p, Next(p, s, ReaderTurn), received)
  {
    hide Scan, Incremental, Turned;
    if s.reader.loop.Reading? {
      var held := if s.reader.held.Some? then s.reader.held.value else [];
      TurnScans(p, s.reader, held);
      TurnAccepts(p, s);
      var (v, t) := Turned(p, s.reader);
      var got := if t.Message? then [t.msg] else [];
      Associates(s.queue.Accepted(), got, Scan(p, v.Unread()).msgs);
      Associates(got, [], []);
    }
  }

  lemma {:induction false} OtherConserves<M(!new)>(p: Protocol<M>, s: Session<M>, e: Event<M>, received: Bytes)
    requires Incremental(p) && Conserves(p, s, received) && WellPhased(p, s)
    requires !e.Data? && !e.ReaderTurn? && Keeping(e)
    ensures Conserves(p, Next(p, s, e), received)
  {
    hide Scan, Incremental, Turned;
    var s' := Next(p, s, e);
    Associates(s.queue.Accepted(), [], []);
    if e.Consume? && Consumer(e.call) { Q.StepAccepts(s.queue, e.call); }
    if e.ReaderDrained? { Q.StepAccepts(s.queue, Q.StartBuffering); }
    if e.EndDrain? { Q.StepAccepts(s.queue, Q.EndBuffering(false, e.own)); }
    if e.StartDrain? { assert s.reader.pending + [] == s.reader.pending; }
    assert s'.reader.Unread() == s.reader.Unread() by {
      assert s'.reader.held.None? ==> s'.reader.pending + [] == s'.reader.pending;
    }
  }

  lemma {:induction false} StepConserves<M(!new)>(p: Protocol<M>, s: Session<M>, e: Event<M>, received: Bytes)
    requires Incremental(p) && Conserves(p, s, received) && WellPhased(p, s) && Keeping(e)
    ensures Conserves(p, Next(p, s, e), received + if e.Data? then e.bytes else [])
  {
    hide Next, Scan, Incremental, Conserves, WellPhased;
    if e.Data? {
      DataConserves(p, s, e.bytes, received);
    } else {
      assert received + [] == received;
      if e.ReaderTurn? { TurnConserves(p, s, received); } else { OtherConserves(p, s, e, received); }
    }
  }

  /**
   * Over every run, with any number of drains that keep their buffers: what was delivered, what is queued and
   * what the unread bytes hold are together exactly the messages of the bytes received, read in one piece.
   */
  lemma {:induction false} Conservation<M(!new)>(p: Protocol<M>, s: Session<M>, events: seq<Event<M>>, received: Bytes)
    requires Incremental(p) && Conserves(p, s, received) && WellPhased(p, s)
    requires Lossless(events)
    ensures Conserves(p, Run(p, s, events), received + Received(events))
    ensures WellPhased(p, Run(p, s, events))
    decreases |events|
  {
    hide Next, Scan, Incremental, Conserves, WellPhased;
    if events == [] {
      assert received + [] == received;
    } else {
      assert events[0] in events;
      WellPhasedNext(p, s, events[0]);
      StepConserves(p, s, events[0], received);
      var now := if events[0].Data? then events[0].bytes else [];
      Conservation(p, Next(p, s, events[0]), events[1..], received + now);
      Associates(received, now, Received(events[1..]));
    }
  }

  lemma {:induction false} InitialConserves<M(!new)>(p: Protocol<M>, dispatching: bool)
    requires Incremental(p)
    ensures Conserves(p, Initial(dispatching), []) && WellPhased(p, Initial<M>(dispatching))
  {
  }

  /** However the bytes are cut up and whatever happens in between, nothing is lost, doubled or reordered. */
  lemma {:induction false} ChunkingIndependence<M(!new)>(p: Protocol<M>, dispatching: bool, events: seq<Event<M>>)
    requires Incremental(p) && Lossless(events)
    ensures var s := Run(p, Initial(dispatching), events);
            var all := Scan(p, Received(events));
            && s.queue.Accepted() <= all.msgs
            && (s.reader.loop.Reading? ==> all.msgs == s.queue.Accepted() + Scan(p, s.reader.Unread()).msgs)
            && (!s.reader.loop.Reading? ==>
                  s.queue.Accepted() == all.msgs && all.end == if s.reader.loop.Crashed? then Failed else LoggedOut)
  {
    InitialConserves(p, dispatching);
    Conservation(p, Initial(dispatching), events, []);
    assert [] + Received(events) == Received(events);
  }

  /**
   * A stream of frames, of which the first `k` bytes arrived: what the session's queue accepted is a prefix of
   * the messages to hand over from the frames that arrived completely, and it is all of them once the reader
   * has nothing whole left to read.
   */
  lemma {:induction false} StreamDelivery<M(!new)>(p: Protocol<M>, frames: seq<Bytes>, msgs: seq<M>, k: nat,
                                                   dispatching: bool, events: seq<Event<M>>)
    requires Incremental(p) && |frames| == |msgs| && forall i :: 0 <= i < |frames| ==> Frames(p, frames[i], msgs[i])
    requires k <= |Concat(frames)| && Received(events) == Concat(frames)[..k]
    requires Lossless(events)
    ensures WholeFrames(frames, k) <= |msgs|
    ensures var s := Run(p, Initial(dispatching), events);
            var arrived := Handed(p, msgs[..WholeFrames(frames, k)]);
            && s.queue.Accepted() <= arrived
            && (!s.reader.loop.Reading? || p.peek(s.reader.Unread()).Wait? ==> s.queue.Accepted() == arrived)
  {
    hide Run, Received, Frames, Incremental;
    ScanFrames(p, frames, msgs, k);
    ChunkingIndependence(p, dispatching, events);
    var s := Run(p, Initial(dispatching), events);
    assert s.queue.Accepted() + [] == s.queue.Accepted();
  }

  // ---------------------------------------------------------------- a reader that gives up early

  /** `q` answers as `p` does, except that it gives up on some inputs. */
  ghost predicate Guards<M>(q: Protocol<M>, p: Protocol<M>) {
    && q.isLogout == p.isLogout && q.isHeartbeat == p.isHeartbeat
    && forall b :: q.peek(b) == p.peek(b) || q.peek(b).Broken?
  }

  /** In no state of a run has an exception ended the reader task. */
  predicate NeverCrashes<M>(p: Protocol<M>, s: Session<M>, events: seq<Event<M>>)
    decreases |events|
  {
    !s.reader.loop.Crashed? && (events == [] || NeverCrashes(p, Next(p, s, events[0]), events[1..]))
  }

  lemma {:induction false} CrashedStays<M(!new)>(p: Protocol<M>, s: Session<M>, events: seq<Event<M>>)
    requires s.reader.loop.Crashed? && Lossless(events)
    ensures Run(p, s, events).reader.loop.Crashed?
    decreases |events|
  {
    if events != [] {
      assert events[0] in events && forall e :: e in events[1..] ==> e in events;
      CrashedStays(p, Next(p, s, events[0]), events[1..]);
    }
  }

  lemma {:induction false} EndNotCrashed<M(!new)>(p: Protocol<M>, s: Session<M>, events: seq<Event<M>>)
    requires Lossless(events) && !Run(p, s, events).reader.loop.Crashed?
    ensures NeverCrashes(p, s, events)
    decreases |events|
  {
    hide Next;
    if s.reader.loop.Crashed? { CrashedStays(p, s, events); }
    if events != [] {
      assert forall e :: e in events[1..] ==> e in events;
      EndNotCrashed(p, Next(p, s, events[0]), events[1..]);
    }
  }

  /** As long as the guarded reader does not give up, every run is a run of the unguarded one. */
  lemma {:induction false} RunAgrees<M(!new)>(q: Protocol<M>, p: Protocol<M>, s: Session<M>, events: seq<Event<M>>)
    requires Guards(q, p) && NeverCrashes(q, s, events)
    ensures Run(p, s, events) == Run(q, s, events)
    decreases |events|
  {
    hide Next, Guards;
    if events != [] {
      NextAgrees(q, p, s, events[0]);
      RunAgrees(q, p, Next(q, s, events[0]), events[1..]);
    }
  }

  lemma {:induction false} NextAgrees<M(!new)>(q: Protocol<M>, p: Protocol<M>, s: Session<M>, e: Event<M>)
    requires Guards(q, p) && !Next(q, s, e).reader.loop.Crashed?
    ensures Next(p, s, e) == Next(q, s, e)
  {
    var b := s.reader.pending;
    assert q.peek(b) == p.peek(b) || q.peek(b).Broken?;
  }

  /** On a stream of frames the reader never gives up. */
  lemma {:induction false} FramesNeverCrash<M(!new)>(p: Protocol<M>, frames: seq<Bytes>, msgs: seq<M>, k: nat,
                                                     dispatching: bool, events: seq<Event<M>>)
    requires Incremental(p) && |frames| == |msgs| && forall i :: 0 <= i < |frames| ==> Frames(p, frames[i], msgs[i])
    requires k <= |Concat(frames)| && Received(events) == Concat(frames)[..k]
    requires Lossless(events)
    ensures NeverCrashes(p, Initial(dispatching), events)
  {
    hide Run, Received, Frames, Incremental;
    ScanFrames(p, frames, msgs, k);
    ChunkingIndependence(p, dispatching, events);
    EndNotCrashed(p, Initial(dispatching), events);
  }
}
