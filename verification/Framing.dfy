/** Cutting messages out of a byte stream, whatever the protocol: what a Reader does with `deserialize`. */
module Framing {
  import opened Bytes

  /** One `deserialize` call: not enough bytes yet, an exception, or a message and its size. */
  datatype Outcome<+M> = Wait | Broken | Frame(size: int, msg: M)

  /** A reader subclass: its `deserialize`, and the two flags it returns beside the message. */
  datatype Protocol<!M> = Protocol(peek: Bytes -> Outcome<M>, isLogout: M -> bool, isHeartbeat: M -> bool)

  /** A frame lies within what is pending, and an answer once given does not change when more bytes arrive. */
  ghost predicate Incremental<M(!new)>(p: Protocol<M>) {
    && p.peek([]).Wait?
    && forall b, c {:trigger p.peek(b), p.peek(b + c)} ::
      && (p.peek(b).Frame? ==> 0 < p.peek(b).size <= |b|)
      && (!p.peek(b).Wait? ==> p.peek(b + c) == p.peek(b))
  }

  lemma {:induction false} FrameFits<M(!new)>(p: Protocol<M>, b: Bytes)
    requires Incremental(p) && p.peek(b).Frame?
    ensures 0 < p.peek(b).size <= |b|
  {
    assert p.peek(b + []) == p.peek(b) by { assert b + [] == b; }
  }

  lemma {:induction false} PeekExtended<M(!new)>(p: Protocol<M>, b: Bytes, c: Bytes)
    requires Incremental(p) && !p.peek(b).Wait?
    ensures p.peek(b + c) == p.peek(b)
  {
  }

  datatype End = Open | LoggedOut | Failed

  /** Everything a byte stream holds: messages for the handler, unread bytes, and how reading ended. */
  datatype Scanned<+M> = Scanned(msgs: seq<M>, rest: Bytes, end: End)

  /** The messages of a byte string read in one piece: heartbeats are skipped, a logout ends it. */
  ghost function Scan<M(!new)>(p: Protocol<M>, b: Bytes): Scanned<M>
    requires Incremental(p)
    decreases |b|
  {
    match p.peek(b)
    case Wait => Scanned([], b, Open)
    case Broken => Scanned([], b, Failed)
    case Frame(n, m) =>
      FrameFits(p, b);
      if p.isLogout(m) then Scanned([], b[n..], LoggedOut)
      else
        After(p, m, Scan(p, b[n..]))
  }

  /** The scan of a message and what comes after it. */
  function After<M>(p: Protocol<M>, m: M, s: Scanned<M>): Scanned<M> {
    if p.isHeartbeat(m) then s else s.(msgs := [m] + s.msgs)
  }

  lemma {:induction false} ScanStep<M(!new)>(p: Protocol<M>, b: Bytes)
    requires Incremental(p)
    ensures var r := p.peek(b);
            && (r.Wait? ==> Scan(p, b) == Scanned([], b, Open))
            && (r.Broken? ==> Scan(p, b) == Scanned([], b, Failed))
            && (r.Frame? ==>
                  && 0 < r.size <= |b|
                  && Scan(p, b) == if p.isLogout(r.msg) then Scanned([], b[r.size..], LoggedOut)
                                   else After(p, r.msg, Scan(p, b[r.size..])))
  {
    if p.peek(b).Frame? { FrameFits(p, b); }
  }

  lemma {:induction false} Dropped(b: Bytes, c: Bytes, n: nat)
    requires n <= |b|
    ensures (b + c)[n..] == b[n..] + c
  {
  }

  /** Reading in two pieces gives the same messages as reading in one. */
  lemma {:induction false} ScanExtended<M(!new)>(p: Protocol<M>, b: Bytes, c: Bytes)
    requires Incremental(p)
    ensures var s := Scan(p, b);
            Scan(p, b + c) ==
            if s.end.Open? then
              var more := Scan(p, s.rest + c);
              Scanned(s.msgs + more.msgs, more.rest, more.end)
            else Scanned(s.msgs, s.rest + c, s.end)
    decreases |b|
  {
    hide Scan;
    ScanStep(p, b);
    if !p.peek(b).Wait? {
      PeekExtended(p, b, c);
      ScanStep(p, b + c);
      if p.peek(b).Frame? {
        FrameFits(p, b);
        var n, m := p.peek(b).size, p.peek(b).msg;
        Dropped(b, c, n);
        if !p.isLogout(m) {
          var s := Scan(p, b[n..]);
          ScanExtended(p, b[n..], c);
          Associates([m], s.msgs, Scan(p, s.rest + c).msgs);
        }
      }
    }
  }

  /** What is left unread when reading stays open holds no whole frame. */
  lemma {:induction false} ScanRestWaits<M(!new)>(p: Protocol<M>, b: Bytes)
    requires Incremental(p)
    ensures Scan(p, b).end.Open? ==> p.peek(Scan(p, b).rest).Wait?
    decreases |b|
  {
    if p.peek(b).Frame? {
      FrameFits(p, b);
      ScanRestWaits(p, b[p.peek(b).size..]);
    }
  }

  // ---------------------------------------------------------------- streams of known frames

  /** `frame` is read as `m` as soon as it is complete, whatever follows it, and not before. */
  ghost predicate Frames<M(!new)>(p: Protocol<M>, frame: Bytes, m: M) {
    && frame != []
    && (forall rest {:trigger frame + rest} :: p.peek(frame + rest) == Frame(|frame|, m))
    && (forall k {:trigger frame[..k]} :: 0 <= k < |frame| ==> p.peek(frame[..k]).Wait?)
  }

  function Concat(frames: seq<Bytes>): Bytes {
    if frames == [] then [] else frames[0] + Concat(frames[1..])
  }

  /** The messages to hand over from a list: those before the first logout that are not heartbeats. */
  function Handed<M>(p: Protocol<M>, msgs: seq<M>): seq<M> {
    if msgs == [] || p.isLogout(msgs[0]) then []
    else (if p.isHeartbeat(msgs[0]) then [] else [msgs[0]]) + Handed(p, msgs[1..])
  }

  /** Any prefix of a stream of frames yields the hand-over list of the whole frames in it. */
  lemma {:induction false} ScanFrames<M(!new)>(p: Protocol<M>, frames: seq<Bytes>, msgs: seq<M>, k: nat)
    requires Incremental(p) && |frames| == |msgs| && k <= |Concat(frames)|
    requires forall i :: 0 <= i < |frames| ==> Frames(p, frames[i], msgs[i])
    ensures var n := WholeFrames(frames, k);
            n <= |msgs| && Scan(p, Concat(frames)[..k]).msgs == Handed(p, msgs[..n])
    ensures Scan(p, Concat(frames)[..k]).end != Failed
    ensures Scan(p, Concat(frames)[..k]).end.LoggedOut? <==>
            exists i :: 0 <= i < WholeFrames(frames, k) && p.isLogout(msgs[i])
  {
    hide Scan, Incremental;
    var b := Concat(frames)[..k];
    ScanStep(p, b);
    if frames == [] {
      assert b == [];
      NothingWaits(p);
    } else {
      var f := frames[0];
      assert Frames(p, f, msgs[0]);
      if k < |f| {
        assert b == f[..k];
      } else {
        var tail := Concat(frames[1..])[..k - |f|];
        assert b == f + tail;
        assert p.peek(f + tail) == Frame(|f|, msgs[0]);
        Parts(f, tail);
        ScanFrames(p, frames[1..], msgs[1..], k - |f|);
        HandedFirst(p, msgs, WholeFrames(frames, k));
        LogoutFirst(p, msgs, WholeFrames(frames, k));
      }
    }
  }

  lemma {:induction false} NothingWaits<M(!new)>(p: Protocol<M>)
    requires Incremental(p)
    ensures p.peek([]).Wait?
  {
  }

  lemma {:induction false} HandedFirst<M>(p: Protocol<M>, msgs: seq<M>, n: nat)
    requires 0 < n <= |msgs|
    ensures Handed(p, msgs[..n]) ==
            if p.isLogout(msgs[0]) then []
            else (if p.isHeartbeat(msgs[0]) then [] else [msgs[0]]) + Handed(p, msgs[1..][..n - 1])
  {
    assert msgs[..n][1..] == msgs[1..][..n - 1];
  }

  lemma {:induction false} LogoutFirst<M>(p: Protocol<M>, msgs: seq<M>, n: nat)
    requires 0 < n <= |msgs|
    ensures (exists i :: 0 <= i < n && p.isLogout(msgs[i])) <==>
            p.isLogout(msgs[0]) || exists i :: 0 <= i < n - 1 && p.isLogout(msgs[1..][i])
  {
    if i :| 0 <= i < n && p.isLogout(msgs[i]) && i > 0 { assert p.isLogout(msgs[1..][i - 1]); }
    if i :| 0 <= i < n - 1 && p.isLogout(msgs[1..][i]) { assert p.isLogout(msgs[i + 1]); }
  }

  /** How many frames lie completely within the first `k` bytes. */
  function WholeFrames(frames: seq<Bytes>, k: nat): nat {
    if frames == [] || k < |frames[0]| then 0 else 1 + WholeFrames(frames[1..], k - |frames[0]|)
  }
}
