/**
 * The heartbeat monitor as a timed automaton (common/session.py): ticks are exactly `interval` apart, and a
 * ping falls into the window between two ticks. Window `k` lasts from `k * interval` to the next tick.
 */
module Heartbeat {

  // ---------------------------------------------------------------- the monitor

  class HeartbeatMonitor {
    const tolerate: int
    const stopWhenNoActivity: bool
    var pinged: bool
    var missed: nat
    var running: bool
    ghost var windows: seq<bool>      // for every tick so far: was there a ping before it
    ghost var pingedSince: bool

    ghost predicate Valid()
      reads this
    {
      && (pinged <==> windows == [] || pingedSince)
      && (running ==> missed == Streak(windows))
    }

    constructor (tolerate: int, stopWhenNoActivity: bool)
      ensures Valid() && running && windows == [] && !pingedSince
      ensures this.tolerate == tolerate && this.stopWhenNoActivity == stopWhenNoActivity
    {
      this.tolerate, this.stopWhenNoActivity := tolerate, stopWhenNoActivity;
      pinged, missed, running := true, 0, true;
      windows, pingedSince := [], false;
    }

    method Ping()
      requires Valid()
      modifies this`pinged, this`pingedSince
      ensures Valid() && pingedSince
    {
      pinged := true;
      pingedSince := true;
    }

    /** One turn of the loop of `_start_monitor`; true when it calls the no-activity handler. */
    method Tick() returns (trips: bool)
      requires Valid() && running
      modifies this
      ensures Valid() && windows == old(windows) + [old(pingedSince)] && !pingedSince
      ensures trips <==> Silent(windows, Patience(tolerate))
      ensures running <==> !(trips && stopWhenNoActivity)
    {
      windows := windows + [pingedSince];
      pingedSince := false;
      StreakGrows(windows);
      StreakSilent(windows, Patience(tolerate));
      if pinged {
        pinged := false;
        missed := 0;
        return false;
      }
      missed := missed + 1;
      trips := missed >= tolerate;
      if trips && stopWhenNoActivity { running := false; }
    }
  }

  /** How many silent windows in a row trip the monitor: never fewer than one. */
  function Patience(tolerate: int): nat {
    if tolerate < 1 then 1 else tolerate
  }

  /** The last `n` windows had no ping. The first window counts as pinged: the flag starts out set. */
  predicate Silent(windows: seq<bool>, n: nat) {
    n < |windows| && forall k :: |windows| - n <= k < |windows| ==> !windows[k]
  }

  /** The number of silent windows at the end. */
  function Streak(windows: seq<bool>): nat {
    if |windows| <= 1 || windows[|windows| - 1] then 0 else 1 + Streak(windows[..|windows| - 1])
  }

  lemma {:induction false} StreakGrows(windows: seq<bool>)
    requires windows != []
    ensures Streak(windows) ==
            if |windows| == 1 || windows[|windows| - 1] then 0 else 1 + Streak(windows[..|windows| - 1])
  {
  }

  lemma {:induction false} StreakSilent(windows: seq<bool>, n: nat)
    requires n > 0
    ensures Streak(windows) >= n <==> Silent(windows, n)
  {
    if |windows| > 1 && !windows[|windows| - 1] {
      var shorter := windows[..|windows| - 1];
      if n > 1 {
        StreakSilent(shorter, n - 1);
        assert forall k :: 0 <= k < |shorter| ==> shorter[k] == windows[k];
      }
    } else if |windows| > 1 {
      assert windows[|windows| - 1];
    }
  }

  // ---------------------------------------------------------------- real time

  /** When window `k` begins, and window `k - 1` ends with a tick. */
  function At(k: int, interval: real): real {
    k as real * interval
  }

  ghost predicate Busy(pings: iset<real>, interval: real, k: nat) {
    exists p :: p in pings && At(k, interval) <= p < At(k + 1, interval)
  }

  /** The first `n` windows of a history of pings. */
  ghost function Windows(pings: iset<real>, interval: real, n: nat): seq<bool> {
    seq(n, k requires 0 <= k < n => Busy(pings, interval, k))
  }

  /** The tick that ends window `k` would trip a monitor still running. */
  ghost predicate TripsAt(pings: iset<real>, interval: real, tolerate: int, k: nat) {
    Silent(Windows(pings, interval, k + 1), Patience(tolerate))
  }

  lemma {:induction false} AtMoves(k: int, n: int, interval: real)
    requires interval > 0.0
    ensures At(k + n, interval) == At(k, interval) + At(n, interval)
    ensures n >= 0 ==> At(n, interval) >= 0.0
    ensures At(1, interval) == interval && At(2, interval) == 2.0 * interval
  {
    assert (k + n) as real == k as real + n as real;
  }

  lemma {:induction false} AtOrder(j: int, k: int, interval: real)
    requires interval > 0.0 && j <= k
    ensures At(j, interval) <= At(k, interval)
  {
    AtMoves(j, k - j, interval);
  }

  /** The window a moment falls into. */
  lemma {:induction false} WindowOf(p: real, interval: real) returns (k: nat)
    requires interval > 0.0 && p >= 0.0
    ensures At(k, interval) <= p < At(k + 1, interval)
  {
    hide At;
    var q := Quotient(p, interval);
    k := q.Floor;
    var next := k + 1;
    assert k as real <= q && q < next as real;
    ScaledAt(k, q, interval);
    ScaledAt(next, q, interval);
  }

  lemma {:induction false} Quotient(p: real, interval: real) returns (q: real)
    requires interval > 0.0 && p >= 0.0
    ensures q >= 0.0 && q * interval == p
  {
    q := p / interval;
  }

  lemma {:induction false} ScaledAt(k: int, q: real, interval: real)
    requires interval > 0.0
    ensures k as real <= q ==> At(k, interval) <= q * interval
    ensures q < k as real ==> q * interval < At(k, interval)
  {
    var a := k as real;
    Scaled(a, q, interval);
    Scaled(q, a, interval);
  }

  lemma {:induction false} Scaled(a: real, b: real, interval: real)
    requires interval > 0.0
    ensures a < b ==> a * interval < b * interval
    ensures a <= b ==> a * interval <= b * interval
  {
    if a < b { assert (b - a) * interval > 0.0; }
  }

  /**
   * Detection latency: with `p` the last ping, or 0 when there was none since the start, the first tick from then
   * on that trips comes later than `t * interval` and at most `(t + 1) * interval` after it, where `t` is the number
   * of missed windows tolerated (at least one).
   */
  lemma {:induction false} DetectionLatency(pings: iset<real>, interval: real, tolerate: int, p: real) returns (k: nat)
    requires interval > 0.0 && p >= 0.0 && (p in pings || p == 0.0) && forall q :: q in pings ==> q <= p
    ensures TripsAt(pings, interval, tolerate, k)
    ensures var t, tick := Patience(tolerate), At(k + 1, interval);
            At(t, interval) < tick - p <= At(t + 1, interval)
    ensures forall j: nat :: p < At(j + 1, interval) && j < k ==> !TripsAt(pings, interval, tolerate, j)
  {
    var t := Patience(tolerate);
    var w := WindowOf(p, interval);
    k := w + t;
    AtMoves(w + 1, t, interval);
    AtMoves(w, t + 1, interval);
    var all := Windows(pings, interval, k + 1);
    forall j | w < j <= k ensures !all[j] {
      AtOrder(w + 1, j, interval);
    }
    if w > 0 { AtOrder(1, w, interval); AtMoves(0, 1, interval); }
    assert p in pings ==> Busy(pings, interval, w);
    assert p !in pings ==> w == 0;
    forall j: nat | p < At(j + 1, interval) && j < k ensures !TripsAt(pings, interval, tolerate, j) {
      assert j >= w by {
        if j < w { AtOrder(j + 1, w, interval); }
      }
      assert p in pings ==> Windows(pings, interval, j + 1)[w];
    }
  }

  /** Traffic in every window never trips the monitor, whatever it tolerates. */
  lemma {:induction false} SteadyTraffic(pings: iset<real>, interval: real, tolerate: int)
    requires forall k: nat :: k > 0 ==> Busy(pings, interval, k)
    ensures forall k: nat :: !TripsAt(pings, interval, tolerate, k)
  {
    forall k: nat ensures !TripsAt(pings, interval, tolerate, k) {
      var w := Windows(pings, interval, k + 1);
      if k > 0 { assert Busy(pings, interval, k) && w[k]; }
    }
  }

  // ---------------------------------------------------------------- the local monitor

  /** A session's own packets ping its local monitor, which tolerates one window; its heartbeats do not. */
  ghost predicate Transmits(sends: iset<real>, interval: real, moment: real) {
    || moment in sends
    || exists k: nat :: TripsAt(sends, interval, 1, k) && moment == At(k + 1, interval)
  }

  /**
   * Transmission gap: while the local monitor runs, whatever moment is taken, something is sent later than it
   * and within two intervals.
   */
  lemma {:induction false} TransmissionGap(sends: iset<real>, interval: real, moment: real) returns (next: real)
    requires interval > 0.0 && moment >= 0.0
    ensures moment < next <= moment + 2.0 * interval
    ensures Transmits(sends, interval, next)
  {
    var w := WindowOf(moment, interval);
    AtMoves(w, 2, interval);
    AtMoves(w + 1, 1, interval);
    if Busy(sends, interval, w + 1) {
      next :| next in sends && At(w + 1, interval) <= next < At(w + 2, interval);
    } else {
      next := At(w + 2, interval);
      assert TripsAt(sends, interval, 1, w + 1);
      assert next == At(w + 1 + 1, interval);
    }
  }
}
