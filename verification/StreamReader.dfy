/** The Reader of common/session.py: buffering, lazy compaction and draining. */
module StreamReader {
  import opened Bytes
  import opened Framing

  /** The process loop's task: still looping, ended by `stop`, or ended by an exception. */
  datatype Loop = Reading | Stopped | Crashed

  /**
   * A reader without its buffer management: the unread bytes, the bytes held back while draining (None when
   * not draining) and whether the drain event is set.
   */
  datatype View = View(pending: Bytes, held: Option<Bytes>, drained: bool, loop: Loop) {
    /** All bytes received and not yet read, in arrival order. */
    function Unread(): Bytes { pending + if held.Some? then held.value else [] }
  }

  /** What one turn of the process loop gives to the session. */
  datatype Turn<+M> = Quiet | Message(msg: M) | Logout

  const Fresh: View := View([], None, false, Reading)

  function Receive(v: View, data: Bytes): View {
    if v.held.Some? then v.(held := Some(v.held.value + data)) else v.(pending := v.pending + data)
  }

  /**
   * One turn: read at most one frame; a turn that consumes nothing sets the drain event. A frame of negative size
   * moves the read position back, which a View cannot show: only `Deserialized` below says what happens then.
   */
  function Turned<M>(p: Protocol<M>, v: View): (View, Turn<M>) {
    var idle := v.(drained := v.drained || v.held.Some?);
    if v.pending == [] then (idle, Quiet)
    else
      match p.peek(v.pending)
      case Wait => (idle, Quiet)
      case Broken => (v.(loop := Crashed), Quiet)
      case Frame(n, m) =>
        var after := v.(pending := if 0 <= n <= |v.pending| then v.pending[n..] else []);
        if p.isLogout(m) then (after.(loop := Stopped), Logout)
        else if p.isHeartbeat(m) then (after, Quiet)
        else (after, Message(m))
  }

  function DrainStarted(v: View): View {
    v.(held := Some([]), drained := false)
  }

  function DrainEnded(v: View, discard: bool): View {
    View(if discard then v.pending else v.Unread(), None, false, v.loop)
  }

  /** `deserialize` on the buffer and the signed read position, with its lazy compaction. */
  function Deserialized<M>(p: Protocol<M>, buffer: Bytes, readPos: int): (Bytes, int, Outcome<M>) {
    var r := p.peek(From(buffer, readPos));
    if !r.Frame? then (buffer, readPos, r)
    else
      var pos := readPos + r.size;
      if pos > |buffer| / 2 then (From(buffer, pos), 0, r) else (buffer, pos, r)
  }

  class Reader<M(!new)> {
    const protocol: Protocol<M>
    var buffer: Bytes
    var readPos: nat
    var drainBuffer: Option<Bytes>
    var drainMode: Option<bool>     // None, or the drain event: set or not
    var stopped: bool
    var crashed: bool
    ghost var consumed: nat         // bytes taken off by deserialize
    ghost var shifted: nat          // bytes moved by deserialize's compactions

    ghost predicate Valid()
      reads this
    {
      && Incremental(protocol)
      && 2 * readPos <= |buffer|
      && (drainBuffer.Some? <==> drainMode.Some?)
      && shifted + readPos <= consumed
    }

    ghost function Look(): View
      reads this
      requires Valid()
    {
      View(buffer[readPos..], drainBuffer, drainMode.Some? && drainMode.value,
           if stopped then Stopped else if crashed then Crashed else Reading)
    }

    constructor (protocol: Protocol<M>)
      requires Incremental(protocol)
      ensures Valid() && Look() == Fresh && this.protocol == protocol && consumed == shifted == 0
    {
      this.protocol := protocol;
      buffer, readPos, drainBuffer, drainMode := [], 0, None, None;
      stopped, crashed, consumed, shifted := false, false, 0, 0;
    }

    /** Storage is never more than twice what is unread; compaction costs at most a move per byte read. */
    lemma {:induction false} Bounds()
      requires Valid()
      ensures |buffer| <= 2 * |Look().pending|
      ensures shifted <= consumed
    {
    }

    method OnData(data: Bytes)
      requires Valid()
      modifies this`buffer, this`drainBuffer
      ensures Valid() && Look() == Receive(old(Look()), data)
      ensures Look().Unread() == old(Look().Unread()) + data
    {
      if |data| == 0 {
        assert Receive(Look(), data) == Look() by {
          assert Look().pending + [] == Look().pending;
          assert drainBuffer.Some? ==> drainBuffer.value + [] == drainBuffer.value;
        }
        return;
      }
      if drainBuffer.Some? {
        drainBuffer := Some(drainBuffer.value + data);
      } else {
        buffer := buffer + data;
      }
    }

    /** Takes one frame off the buffer when there is one, and compacts once more than half is consumed. */
    method Deserialize() returns (r: Outcome<M>)
      requires Valid()
      modifies this`buffer, this`readPos, this`consumed, this`shifted
      ensures Valid() && r == protocol.peek(old(Look()).pending)
      ensures (buffer, readPos, r) == Deserialized(protocol, old(buffer), old(readPos))
      ensures r.Frame? ==> 0 < r.size <= |old(Look()).pending|
      ensures Look() == old(Look()).(pending := if r.Frame? then old(Look()).pending[r.size..] else old(Look()).pending)
      ensures consumed == old(consumed) + if r.Frame? then r.size else 0
    {
      hide From, Incremental;
      FromWithin(buffer, readPos);
      var view := buffer[readPos..];
      r := protocol.peek(view);
      if r.Frame? {
        FrameFits(protocol, view);
        readPos := readPos + r.size;
        FromWithin(buffer, readPos);
        consumed := consumed + r.size;
        Compact();
      }
    }

    /** Once more than half the buffer is consumed, the consumed bytes are deleted. */
    method Compact()
      requires readPos <= |buffer| && shifted + readPos <= consumed
      modifies this`buffer, this`readPos, this`shifted
      ensures 2 * readPos <= |buffer| && shifted + readPos <= consumed
      ensures buffer[readPos..] == old(buffer[readPos..])
      ensures (buffer, readPos) ==
              if old(readPos) > |old(buffer)| / 2 then (old(buffer[readPos..]), 0) else old((buffer, readPos))
    {
      if readPos > |buffer| / 2 {
        shifted := shifted + (|buffer| - readPos);
        buffer := buffer[readPos..];
        readPos := 0;
      }
    }

    /** One turn of `_process`, with `_process_1` and the session's `on_message` inlined as the result. */
    method Process() returns (turn: Turn<M>)
      requires Valid() && !stopped && !crashed
      modifies this
      ensures Valid()
      ensures (Look(), turn) == Turned(protocol, old(Look()))
    {
      turn := Quiet;
      var availableBefore := |buffer| - readPos;
      var availableAfter := availableBefore;
      if availableBefore > 0 {
        var r := Deserialize();
        match r {
          case Wait =>
          case Broken =>
            crashed := true;
            return;
          case Frame(n, m) =>
            if protocol.isLogout(m) {
              stopped := true;
              turn := Logout;
            } else if !protocol.isHeartbeat(m) {
              turn := Message(m);
            }
        }
        availableAfter := |buffer| - readPos;
        assert availableAfter == |Look().pending|;
      }
      assert availableBefore == |old(Look()).pending|;
      if drainMode.Some? && !drainMode.value && availableAfter == availableBefore {
        drainMode := Some(true);
      }
    }

    /** `stop`, the session's part of it aside. */
    method Stop()
      requires Valid()
      modifies this`stopped
      ensures Valid() && Look() == old(Look()).(loop := Stopped)
    {
      stopped := true;
    }

    /** Entering `buffer_until_drained`; false is the StateError of a nested call. */
    method StartDrain() returns (ok: bool)
      requires Valid()
      modifies this`drainMode, this`drainBuffer
      ensures Valid() && ok == old(Look()).held.None?
      ensures Look() == if ok then DrainStarted(old(Look())) else old(Look())
    {
      if drainMode.Some? {
        return false;
      }
      drainMode := Some(false);
      drainBuffer := Some([]);
      ok := true;
    }

    /** Leaving `buffer_until_drained`. */
    method EndDrain(discard: bool)
      requires Valid() && Look().held.Some?
      modifies this`drainMode, this`drainBuffer, this`buffer, this`readPos
      ensures Valid() && Look() == DrainEnded(old(Look()), discard)
      ensures !discard ==> Look().Unread() == old(Look().Unread())
      ensures discard ==> Look().held.None? && Look().pending == old(Look().pending)
    {
      drainMode := None;
      if !discard {
        if readPos > 0 {
          buffer := buffer[readPos..];
          readPos := 0;
        }
        buffer := buffer + drainBuffer.value;
      }
      drainBuffer := None;
    }
  }
}
