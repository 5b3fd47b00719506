/** Fixed-width integers (common/message/types.py): size, signedness and byte order. */
module BinaryInt {
  import opened Bytes

  datatype IntType = IntType(size: nat, signed: bool, bigEndian: bool)

  /** Short, the length prefix of strings and, unless told otherwise, of arrays. */
  const SHORT := IntType(2, true, false)

  function Pow256(k: nat): (r: nat)
    ensures r > 0 && (k > 0 ==> r % 2 == 0)
  {
    if k == 0 then 1 else 256 * Pow256(k - 1)
  }

  predicate InRange(t: IntType, n: int) {
    if t.signed then 0 <= 2 * n + Pow256(t.size) < 2 * Pow256(t.size) else 0 <= n < Pow256(t.size)
  }

  function Little(n: nat, k: nat): (r: Bytes)
    ensures |r| == k
  {
    if k == 0 then [] else [n % 256] + Little(n / 256, k - 1)
  }

  function FromLittle(b: Bytes): (n: nat)
    ensures n < Pow256(|b|)
  {
    if b == [] then 0 else 256 * FromLittle(b[1..]) + b[0]
  }

  function Reverse(b: Bytes): (r: Bytes)
    ensures |r| == |b| && forall i :: 0 <= i < |b| ==> r[i] == b[|b| - 1 - i]
  {
    if b == [] then [] else Reverse(b[1..]) + [b[0]]
  }

  function First(b: Bytes, n: nat): Bytes {
    if n <= |b| then b[..n] else b
  }

  /** `n.to_bytes(size, order, signed=...)`, or None for the OverflowError. */
  function PackInt(t: IntType, n: int): (r: Option<Bytes>)
    ensures r.Some? <==> InRange(t, n)
    ensures r.Some? ==> |r.value| == t.size
  {
    if !InRange(t, n) then None
    else
      var b := Little(if n < 0 then n + Pow256(t.size) else n, t.size);
      Some(if t.bigEndian then Reverse(b) else b)
  }

  /** `int.from_bytes(b[:size], order, signed=...)`: a shorter input is read as a shorter integer. */
  function UnpackInt(t: IntType, b: Bytes): int {
    var c := First(b, t.size);
    var u := FromLittle(if t.bigEndian then Reverse(c) else c);
    if t.signed && c != [] && 2 * u >= Pow256(|c|) then u - Pow256(|c|) else u
  }

  lemma {:induction false} LittleThrough(n: nat, k: nat)
    requires n < Pow256(k)
    ensures FromLittle(Little(n, k)) == n
  {
    if k > 0 {
      LittleThrough(n / 256, k - 1);
      assert Little(n, k)[1..] == Little(n / 256, k - 1);
    }
  }

  /** An integer in range comes back, whatever follows it. */
  lemma {:induction false} IntThrough(t: IntType, n: int, rest: Bytes)
    requires InRange(t, n)
    ensures UnpackInt(t, PackInt(t, n).value + rest) == n
  {
    hide Pow256, Little, FromLittle, Reverse;
    if t.size == 0 { NoBytes(); }
    var u := if n < 0 then n + Pow256(t.size) else n;
    var b := PackInt(t, n).value;
    assert First(b + rest, t.size) == b;
    assert Reverse(Reverse(Little(u, t.size))) == Little(u, t.size);
    LittleThrough(u, t.size);
  }

  lemma {:induction false} NoBytes()
    ensures Pow256(0) == 1
  {
  }
}
