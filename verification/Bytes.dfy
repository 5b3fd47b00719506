/** Byte strings as the library's codecs use them: searching, slicing and decimal numbers. */
module Bytes {

  type byte = b: int | 0 <= b < 256
  type Bytes = seq<byte>

  const SOH: byte := 1
  const PLUS: byte := 43
  const MINUS: byte := 45
  const ZERO: byte := 48
  const EQUALS: byte := 61

  datatype Option<+T> = None | Some(value: T)

  /** Python's `b.find(c, from)` for a single byte: the first position, or -1. */
  function Find(b: Bytes, c: byte, from: nat): (i: int)
    ensures -1 <= i < |b|
    ensures i == -1 ==> forall k :: from <= k < |b| ==> b[k] != c
    ensures i != -1 ==> from <= i && b[i] == c && forall k :: from <= k < i ==> b[k] != c
    decreases |b| - from
  {
    if from >= |b| then -1 else if b[from] == c then from else Find(b, c, from + 1)
  }

  /** Python's `b[i:j]` for non-negative bounds: empty when the bounds cross. */
  function Slice(b: Bytes, i: nat, j: nat): Bytes
    requires j <= |b|
  {
    if i <= j then b[i..j] else []
  }

  /** Python's `b[i:]`. */
  function From(b: Bytes, i: int): Bytes {
    if i >= |b| then [] else if i >= 0 then b[i..] else if |b| + i >= 0 then b[|b| + i..] else b
  }

  lemma {:induction false} FromWithin(b: Bytes, i: nat)
    requires i <= |b|
    ensures From(b, i) == b[i..]
  {
  }

  /** Python's `b[:i]`. */
  function Upto(b: Bytes, i: int): Bytes {
    if i >= |b| then b else if i >= 0 then b[..i] else if |b| + i >= 0 then b[..|b| + i] else []
  }

  predicate Ascii(b: Bytes) {
    forall i :: 0 <= i < |b| ==> b[i] < 128
  }

  predicate IsDigit(c: byte) {
    ZERO <= c <= ZERO + 9
  }

  predicate AllDigits(b: Bytes) {
    forall i :: 0 <= i < |b| ==> IsDigit(b[i])
  }

  /** Python's `str(n)` for n >= 0. */
  function ShowNat(n: nat): (s: Bytes)
    ensures |s| > 0 && AllDigits(s)
  {
    if n < 10 then [ZERO + n] else ShowNat(n / 10) + [ZERO + n % 10]
  }

  function ShowInt(n: int): (s: Bytes)
    ensures |s| > 0
    ensures forall i :: 0 <= i < |s| ==> IsDigit(s[i]) || s[i] == MINUS
  {
    if n < 0 then [MINUS] + ShowNat(-n) else ShowNat(n)
  }

  function DigitsValue(s: Bytes): nat
    requires AllDigits(s)
  {
    if s == [] then 0 else DigitsValue(s[..|s| - 1]) * 10 + (s[|s| - 1] - ZERO)
  }

  /** Python's `int(s)`, restricted to an optional sign and decimal digits. */
  function ParseInt(s: Bytes): Option<int> {
    var signed := |s| > 0 && (s[0] == MINUS || s[0] == PLUS);
    var digits := if signed then s[1..] else s;
    if digits == [] || !AllDigits(digits) then None
    else
      var magnitude: int := DigitsValue(digits);
      Some(if signed && s[0] == MINUS then -magnitude else magnitude)
  }

  lemma {:induction false} ShowNatParses(n: nat)
    ensures DigitsValue(ShowNat(n)) == n
  {
    if n >= 10 {
      var s := ShowNat(n);
      ShowNatParses(n / 10);
      assert s[..|s| - 1] == ShowNat(n / 10);
    }
  }

  lemma {:induction false} ShowIntParses(n: int)
    ensures ParseInt(ShowInt(n)) == Some(n)
  {
    if n < 0 {
      ShowNatParses(-n);
      assert ShowInt(n)[1..] == ShowNat(-n);
    } else {
      ShowNatParses(n);
    }
  }

  lemma {:induction false} FindSplit(x: Bytes, c: byte, y: Bytes)
    requires c !in x
    ensures Find(x + [c] + y, c, 0) == |x|
  {
    var b := x + [c] + y;
    assert b[|x|] == c;
    assert forall k :: 0 <= k < |x| ==> b[k] == x[k];
  }

  lemma {:induction false} Parts<T>(a: seq<T>, b: seq<T>)
    ensures (a + b)[..|a|] == a && (a + b)[|a|..] == b
  {
  }

  lemma {:induction false} Associates<T>(a: seq<T>, b: seq<T>, c: seq<T>)
    ensures a + b + c == a + (b + c)
    ensures a + [] == a && [] + a == a
  {
  }
}
