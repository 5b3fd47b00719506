/** Padding and stripping of text fields. */
module Text {
  import opened Bytes

  const SPACE: byte := 32

  /** What `str.strip()` removes, within ASCII. */
  predicate Whitespace(c: byte) { 9 <= c <= 13 || 28 <= c <= 32 }

  function StripLeft(s: Bytes, drop: byte -> bool): Bytes {
    if s != [] && drop(s[0]) then StripLeft(s[1..], drop) else s
  }

  function StripRight(s: Bytes, drop: byte -> bool): Bytes {
    if s != [] && drop(s[|s| - 1]) then StripRight(s[..|s| - 1], drop) else s
  }

  function Strip(s: Bytes, drop: byte -> bool): Bytes {
    StripRight(StripLeft(s, drop), drop)
  }

  function Spaces(n: nat): (r: Bytes)
    ensures |r| == n && forall i :: 0 <= i < n ==> r[i] == SPACE
  {
    if n == 0 then [] else Spaces(n - 1) + [SPACE]
  }

  lemma {:induction false} StripRightSpaces(s: Bytes, n: nat, drop: byte -> bool)
    requires drop(SPACE)
    ensures StripRight(s + Spaces(n), drop) == StripRight(s, drop)
  {
    if n == 0 {
      assert s + Spaces(0) == s;
    } else {
      assert (s + Spaces(n))[..|s| + n - 1] == s + Spaces(n - 1);
      StripRightSpaces(s, n - 1, drop);
    }
  }

  lemma {:induction false} StripSpaces(s: Bytes, n: nat, drop: byte -> bool)
    requires drop(SPACE)
    ensures Strip(s + Spaces(n), drop) == Strip(s, drop)
    decreases |s|
  {
    if s == [] {
      assert s + Spaces(n) == Spaces(n);
      AllDropped(n, drop);
    } else if drop(s[0]) {
      assert (s + Spaces(n))[1..] == s[1..] + Spaces(n);
      StripSpaces(s[1..], n, drop);
    } else {
      StripRightSpaces(s, n, drop);
    }
  }

  lemma {:induction false} AllDropped(n: nat, drop: byte -> bool)
    requires drop(SPACE)
    ensures StripLeft(Spaces(n), drop) == []
  {
    if n > 0 {
      assert Spaces(n)[1..] == Spaces(n - 1);
      AllDropped(n - 1, drop);
    }
  }

  lemma {:induction false} StripShortens(s: Bytes, drop: byte -> bool)
    ensures |StripLeft(s, drop)| <= |s| && |StripRight(s, drop)| <= |s|
  {
    if s != [] {
      StripShortens(s[1..], drop);
      StripShortens(s[..|s| - 1], drop);
    }
  }

  lemma {:induction false} StripNothing(s: Bytes, drop: byte -> bool)
    requires s != [] && !drop(s[0]) && !drop(s[|s| - 1])
    ensures Strip(s, drop) == s
  {
  }

  lemma {:induction false} StripLeftSpaces(n: nat, s: Bytes, drop: byte -> bool)
    requires drop(SPACE)
    ensures StripLeft(Spaces(n) + s, drop) == StripLeft(s, drop)
  {
    if n == 0 {
      assert Spaces(0) + s == s;
    } else {
      assert Spaces(n)[1..] == Spaces(n - 1);
      assert (Spaces(n) + s)[1..] == Spaces(n - 1) + s;
      StripLeftSpaces(n - 1, s, drop);
    }
  }
}
