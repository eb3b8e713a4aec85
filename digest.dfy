/** The pure-Python `compare_digest` used on interpreters older than 2.7.7: a length
    check, then an accumulator that ORs together the XOR of every pair of characters. */
module Digest {

  /** Python's `^` on non-negative integers, bit by bit from the lowest bit. */
  function Xor(x: nat, y: nat): nat
    decreases x + y
  {
    if x == 0 && y == 0 then 0
    else (if x % 2 == y % 2 then 0 else 1) + 2 * Xor(x / 2, y / 2)
  }

  /** Python's `|` on non-negative integers, bit by bit from the lowest bit. */
  function Or(x: nat, y: nat): nat
    decreases x + y
  {
    if x == 0 && y == 0 then 0
    else (if x % 2 == 1 || y % 2 == 1 then 1 else 0) + 2 * Or(x / 2, y / 2)
  }

  lemma {:induction false} XorZero(x: nat, y: nat)
    ensures Xor(x, y) == 0 <==> x == y
    decreases x + y
  {
    if x != 0 || y != 0 {
      XorZero(x / 2, y / 2);
    }
  }

  lemma {:induction false} OrZero(x: nat, y: nat)
    ensures Or(x, y) == 0 <==> x == 0 && y == 0
    decreases x + y
  {
    if x != 0 || y != 0 {
      OrZero(x / 2, y / 2);
    }
  }

  /** Python's `ord`: the code point of a character. */
  function Ord(c: char): nat
  {
    c as int
  }

  /** The value of `result` once the loop has folded in the first `n` pairs. */
  function Accumulated(a: string, b: string, n: nat): nat
    requires n <= |a| && n <= |b|
  {
    if n == 0 then 0
    else Or(Accumulated(a, b, n - 1), Xor(Ord(a[n - 1]), Ord(b[n - 1])))
  }

  /** What `compare_digest(a, b)` returns. */
  predicate Matches(a: string, b: string)
  {
    |a| == |b| && Accumulated(a, b, |a|) == 0
  }

  /** The accumulator is zero exactly when every pair seen so far matched. */
  lemma {:induction false} AccumulatedZero(a: string, b: string, n: nat)
    requires n <= |a| && n <= |b|
    ensures Accumulated(a, b, n) == 0 <==> a[..n] == b[..n]
  {
    if n > 0 {
      AccumulatedZero(a, b, n - 1);
      OrZero(Accumulated(a, b, n - 1), Xor(Ord(a[n - 1]), Ord(b[n - 1])));
      XorZero(Ord(a[n - 1]), Ord(b[n - 1]));
      assert a[..n] == a[..n - 1] + [a[n - 1]];
      assert b[..n] == b[..n - 1] + [b[n - 1]];
      if a[..n] == b[..n] {
        assert a[..n - 1] == a[..n][..n - 1];
        assert b[..n - 1] == b[..n][..n - 1];
        assert a[n - 1] == a[..n][n - 1];
        assert b[n - 1] == b[..n][n - 1];
      }
    }
  }

  /** The constant-time comparison is plain string equality. */
  lemma MatchesIsEquality(a: string, b: string)
    ensures Matches(a, b) <==> a == b
  {
    if |a| == |b| {
      AccumulatedZero(a, b, |a|);
      assert a[..|a|] == a && b[..|b|] == b;
    }
  }

  /** The loop of `compare_digest`. `visited` counts the pairs folded into the
      accumulator: all of them whenever the lengths agree, so the loop never stops
      at the first difference. */
  method CompareDigest(a: string, b: string) returns (equal: bool, ghost visited: nat)
    ensures equal == Matches(a, b)
    ensures equal <==> a == b
    ensures |a| != |b| ==> visited == 0
    ensures |a| == |b| ==> visited == |a|
  {
    visited := 0;
    MatchesIsEquality(a, b);
    if |a| != |b| {
      return false, visited;
    }
    var result: nat := 0;
    for i := 0 to |a|
      invariant result == Accumulated(a, b, i)
      invariant visited == i
    {
      result := Or(result, Xor(Ord(a[i]), Ord(b[i])));
      visited := visited + 1;
    }
    equal := result == 0;
  }
}
