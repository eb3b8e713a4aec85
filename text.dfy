/** String helpers for the two places where the handler cuts a string at a character:
    the `.*` of the branch pattern stops at the first newline, and
    `str.split('=')[1]` keeps what lies between the first and the second `=`. */
module Text {
  import opened Wrappers

  /** The longest prefix of `s` in which `c` does not occur. */
  function TakeUntil(s: string, c: char): (r: string)
    ensures r <= s
    ensures c !in r
    ensures |r| == |s| || s[|r|] == c
  {
    if s == [] || s[0] == c then [] else [s[0]] + TakeUntil(s[1..], c)
  }

  /** The position of the first `c` in `s`, or None when `s` has none. */
  function FirstIndex(s: string, c: char): (r: Option<nat>)
    ensures r.Some? <==> c in s
    ensures r.Some? ==> r.value < |s| && s[r.value] == c && c !in s[..r.value]
  {
    if s == [] then None
    else if s[0] == c then Some(0)
    else match FirstIndex(s[1..], c)
      case None => None
      case Some(i) => Some(i + 1)
  }

  /** A string free of `c` is its own longest `c`-free prefix. */
  lemma TakeUntilWhole(s: string, c: char)
    requires c !in s
    ensures TakeUntil(s, c) == s
  {
  }

  /** Cutting `p + s` at `c` stops inside `s` when `p` holds no `c`. */
  lemma TakeUntilAfter(p: string, s: string, c: char)
    requires c !in p
    ensures TakeUntil(p + s, c) == p + TakeUntil(s, c)
    decreases |p|
  {
    if p == [] {
      assert p + s == s;
    } else {
      assert p[0] in p;
      assert (p + s)[0] == p[0];
      assert (p + s)[1..] == p[1..] + s;
      TakeUntilAfter(p[1..], s, c);
      assert [p[0]] + (p[1..] + TakeUntil(s, c)) == p + TakeUntil(s, c);
    }
  }
}
