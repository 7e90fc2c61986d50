/** Small facts about sequence slices used by the loops that walk a list in place. */
module Seqs {

  /** Re-bracketing a concatenation. */
  lemma Regroup<T>(p: seq<T>, a: seq<T>, q: seq<T>, x: seq<T>)
    ensures (p + (a + q)) + x == (p + a) + (q + x)
  {
  }

  lemma Assoc<T>(a: seq<T>, b: seq<T>, c: seq<T>)
    ensures (a + b) + c == a + (b + c)
  {
  }

  /** A non-empty sequence is its prefix followed by its last element. */
  lemma SplitLast<T>(s: seq<T>)
    requires s != []
    ensures s == s[..|s| - 1] + [s[|s| - 1]]
  {
  }

  /** Deleting the element at `i`: what stands before `i` stays, what followed moves down by one. */
  lemma DropAt<T>(s: seq<T>, i: nat)
    requires i < |s|
    ensures var t := s[..i] + s[i + 1..];
      |t| == |s| - 1 && t[..i] == s[..i] && t[i..] == s[i + 1..]
  {
    var t := s[..i] + s[i + 1..];
    assert t[..i] == s[..i];
    assert t[i..] == s[i + 1..];
  }

  /** Stepping past the element at `i`. */
  lemma StepPast<T>(s: seq<T>, i: nat)
    requires i < |s|
    ensures s[..i + 1] == s[..i] + [s[i]]
    ensures s[i + 1..] == s[i..][1..]
  {
  }

  /** A sequence that starts with `a + [x]` starts with `a` and holds `x` right after it. */
  lemma PrefixThen<T>(r: seq<T>, a: seq<T>, x: T)
    requires |a| < |r| && r[..|a| + 1] == a + [x]
    ensures r[..|a|] == a && r[|a|] == x
  {
    assert r[..|a|] == r[..|a| + 1][..|a|];
    assert r[|a|] == r[..|a| + 1][|a|];
  }
}
