/** Slices of sequences and of their concatenations. */
module Sequences {

  /** A slice of a part. */
  lemma SubSlice<T>(whole: seq<T>, base: nat, part: seq<T>, from: nat, upto: nat)
    requires base + |part| <= |whole| && whole[base..base + |part|] == part && from <= upto <= |part|
    ensures whole[base + from..base + upto] == part[from..upto]
  {
    var a, b := whole[base + from..base + upto], part[from..upto];
    forall i | 0 <= i < |a| ensures a[i] == b[i] {
      assert a[i] == whole[base..base + |part|][from + i];
    }
  }

  /** Two parts, one after the other. */
  lemma Halves<T>(whole: seq<T>, base: nat, a: seq<T>, b: seq<T>)
    requires base + |a| + |b| <= |whole| && whole[base..base + |a| + |b|] == a + b
    ensures whole[base..base + |a|] == a && whole[base + |a|..base + |a| + |b|] == b
  {
    SubSlice(whole, base, a + b, 0, |a|);
    SubSlice(whole, base, a + b, |a|, |a| + |b|);
    assert (a + b)[..|a|] == a && (a + b)[|a|..] == b;
  }

  /** Two parts in place make up their concatenation. */
  lemma Together<T>(whole: seq<T>, base: nat, a: seq<T>, b: seq<T>)
    requires base + |a| + |b| <= |whole| && whole[base..base + |a|] == a && whole[base + |a|..base + |a| + |b|] == b
    ensures whole[base..base + |a| + |b|] == a + b
  {
    var c := whole[base..base + |a| + |b|];
    assert c == c[..|a|] + c[|a|..];
  }

  /** Four parts. */
  lemma Quarters<T>(whole: seq<T>, base: nat, a: seq<T>, b: seq<T>, c: seq<T>, d: seq<T>)
    requires base + |a| + |b| + |c| + |d| <= |whole| && whole[base..base + |a| + |b| + |c| + |d|] == a + b + c + d
    ensures whole[base..base + |a|] == a && whole[base + |a|..base + |a| + |b|] == b
    ensures whole[base + |a| + |b|..base + |a| + |b| + |c|] == c
    ensures whole[base + |a| + |b| + |c|..base + |a| + |b| + |c| + |d|] == d
  {
    Halves(whole, base, a + b + c, d);
    Halves(whole, base, a + b, c);
    Halves(whole, base, a, b);
  }

  /** A sequence that starts like another one agrees with it up to there. */
  lemma SamePrefix<T>(s: seq<T>, t: seq<T>, n: nat, from: nat, upto: nat)
    requires n <= |s| && n <= |t| && s[..n] == t[..n] && from <= upto <= n
    ensures s[from..upto] == t[from..upto]
  {
    assert s[from..upto] == s[..n][from..upto] && t[from..upto] == t[..n][from..upto];
  }

  /** Concatenation in other brackets. */
  lemma Regroup<T>(a: seq<T>, b: seq<T>, c: seq<T>, d: seq<T>)
    ensures a + b + c + d == a + (b + c + d)
  {
  }
}
