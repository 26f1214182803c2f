/** Pigeonhole facts used to bound how many labels, slots or exits there can be. */
module Counting {

  ghost predicate Distinct<T(!new)>(s: seq<T>) {
    forall i, j :: 0 <= i < j < |s| ==> s[i] != s[j]
  }

  ghost function Below(b: nat): (r: set<int>)
    ensures forall x :: x in r <==> 0 <= x < b
    ensures |r| == b
  {
    if b == 0 then {} else Below(b - 1) + {b - 1}
  }

  lemma {:induction false} DistinctCount<T(!new)>(s: seq<T>)
    requires Distinct(s)
    ensures |set x | x in s| == |s|
  {
    if s == [] {
      assert (set x | x in s) == {};
    } else {
      var t := s[..|s| - 1];
      DistinctCount(t);
      assert (set x | x in s) == (set x | x in t) + {s[|s| - 1]};
    }
  }

  lemma {:induction false} SubsetCount<T(!new)>(a: set<T>, b: set<T>)
    requires a <= b
    ensures |a| <= |b|
    ensures |a| == |b| ==> a == b
  {
    if a != {} {
      var x :| x in a;
      SubsetCount(a - {x}, b - {x});
    }
  }

  /** Distinct numbers below b are at most b many. */
  lemma Pigeonhole(s: seq<int>, b: nat)
    requires Distinct(s) && forall i :: 0 <= i < |s| ==> 0 <= s[i] < b
    ensures |s| <= b
  {
    DistinctCount(s);
    SubsetCount((set x | x in s), Below(b));
  }

  /** b distinct numbers below b leave none out. */
  lemma PigeonholeOnto(s: seq<int>, b: nat, v: int)
    requires Distinct(s) && |s| == b && forall i :: 0 <= i < |s| ==> 0 <= s[i] < b
    requires 0 <= v < b
    ensures v in s
  {
    DistinctCount(s);
    var a := set x | x in s;
    SubsetCount(a, Below(b));
    assert v in a;
  }

  ghost function Elems<T>(s: seq<T>): set<T> {
    set x | x in s
  }

  ghost function Sum(s: seq<nat>): nat {
    if s == [] then 0 else Sum(s[..|s| - 1]) + s[|s| - 1]
  }

  lemma {:induction false} SumBump(s: seq<nat>, i: nat)
    requires i < |s|
    ensures Sum(s[i := s[i] + 1]) == Sum(s) + 1
  {
    var t := s[i := s[i] + 1];
    if i == |s| - 1 {
      assert t[..|s| - 1] == s[..|s| - 1];
    } else {
      SumBump(s[..|s| - 1], i);
      assert t[..|s| - 1] == s[..|s| - 1][i := s[i] + 1];
    }
  }

  lemma {:induction false} SumZeros(s: seq<nat>)
    requires forall i :: 0 <= i < |s| ==> s[i] == 0
    ensures Sum(s) == 0
  {
    if s != [] {
      SumZeros(s[..|s| - 1]);
    }
  }

  lemma SumTake(s: seq<nat>, i: nat)
    requires i < |s|
    ensures Sum(s[..i + 1]) == Sum(s[..i]) + s[i]
  {
    assert s[..i + 1][..i] == s[..i];
  }

  lemma {:induction false} SumPrefix(s: seq<nat>, i: nat)
    requires i <= |s|
    ensures Sum(s[..i]) <= Sum(s)
    decreases |s| - i
  {
    if i < |s| {
      SumTake(s, i);
      SumPrefix(s, i + 1);
    } else {
      assert s[..i] == s;
    }
  }
}
