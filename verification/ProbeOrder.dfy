/**
  The order in which open addressing visits the slots of a table: eight slots of
  a bucket starting in its middle, then buckets at triangular distances modulo a
  power of two.
 */
module ProbeOrder {
  import opened Counting
  import opened Arith

  const BUCKET: nat := 8

  /** n slots make a power of two of whole buckets. */
  ghost predicate SlotCount(n: nat) {
    exists k: nat :: n == 8 * Pow2(k)
  }

  /** A number of slots wrapped around the table, which the bit mask slot_count-1 does for a power of two. */
  function Wrap(p: nat, n: nat): (q: nat)
    requires n > 0
    ensures q < n
  {
    p % n
  }

  /** Where round r of the probe sequence for hash h starts. */
  function Pos(h: nat, n: nat, r: nat): (p: nat)
    requires n > 0
    ensures p < n
  {
    if r == 0 then Wrap(h, n) else Wrap(Pos(h, n, r - 1) + BUCKET * r, n)
  }

  lemma BucketFits(p: nat, n: nat)
    requires n % 8 == 0 && p < n
    ensures p - p % 8 + 8 <= n
  {
  }

  /** The t-th slot visited for hash h. */
  function Probe(h: nat, n: nat, t: nat): int
    requires n > 0
  {
    var p := Pos(h, n, t / 8);
    p - p % 8 + (p % 8 + t % 8) % 8
  }

  lemma EightfoldSplit(r: nat, e: nat)
    requires e < 8
    ensures (8 * r + e) / 8 == r && (8 * r + e) % 8 == e
  {
  }

  lemma ProbeAt(h: nat, n: nat, r: nat, e: nat)
    requires n > 0 && e < 8
    ensures var p := Pos(h, n, r); Probe(h, n, 8 * r + e) == p - p % 8 + (p % 8 + e) % 8
  {
    hide Pos;
    EightfoldSplit(r, e);
  }

  /** The first part of a round runs from the starting slot to the end of the bucket, the second from its beginning. */
  lemma ProbeInRound(h: nat, n: nat, r: nat, i: nat)
    requires n > 0 && i < 8
    ensures var p := Pos(h, n, r);
      && (p % 8 <= i ==> Probe(h, n, 8 * r + (i - p % 8)) == p - p % 8 + i)
      && (i < p % 8 ==> Probe(h, n, 8 * r + (8 - p % 8 + i)) == p - p % 8 + i)
  {
    hide Probe, Pos;
    var p := Pos(h, n, r);
    if p % 8 <= i {
      ProbeAt(h, n, r, i - p % 8);
    } else {
      ProbeAt(h, n, r, 8 - p % 8 + i);
    }
  }

  ghost function Triangle(r: nat): nat {
    if r == 0 then 0 else Triangle(r - 1) + r
  }

  lemma {:induction false} TriangleFormula(r: nat)
    ensures 2 * Triangle(r) == r * (r + 1)
  {
    if r > 0 {
      TriangleFormula(r - 1);
      assert r * (r + 1) == (r - 1) * r + 2 * r;
    }
  }

  /** An odd factor plays no part in divisibility by a power of two. */
  lemma {:induction false} OddFactor(m: nat, a: int, b: int, q: int) returns (c: int)
    requires b % 2 == 1 && a * b == q * Pow2(m)
    ensures a == c * Pow2(m)
    decreases m
  {
    if m == 0 {
      c := a;
    } else {
      var P, b' := Pow2(m - 1), b / 2;
      assert b == 2 * b' + 1;
      assert a * b == 2 * (a * b') + a by { assert a * (2 * b' + 1) == 2 * (a * b') + a; }
      assert q * Pow2(m) == 2 * (q * P);
      var a' := q * P - a * b';
      assert a == 2 * a';
      assert a' * b == q * P by { assert a * b == 2 * (a' * b); }
      c := OddFactor(m - 1, a', b, q);
      assert a == c * Pow2(m) by { assert 2 * (c * P) == c * (2 * P); }
    }
  }

  lemma MultipleSize(c: int, p: nat)
    ensures c >= 1 ==> c * p >= p
    ensures c <= -1 ==> c * p <= 0 - p
  {
  }

  lemma NoSmallMultiple(c: int, p: nat, a: int)
    requires a == c * p && 0 <= a < p
    ensures a == 0
  {
    MultipleSize(c, p);
  }

  lemma DifferenceOfTriangles(r: nat, s: nat)
    ensures (r - s) * (r + s + 1) == 2 * (Triangle(r) - Triangle(s))
  {
    TriangleFormula(r);
    TriangleFormula(s);
    hide Triangle;
    assert (r - s) * (r + s + 1) == r * (r + 1) - s * (s + 1);
  }

  /** A product of an odd and an even factor, both below 2^m and not zero, is no multiple of 2^m. */
  lemma NotAMultiple(m: nat, a: int, b: int, q: int)
    requires 0 < a < Pow2(m) && 0 < b < Pow2(m) && a % 2 != b % 2
    ensures a * b != q * Pow2(m)
  {
    hide Pow2;
    if a * b == q * Pow2(m) {
      if b % 2 == 1 {
        var c := OddFactor(m, a, b, q);
        NoSmallMultiple(c, Pow2(m), a);
      } else {
        Commute(a, b);
        var c := OddFactor(m, b, a, q);
        NoSmallMultiple(c, Pow2(m), b);
      }
    }
  }

  lemma Commute(a: int, b: int)
    ensures a * b == b * a
  {
  }

  lemma Twice(k: nat)
    ensures Pow2(k + 1) == 2 * Pow2(k)
  {
  }

  /** Triangular numbers below a power of two leave different remainders. */
  lemma TrianglesDiffer(k: nat, r: nat, s: nat, q: int)
    requires s < r < Pow2(k)
    ensures Triangle(r) - Triangle(s) != q * Pow2(k)
  {
    hide Triangle, Pow2;
    Twice(k);
    DifferenceOfTriangles(r, s);
    Double(q, Pow2(k));
    NotAMultiple(k + 1, r - s, r + s + 1, q);
  }

  lemma DivMod(a: int, n: nat)
    requires n > 0
    ensures a % n == a - (a / n) * n
  {
  }

  lemma Distribute(a: int, b: int, n: int)
    ensures (a + b) * n == a * n + b * n && (a - b) * n == a * n - b * n
  {
  }

  /** Round r starts at the hash plus a triangular number of buckets, up to whole tables. */
  lemma {:induction false} PosForm(h: nat, n: nat, r: nat) returns (q: int)
    requires n > 0
    ensures Pos(h, n, r) == h + 8 * Triangle(r) - q * n
  {
    if r == 0 {
      q := h / n;
      DivMod(h, n);
    } else {
      var q' := PosForm(h, n, r - 1);
      var a := Pos(h, n, r - 1) + 8 * r;
      DivMod(a, n);
      q := q' + a / n;
      Distribute(q', a / n, n);
    }
  }

  lemma SameBucketSamePos(h: nat, b: nat, r: nat, s: nat)
    requires b > 0 && Pos(h, 8 * b, r) / 8 == Pos(h, 8 * b, s) / 8
    ensures exists q :: Triangle(r) - Triangle(s) == q * b
  {
    var n := 8 * b;
    var q := PosForm(h, n, r);
    var q' := PosForm(h, n, s);
    Regroup8(q, b);
    Regroup8(q', b);
    hide Pos, Triangle;
    SameRest(Pos(h, n, r), Pos(h, n, s), h, Triangle(r) - q * b, Triangle(s) - q' * b);
    Distribute(q, q', b);
    assert Triangle(r) - Triangle(s) == (q - q') * b;
  }

  lemma Regroup8(q: int, b: int)
    ensures q * (8 * b) == 8 * (q * b)
  {
  }

  lemma SameRest(p: int, p': int, h: int, x: int, y: int)
    requires p == h + 8 * x && p' == h + 8 * y && p / 8 == p' / 8
    ensures x == y
  {
  }

  /** Every slot of the table comes up within the first n probes. */
  lemma ProbeReaches(h: nat, n: nat, s: nat) returns (t: nat)
    requires SlotCount(n) && s < n
    ensures t < n && Probe(h, n, t) == s
  {
    var k: nat :| n == 8 * Pow2(k);
    var b := Pow2(k);
    hide Pos;
    var buckets := seq(b, r requires 0 <= r < b => Pos(h, n, r) / 8);
    forall r, r' | 0 <= r < r' < b ensures buckets[r] != buckets[r'] {
      if Pos(h, n, r') / 8 == Pos(h, n, r) / 8 {
        SameBucketSamePos(h, b, r', r);
        var q :| Triangle(r') - Triangle(r) == q * b;
        TrianglesDiffer(k, r', r, q);
      }
    }
    PigeonholeOnto(buckets, b, s / 8);
    var r :| 0 <= r < |buckets| && buckets[r] == s / 8;
    t := FromBucket(h, n, r, s);
  }

  lemma FromBucket(h: nat, n: nat, r: nat, s: nat) returns (t: nat)
    requires n > 0 && Pos(h, n, r) / 8 == s / 8
    ensures t / 8 == r && Probe(h, n, t) == s
  {
    hide Pos, Probe;
    ProbeInRound(h, n, r, s % 8);
    var p := Pos(h, n, r);
    t := if p % 8 <= s % 8 then 8 * r + (s % 8 - p % 8) else 8 * r + (8 - p % 8 + s % 8);
    EightfoldSplit(r, if p % 8 <= s % 8 then s % 8 - p % 8 else 8 - p % 8 + s % 8);
  }
}
