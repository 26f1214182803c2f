/** Powers of two and a little multiplication and division. */
module Arith {

  function Pow2(k: nat): (p: nat)
    ensures p >= 1
  {
    if k == 0 then 1 else 2 * Pow2(k - 1)
  }

  function Abs(x: int): nat {
    if x < 0 then 0 - x else x
  }

  lemma {:induction false} Pow2Add(a: nat, b: nat)
    ensures Pow2(a + b) == Pow2(a) * Pow2(b)
  {
    if a > 0 {
      Pow2Add(a - 1, b);
      assert Pow2(a) * Pow2(b) == 2 * (Pow2(a - 1) * Pow2(b));
    }
  }

  lemma {:induction false} Pow2Monotone(a: nat, b: nat)
    requires a <= b
    ensures Pow2(a) <= Pow2(b)
    decreases b
  {
    if a < b {
      Pow2Monotone(a, b - 1);
    }
  }

  lemma MulGap(a: int, m: int, h: nat)
    requires a < m
    ensures a * h + h <= m * h
  {
    assert (m - a - 1) * h >= 0;
  }

  lemma Double(c: int, p: int)
    ensures c * (2 * p) == 2 * (c * p)
  {
  }

  lemma Quotient(v: nat, d: nat, q: nat, r: nat)
    requires d > 0 && v == q * d + r && r < d
    ensures v / d == q && v % d == r
  {
    var q', r' := v / d, v % d;
    assert v == q' * d + r';
    if q' < q {
      MulGap(q', q, d);
    } else if q' > q {
      MulGap(q, q', d);
    }
  }

  lemma DivTwice(v: nat, p: nat)
    requires p > 0
    ensures v / 2 / p == v / (2 * p)
  {
    var q := v / 2 / p;
    var r := v / 2 % p;
    assert v / 2 == q * p + r;
    assert v == q * (2 * p) + (2 * r + v % 2) by { Double(q, p); }
    Quotient(v, 2 * p, q, 2 * r + v % 2);
  }

  /** Positions in a table of m rows of h columns. */
  lemma RowMajor(a: int, b: int, c: int, d: int, h: int, m: int)
    requires 0 <= b < h && 0 <= d < h && 0 <= a < m
    ensures 0 <= a * h + b < m * h
    ensures a * h + b == c * h + d ==> a == c && b == d
  {
    assert a * h >= 0;
    MulGap(a, m, h);
    if a < c {
      MulGap(a, c, h);
    } else if c < a {
      MulGap(c, a, h);
    }
  }
}
