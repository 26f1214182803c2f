/**
 * The three division pairs of libs/stb/stb_divide.h, over any built-in division that
 * satisfies that file's two assumptions. The type int32 makes every intermediate result fit.
 */
module Divide {
  import opened Arith

  newtype int32 = x: int | -0x8000_0000 <= x <= 0x7fff_ffff

  const INT_MIN: int32 := -0x8000_0000

  /** A platform's / and % operators. */
  datatype Platform = Platform(div: (int32, int32) -> int32, mod: (int32, int32) -> int32)

  /** Pairs that can be divided at all. */
  predicate Divisible(a: int32, b: int32) {
    b != 0 && !(a == INT_MIN && b == -1)
  }

  /** r is the remainder for quotient q, smaller than b. */
  ghost predicate Division(a: int, b: int, q: int, r: int) {
    q * b + r == a && Abs(r) < Abs(b)
  }

  /** Assumption (a): % is the remainder of /. Assumption (b): equal signs truncate. */
  ghost predicate Meets(p: Platform) {
    forall a: int32, b: int32 {:trigger p.div(a, b)} {:trigger p.mod(a, b)} :: Divisible(a, b) ==>
      Division(a as int, b as int, p.div(a, b) as int, p.mod(a, b) as int) &&
      ((a >= 0 && b > 0) || (a <= 0 && b < 0) ==> (a >= 0 ==> p.mod(a, b) >= 0) && (a <= 0 ==> p.mod(a, b) <= 0))
  }

  // ---------------------------------------------------------------- platforms that meet the assumptions

  function TruncatingDiv(a: int32, b: int32): int32 {
    if !Divisible(a, b) then 0
    else
      TruncatingFits(a as int, b as int);
      var q := Abs(a as int) / Abs(b as int);
      (if (a >= 0) == (b > 0) then q else 0 - q) as int32
  }

  function TruncatingMod(a: int32, b: int32): int32 {
    if b == 0 then 0
    else
      var r := Abs(a as int) % Abs(b as int);
      (if a >= 0 then r else 0 - r) as int32
  }

  function FlooringDiv(a: int32, b: int32): int32 {
    if !Divisible(a, b) then 0
    else
      FlooringFits(a as int, b as int);
      (if b > 0 then a as int / b as int else (0 - a as int) / (0 - b as int)) as int32
  }

  function FlooringMod(a: int32, b: int32): int32 {
    if b == 0 then 0
    else if b > 0 then (a as int % b as int) as int32
    else (0 - (0 - a as int) % (0 - b as int)) as int32
  }

  lemma TruncatingFits(a: int, b: int)
    requires -0x8000_0000 <= a <= 0x7fff_ffff && b != 0 && !(a == -0x8000_0000 && b == -1)
    ensures 0 <= Abs(a) / Abs(b) <= 0x8000_0000 && (Abs(a) / Abs(b) == 0x8000_0000 ==> a < 0 < b)
  {
    QuotientNear(Abs(a), Abs(b), Abs(a) / Abs(b), Abs(a) % Abs(b));
  }

  lemma FlooringFits(a: int, b: int)
    requires -0x8000_0000 <= a <= 0x7fff_ffff && b != 0 && !(a == -0x8000_0000 && b == -1)
    ensures b > 0 ==> -0x8000_0000 <= a / b <= 0x7fff_ffff
    ensures b < 0 ==> -0x8000_0000 <= (0 - a) / (0 - b) <= 0x7fff_ffff
  {
    if b > 0 {
      QuotientNear(a, b, a / b, a % b);
    } else {
      QuotientNear(0 - a, 0 - b, (0 - a) / (0 - b), (0 - a) % (0 - b));
    }
  }

  /** Quotients are no larger than what is divided, and at most half of it for larger divisors. */
  lemma QuotientNear(a: int, m: int, q: int, r: int)
    requires m > 0 && a == m * q + r && 0 <= r < m
    ensures a >= 0 ==> 0 <= q <= a && (m > 1 ==> 2 * q <= a)
    ensures a < 0 ==> a <= q < 0
  {
    if q > 0 {
      Product(q, m);
      Product(q, m - 1);
    } else if q < 0 {
      Product(0 - q, m);
      assert m * q == 0 - (0 - q) * m;
    }
  }

  lemma Product(p: int, m: int)
    requires p >= 1 && m >= 0
    ensures m >= 1 ==> p * m >= p + m - 1
    ensures p * (m + 1) == p * m + p
  {
    if m >= 1 {
      assert (p - 1) * (m - 1) >= 0;
    }
  }

  lemma SignedQuotient(a: int, b: int, q: int, r: int)
    requires Abs(a) == Abs(b) * q + r && 0 <= r < Abs(b)
    ensures Division(a, b, if (a >= 0) == (b > 0) then q else 0 - q, if a >= 0 then r else 0 - r)
  {
    assert b * q == 0 - (0 - b) * q && b * q == 0 - (0 - q) * b;
  }

  lemma TruncatingValues(a: int32, b: int32, q: int, r: int)
    requires Divisible(a, b) && q == Abs(a as int) / Abs(b as int) && r == Abs(a as int) % Abs(b as int)
    ensures TruncatingDiv(a, b) as int == if (a >= 0) == (b > 0) then q else 0 - q
    ensures TruncatingMod(a, b) as int == if a >= 0 then r else 0 - r
  {
    TruncatingFits(a as int, b as int);
  }

  lemma TruncatingPair(a: int32, b: int32)
    requires Divisible(a, b)
    ensures Division(a as int, b as int, TruncatingDiv(a, b) as int, TruncatingMod(a, b) as int)
    ensures (a >= 0 ==> TruncatingMod(a, b) >= 0) && (a <= 0 ==> TruncatingMod(a, b) <= 0)
  {
    hide TruncatingDiv, TruncatingMod, Division;
    var q, r := DivMod(Abs(a as int), Abs(b as int));
    TruncatingValues(a, b, q, r);
    SignedQuotient(a as int, b as int, q, r);
  }

  lemma DivMod(n: nat, m: nat) returns (q: int, r: int)
    requires m > 0
    ensures q == n / m && r == n % m && n == m * q + r && 0 <= r < m && (n == 0 ==> r == 0)
  {
    q, r := n / m, n % m;
    if n < m {
      assert n == m * 0 + n;
    }
  }

  /** A division that rounds towards zero, as C99 has it, meets the assumptions. */
  lemma TruncatingMeets()
    ensures Meets(Platform(TruncatingDiv, TruncatingMod))
  {
    forall a: int32, b: int32 | Divisible(a, b)
      ensures Division(a as int, b as int, TruncatingDiv(a, b) as int, TruncatingMod(a, b) as int)
      ensures (a >= 0 ==> TruncatingMod(a, b) >= 0) && (a <= 0 ==> TruncatingMod(a, b) <= 0)
    {
      TruncatingPair(a, b);
    }
    hide TruncatingDiv, TruncatingMod, Division;
  }

  lemma FlooringPair(a: int32, b: int32)
    requires Divisible(a, b)
    ensures Division(a as int, b as int, FlooringDiv(a, b) as int, FlooringMod(a, b) as int)
    ensures (b > 0 ==> FlooringMod(a, b) >= 0) && (b < 0 ==> FlooringMod(a, b) <= 0)
  {
    FlooringFits(a as int, b as int);
    if b < 0 {
      var q, r := (0 - a as int) / (0 - b as int), (0 - a as int) % (0 - b as int);
      assert q * (b as int) == 0 - (0 - b as int) * q;
    }
  }

  /** One that rounds down meets them as well. */
  lemma FlooringMeets()
    ensures Meets(Platform(FlooringDiv, FlooringMod))
  {
    forall a: int32, b: int32 | Divisible(a, b)
      ensures Division(a as int, b as int, FlooringDiv(a, b) as int, FlooringMod(a, b) as int)
      ensures (b > 0 ==> FlooringMod(a, b) >= 0) && (b < 0 ==> FlooringMod(a, b) <= 0)
    {
      FlooringPair(a, b);
    }
    forall a: int32, b: int32 | a == 0 && Divisible(a, b) ensures FlooringMod(a, b) == 0 {
    }
    hide FlooringDiv, FlooringMod, Division;
  }

  // ---------------------------------------------------------------- what the pairs stand for

  /** Rounds towards zero: the remainder has the sign of a. */
  ghost predicate Truncates(a: int, b: int, q: int, r: int) {
    Division(a, b, q, r) && (a >= 0 ==> r >= 0) && (a <= 0 ==> r <= 0)
  }

  /** Rounds down: the remainder has the sign of b. */
  ghost predicate Floors(a: int, b: int, q: int, r: int) {
    Division(a, b, q, r) && (b > 0 ==> r >= 0) && (b < 0 ==> r <= 0)
  }

  /** Euclidean: the remainder is never negative. */
  ghost predicate Euclidean(a: int, b: int, q: int, r: int) {
    Division(a, b, q, r) && r >= 0
  }

  /** The remainders of two divisions that agree in sign are equal, and so are the quotients. */
  lemma Unique(a: int, b: int, q: int, r: int, q': int, r': int)
    requires Division(a, b, q, r) && Division(a, b, q', r') && Abs(r - r') < Abs(b)
    ensures q == q' && r == r'
  {
    Gap(q - q', b);
    assert (q - q') * b == r' - r;
  }

  lemma Gap(d: int, b: int)
    ensures d != 0 ==> Abs(d * b) >= Abs(b)
  {
    if d > 0 {
      Larger(d, b);
    } else if d < 0 {
      Larger(0 - d, b);
      assert d * b == 0 - (0 - d) * b;
    }
  }

  lemma Larger(d: int, b: int)
    requires d > 0
    ensures Abs(d * b) >= Abs(b)
  {
    if b >= 0 {
      assert d * b >= b;
    } else {
      assert d * b <= b;
    }
  }

  /** What the platform computes for operands of the same sign. */
  lemma SameSign(p: Platform, a: int32, b: int32)
    requires Meets(p) && Divisible(a, b) && ((a >= 0 && b > 0) || (a <= 0 && b < 0))
    ensures var q, r := p.div(a, b) as int, p.mod(a, b) as int;
            Truncates(a as int, b as int, q, r) && 0 <= q <= Abs(a as int)
  {
    var q, r := p.div(a, b) as int, p.mod(a, b) as int;
    assert Division(a as int, b as int, q, r);
    QuotientRange(a as int, b as int, q, r);
  }

  lemma QuotientRange(a: int, b: int, q: int, r: int)
    requires Truncates(a, b, q, r) && ((a >= 0 && b > 0) || (a <= 0 && b < 0))
    ensures 0 <= q <= Abs(a)
  {
    Gap(q, b);
    Gap(b, q);
  }

  lemma FlipDividend(a: int, b: int, q: int, r: int)
    requires Division(a, b, q, r)
    ensures Division(0 - a, b, 0 - q, 0 - r)
  {
    assert (0 - q) * b == 0 - q * b;
  }

  lemma FlipDivisor(a: int, b: int, q: int, r: int)
    requires Division(a, b, q, r)
    ensures Division(a, 0 - b, 0 - q, r)
  {
    assert (0 - q) * (0 - b) == q * b;
  }

  /** Moving the dividend by the divisor moves the quotient by one. */
  lemma Shift(a: int, b: int, q: int, r: int, k: int)
    requires Division(a, b, q, r)
    ensures Division(a + k * b, b, q + k, r)
  {
    assert (q + k) * b == q * b + k * b;
  }

  /** Moving the remainder by the divisor moves the quotient by one the other way. */
  lemma Carry(a: int, b: int, q: int, r: int, k: int)
    requires q * b + r == a
    ensures (q + k) * b + (r - k * b) == a
  {
    assert (q + k) * b == q * b + k * b;
  }

  /** Minus the absolute value, which always fits. */
  function NegAbs(v: int32): int32 {
    if v < 0 then v else -v
  }

  // ---------------------------------------------------------------- truncating

  function DivTrunc(p: Platform, v1: int32, v2: int32): int32
    requires Meets(p) && Divisible(v1, v2)
  {
    if v1 >= 0 && v2 <= 0 then
      SameSign(p, -v1, v2);
      -p.div(-v1, v2)
    else if v1 <= 0 && v2 >= 0 then
      if v1 != INT_MIN then
        SameSign(p, v1, -v2);
        -p.div(v1, -v2)
      else
        SameSign(p, v1 + v2, -v2);
        -p.div(v1 + v2, -v2) - 1
    else
      p.div(v1, v2)
  }

  function ModTrunc(p: Platform, v1: int32, v2: int32): int32
    requires Meets(p) && Divisible(v1, v2)
  {
    var r := p.mod(v1, v2);
    assert Division(v1 as int, v2 as int, p.div(v1, v2) as int, r as int);
    if v1 >= 0 then
      if r >= 0 then r else r - NegAbs(v2)
    else
      if r <= 0 then r else r + NegAbs(v2)
  }

  /** Quotient and remainder of the truncating pair belong together and have the sign promised. */
  lemma TruncPair(p: Platform, v1: int32, v2: int32)
    requires Meets(p) && Divisible(v1, v2)
    ensures Truncates(v1 as int, v2 as int, DivTrunc(p, v1, v2) as int, ModTrunc(p, v1, v2) as int)
  {
    var r := TruncQuotient(p, v1, v2);
    var q := TruncRemainder(p, v1, v2);
    Unique(v1 as int, v2 as int, DivTrunc(p, v1, v2) as int, r, q, ModTrunc(p, v1, v2) as int);
  }

  lemma TruncQuotient(p: Platform, v1: int32, v2: int32) returns (r: int)
    requires Meets(p) && Divisible(v1, v2)
    ensures Truncates(v1 as int, v2 as int, DivTrunc(p, v1, v2) as int, r)
  {
    hide Meets, Division;
    var a, b := v1 as int, v2 as int;
    if v1 >= 0 && v2 < 0 {
      SameSign(p, -v1, v2);
      r := 0 - p.mod(-v1, v2) as int;
      FlipDividend(0 - a, b, p.div(-v1, v2) as int, 0 - r);
    } else if v1 <= 0 && v2 > 0 {
      var n := if v1 != INT_MIN then v1 else v1 + v2;
      SameSign(p, n, -v2);
      r := p.mod(n, -v2) as int;
      FlipDivisor(n as int, 0 - b, p.div(n, -v2) as int, r);
      if v1 == INT_MIN {
        Shift(a + b, b, 0 - p.div(n, -v2) as int, r, -1);
      }
    } else {
      SameSign(p, v1, v2);
      r := p.mod(v1, v2) as int;
    }
  }

  lemma TruncRemainder(p: Platform, v1: int32, v2: int32) returns (q: int)
    requires Meets(p) && Divisible(v1, v2)
    ensures Truncates(v1 as int, v2 as int, q, ModTrunc(p, v1, v2) as int)
  {
    var a, b, r := v1 as int, v2 as int, p.mod(v1, v2) as int;
    q := p.div(v1, v2) as int;
    assert Division(a, b, q, r);
    var k := if v1 >= 0 && r < 0 then (if b < 0 then 1 else -1) else if v1 < 0 && r > 0 then (if b < 0 then -1 else 1)
        else 0;
    Carry(a, b, q, r, k);
    q := q + k;
  }

  // ---------------------------------------------------------------- rounding down

  function DivFloor(p: Platform, v1: int32, v2: int32): int32
    requires Meets(p) && Divisible(v1, v2)
  {
    if v1 >= 0 && v2 < 0 then
      if v2 + 1 >= INT_MIN + v1 then
        SameSign(p, v2 + 1 - v1, v2);
        -p.div(v2 + 1 - v1, v2)
      else
        SameSign(p, -v1, v2);
        -p.div(-v1, v2) + (if p.mod(-v1, v2) != 0 then -1 else 0)
    else if v1 < 0 && v2 >= 0 then
      if v1 != INT_MIN then
        if v1 + 1 >= INT_MIN + v2 then
          SameSign(p, v1 + 1 - v2, -v2);
          -p.div(v1 + 1 - v2, -v2)
        else
          SameSign(p, -v1, v2);
          -p.div(-v1, v2) + (if p.mod(v1, -v2) != 0 then -1 else 0)
      else
        SameSign(p, -(v1 + v2), v2);
        QuotientSmall(p, v1, v2);
        -p.div(-(v1 + v2), v2) + (if p.mod(-(v1 + v2), v2) != 0 then -2 else -1)
    else
      p.div(v1, v2)
  }

  /** The quotient of INT_MIN moved by a divisor leaves room for two more, unless the divisor is 1. */
  lemma QuotientSmall(p: Platform, v1: int32, v2: int32)
    requires Meets(p) && v1 == INT_MIN && v2 > 0
    ensures p.mod(-(v1 + v2), v2) != 0 ==> p.div(-(v1 + v2), v2) as int <= 0x4000_0000
  {
    var n := -(v1 + v2);
    SameSign(p, n, v2);
    if v2 >= 2 {
      HalfAtMost(n as int, v2 as int, p.div(n, v2) as int, p.mod(n, v2) as int);
    }
  }

  lemma HalfAtMost(a: int, b: int, q: int, r: int)
    requires Truncates(a, b, q, r) && a >= 0 && b >= 2 && q >= 0
    ensures 2 * q <= a
  {
    assert q * (b - 2) >= 0;
    assert q * b == q * (b - 2) + 2 * q;
  }

  function ModFloor(p: Platform, v1: int32, v2: int32): int32
    requires Meets(p) && Divisible(v1, v2)
  {
    var r := p.mod(v1, v2);
    assert Division(v1 as int, v2 as int, p.div(v1, v2) as int, r as int);
    if v2 >= 0 then
      if r >= 0 then r else r + v2
    else
      if r <= 0 then r else r + v2
  }

  /** Quotient and remainder of the flooring pair belong together and have the sign promised. */
  lemma FloorPair(p: Platform, v1: int32, v2: int32)
    requires Meets(p) && Divisible(v1, v2)
    ensures Floors(v1 as int, v2 as int, DivFloor(p, v1, v2) as int, ModFloor(p, v1, v2) as int)
  {
    var r := FloorQuotient(p, v1, v2);
    var q := FloorRemainder(p, v1, v2);
    Unique(v1 as int, v2 as int, DivFloor(p, v1, v2) as int, r, q, ModFloor(p, v1, v2) as int);
  }

  lemma FloorRemainder(p: Platform, v1: int32, v2: int32) returns (q: int)
    requires Meets(p) && Divisible(v1, v2)
    ensures Floors(v1 as int, v2 as int, q, ModFloor(p, v1, v2) as int)
  {
    var a, b, r := v1 as int, v2 as int, p.mod(v1, v2) as int;
    q := p.div(v1, v2) as int;
    assert Division(a, b, q, r);
    var k := if (b > 0 && r < 0) || (b < 0 && r > 0) then -1 else 0;
    Carry(a, b, q, r, k);
    q := q + k;
  }

  /** With the dividend made larger by one less than the divisor, truncating rounds away from zero. */
  lemma Enlarged(a: int, b: int, q: int, r: int) returns (r': int)
    requires a >= 0 && b < 0 && Truncates(b + 1 - a, b, q, r)
    ensures Floors(a, b, 0 - q, r')
  {
    r' := b + 1 - r;
    assert (0 - q) * b == 0 - q * b;
  }

  /** Truncating with the sign of the dividend changed, and rounded away from zero if anything remains. */
  lemma RoundDown(a: int, b: int, q: int, r: int) returns (r': int)
    requires Truncates(0 - a, b, q, r) && ((a >= 0 && b < 0) || (a < 0 && b > 0))
    ensures Floors(a, b, if r != 0 then 0 - q - 1 else 0 - q, r')
  {
    r' := if r != 0 then b - r else 0;
    assert (0 - q) * b == 0 - q * b && (0 - q - 1) * b == 0 - q * b - b;
  }

  /** Changing both signs changes only the sign of the remainder. */
  lemma Both(a: int, b: int, q: int, r: int)
    requires Division(a, b, q, r)
    ensures Division(0 - a, 0 - b, q, 0 - r)
  {
    assert q * (0 - b) == 0 - q * b;
  }

  lemma SameZero(p: Platform, v1: int32, v2: int32)
    requires Meets(p) && INT_MIN < v1 < 0 && v2 > 0
    ensures p.mod(v1, -v2) != 0 <==> p.mod(-v1, v2) != 0
  {
    hide Meets;
    SameSign(p, -v1, v2);
    SameSign(p, v1, -v2);
    var a, b, q, r := v1 as int, -v2 as int, p.div(-v1, v2) as int, p.mod(-v1, v2) as int;
    Both(0 - a, 0 - b, q, r);
    Unique(a, b, q, 0 - r, p.div(v1, -v2) as int, p.mod(v1, -v2) as int);
  }

  lemma FloorQuotient(p: Platform, v1: int32, v2: int32) returns (r: int)
    requires Meets(p) && Divisible(v1, v2)
    ensures Floors(v1 as int, v2 as int, DivFloor(p, v1, v2) as int, r)
  {
    hide Meets, Division;
    if v1 >= 0 && v2 < 0 {
      r := FloorByNegative(p, v1, v2);
    } else if v1 < 0 && v2 > 0 {
      if v1 != INT_MIN {
        r := FloorOfNegative(p, v1, v2);
      } else {
        r := FloorOfMin(p, v2);
      }
    } else {
      SameSign(p, v1, v2);
      r := p.mod(v1, v2) as int;
    }
  }

  lemma FloorByNegative(p: Platform, v1: int32, v2: int32) returns (r: int)
    requires Meets(p) && v1 >= 0 && v2 < 0
    ensures Floors(v1 as int, v2 as int, DivFloor(p, v1, v2) as int, r)
  {
    hide Meets, Division;
    var a, b := v1 as int, v2 as int;
    if v2 + 1 >= INT_MIN + v1 {
      SameSign(p, v2 + 1 - v1, v2);
      r := Enlarged(a, b, p.div(v2 + 1 - v1, v2) as int, p.mod(v2 + 1 - v1, v2) as int);
    } else {
      SameSign(p, -v1, v2);
      r := RoundDown(a, b, p.div(-v1, v2) as int, p.mod(-v1, v2) as int);
    }
  }

  lemma FloorOfNegative(p: Platform, v1: int32, v2: int32) returns (r: int)
    requires Meets(p) && INT_MIN < v1 < 0 && v2 > 0
    ensures Floors(v1 as int, v2 as int, DivFloor(p, v1, v2) as int, r)
  {
    hide Meets, Floors;
    if v1 + 1 >= INT_MIN + v2 {
      r := FloorShifted(p, v1, v2);
    } else {
      r := FloorNegated(p, v1, v2);
    }
  }

  lemma FloorShifted(p: Platform, v1: int32, v2: int32) returns (r: int)
    requires Meets(p) && INT_MIN < v1 < 0 && v2 > 0 && v1 + 1 >= INT_MIN + v2
    ensures Floors(v1 as int, v2 as int, DivFloor(p, v1, v2) as int, r)
  {
    hide Meets, Division;
    var a, b := v1 as int, v2 as int;
    SameSign(p, v1 + 1 - v2, -v2);
    var q := p.div(v1 + 1 - v2, -v2) as int;
    var r' := Enlarged(0 - a, 0 - b, q, p.mod(v1 + 1 - v2, -v2) as int);
    r := 0 - r';
    Both(0 - a, 0 - b, 0 - q, r');
  }

  lemma FloorNegated(p: Platform, v1: int32, v2: int32) returns (r: int)
    requires Meets(p) && INT_MIN < v1 < 0 && v2 > 0 && v1 + 1 < INT_MIN + v2
    ensures Floors(v1 as int, v2 as int, DivFloor(p, v1, v2) as int, r)
  {
    hide Meets, Division;
    SameSign(p, -v1, v2);
    SameZero(p, v1, v2);
    r := RoundDown(v1 as int, v2 as int, p.div(-v1, v2) as int, p.mod(-v1, v2) as int);
  }

  lemma FloorOfMin(p: Platform, v2: int32) returns (r: int)
    requires Meets(p) && v2 > 0
    ensures Floors(INT_MIN as int, v2 as int, DivFloor(p, INT_MIN, v2) as int, r)
  {
    hide Meets, Division;
    var a, b, n := INT_MIN as int, v2 as int, -(INT_MIN + v2);
    SameSign(p, n, v2);
    var q := p.div(n, v2) as int;
    r := RoundDown(a + b, b, q, p.mod(n, v2) as int);
    Shift(a + b, b, if p.mod(n, v2) != 0 then 0 - q - 1 else 0 - q, r, -1);
  }

  // ---------------------------------------------------------------- Euclidean

  /** The quotient before the sign of the remainder is looked at, and the remainder. */
  function Quadrant(p: Platform, v1: int32, v2: int32): (int32, int32)
    requires Meets(p) && Divisible(v1, v2)
  {
    if v1 >= 0 then
      if v2 >= 0 then
        SameSign(p, v1, v2);
        (p.div(v1, v2), p.mod(v1, v2))
      else if v2 != INT_MIN then
        SameSign(p, v1, -v2);
        (-p.div(v1, -v2), p.mod(v1, -v2))
      else (0, v1)
    else if v1 != INT_MIN then
      if v2 >= 0 then
        SameSign(p, -v1, v2);
        (-p.div(-v1, v2), -p.mod(-v1, v2))
      else if v2 != INT_MIN then
        SameSign(p, -v1, -v2);
        (p.div(-v1, -v2), -p.mod(-v1, -v2))
      else (1, v1 - v2)
    else
      if v2 >= 0 then
        SameSign(p, -(v1 + v2), v2);
        (-p.div(-(v1 + v2), v2) - 1, -p.mod(-(v1 + v2), v2))
      else if v2 != INT_MIN then
        SameSign(p, -(v1 - v2), -v2);
        QuotientOfMin(p, v2);
        (p.div(-(v1 - v2), -v2) + 1, -p.mod(-(v1 - v2), -v2))
      else (1, 0)
  }

  lemma QuotientOfMin(p: Platform, v2: int32)
    requires Meets(p) && INT_MIN < v2 < -1
    ensures p.div(-(INT_MIN - v2), -v2) as int <= 0x4000_0000
  {
    var n := -(INT_MIN - v2);
    SameSign(p, n, -v2);
    HalfAtMost(n as int, -v2 as int, p.div(n, -v2) as int, p.mod(n, -v2) as int);
  }

  function DivEucl(p: Platform, v1: int32, v2: int32): int32
    requires Meets(p) && Divisible(v1, v2)
  {
    var (q, r) := Quadrant(p, v1, v2);
    if r >= 0 then q
    else
      QuadrantRange(p, v1, v2);
      q + (if v2 > 0 then -1 else 1)
  }

  function ModEucl(p: Platform, v1: int32, v2: int32): int32
    requires Meets(p) && Divisible(v1, v2)
  {
    var r := p.mod(v1, v2);
    assert Division(v1 as int, v2 as int, p.div(v1, v2) as int, r as int);
    if r >= 0 then r else r - NegAbs(v2)
  }

  lemma QuadrantDivides(p: Platform, v1: int32, v2: int32)
    requires Meets(p) && Divisible(v1, v2)
    ensures var (q, r) := Quadrant(p, v1, v2); Truncates(v1 as int, v2 as int, q as int, r as int) || v2 == INT_MIN
    ensures var (q, r) := Quadrant(p, v1, v2); Division(v1 as int, v2 as int, q as int, r as int)
  {
    hide Meets, Division;
    var a, b := v1 as int, v2 as int;
    if v2 == INT_MIN {
      ByMin(a);
    } else {
      if v1 >= 0 {
        if v2 >= 0 {
          SameSign(p, v1, v2);
        } else {
          SameSign(p, v1, -v2);
          FlipDivisor(a, 0 - b, p.div(v1, -v2) as int, p.mod(v1, -v2) as int);
        }
      } else if v1 != INT_MIN {
        if v2 >= 0 {
          SameSign(p, -v1, v2);
          FlipDividend(0 - a, b, p.div(-v1, v2) as int, p.mod(-v1, v2) as int);
        } else {
          SameSign(p, -v1, -v2);
          Both(0 - a, 0 - b, p.div(-v1, -v2) as int, p.mod(-v1, -v2) as int);
        }
      } else if v2 >= 0 {
        var n := -(v1 + v2);
        SameSign(p, n, v2);
        FlipDividend(n as int, b, p.div(n, v2) as int, p.mod(n, v2) as int);
        Shift(a + b, b, 0 - p.div(n, v2) as int, 0 - p.mod(n, v2) as int, -1);
      } else {
        var n := -(v1 - v2);
        SameSign(p, n, -v2);
        Both(n as int, 0 - b, p.div(n, -v2) as int, p.mod(n, -v2) as int);
        Shift(a - b, b, p.div(n, -v2) as int, 0 - p.mod(n, -v2) as int, 1);
      }
    }
  }

  lemma ByMin(a: int)
    requires -0x8000_0000 <= a <= 0x7fff_ffff
    ensures a >= 0 ==> Division(a, -0x8000_0000, 0, a)
    ensures a < 0 ==> Division(a, -0x8000_0000, 1, a + 0x8000_0000)
  {
  }

  /** A negative remainder leaves room to move the quotient by one. */
  lemma QuadrantRange(p: Platform, v1: int32, v2: int32)
    requires Meets(p) && Divisible(v1, v2) && Quadrant(p, v1, v2).1 < 0
    ensures INT_MIN as int < Quadrant(p, v1, v2).0 as int < 0x7fff_ffff
  {
    hide Meets, Quadrant;
    QuadrantDivides(p, v1, v2);
    var q, r := Quadrant(p, v1, v2).0 as int, Quadrant(p, v1, v2).1 as int;
    if Abs(v2 as int) >= 2 {
      Large(v1 as int, v2 as int, q, r);
    }
  }

  lemma Large(a: int, b: int, q: int, r: int)
    requires Division(a, b, q, r) && Abs(b) >= 2 && Abs(a) <= 0x8000_0000
    ensures Abs(q) < 0x7fff_ffff
  {
    AbsMul(q, b);
    Halve(Abs(q), Abs(b), 0x8000_0000);
  }

  lemma AbsMul(q: int, b: int)
    ensures Abs(q * b) == Abs(q) * Abs(b)
  {
    assert (0 - q) * b == 0 - q * b && q * (0 - b) == 0 - q * b && (0 - q) * (0 - b) == q * b;
  }

  lemma Halve(m: nat, c: nat, n: nat)
    requires m * c <= n + c - 1 && c >= 2
    ensures 2 * m <= n + 1
  {
    if m > 0 {
      assert (m - 1) * c == m * c - c;
      assert (m - 1) * (c - 2) >= 0;
      assert (m - 1) * c == (m - 1) * (c - 2) + 2 * (m - 1);
    }
  }

  /** Quotient and remainder of the Euclidean pair belong together, and the remainder is not negative. */
  lemma EuclPair(p: Platform, v1: int32, v2: int32)
    requires Meets(p) && Divisible(v1, v2)
    ensures Euclidean(v1 as int, v2 as int, DivEucl(p, v1, v2) as int, ModEucl(p, v1, v2) as int)
  {
    hide Meets, Quadrant, DivEucl, ModEucl;
    var r := EuclQuotient(p, v1, v2);
    var q := EuclRemainder(p, v1, v2);
    Unique(v1 as int, v2 as int, DivEucl(p, v1, v2) as int, r, q, ModEucl(p, v1, v2) as int);
  }

  /** A negative remainder is made positive by moving the quotient by one. */
  lemma Lifted(a: int, b: int, q: int, r: int)
    requires Division(a, b, q, r)
    ensures r < 0 ==> Euclidean(a, b, if b > 0 then q - 1 else q + 1, r + Abs(b))
  {
    Carry(a, b, q, r, if b > 0 then -1 else 1);
  }

  lemma EuclQuotient(p: Platform, v1: int32, v2: int32) returns (r: int)
    requires Meets(p) && Divisible(v1, v2)
    ensures Euclidean(v1 as int, v2 as int, DivEucl(p, v1, v2) as int, r)
  {
    hide Meets, Quadrant, Division;
    QuadrantDivides(p, v1, v2);
    var q := Quadrant(p, v1, v2).0 as int;
    r := Quadrant(p, v1, v2).1 as int;
    Lifted(v1 as int, v2 as int, q, r);
    if r < 0 {
      r := r + Abs(v2 as int);
    }
  }

  lemma EuclRemainder(p: Platform, v1: int32, v2: int32) returns (q: int)
    requires Meets(p) && Divisible(v1, v2)
    ensures Euclidean(v1 as int, v2 as int, q, ModEucl(p, v1, v2) as int)
  {
    q := p.div(v1, v2) as int;
    Lifted(v1 as int, v2 as int, q, p.mod(v1, v2) as int);
    if p.mod(v1, v2) < 0 {
      q := if v2 > 0 then q - 1 else q + 1;
    }
  }
}
