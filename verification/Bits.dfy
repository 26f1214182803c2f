/**
  Bit strings as section 3.1.1 of RFC 1951 packs them: data elements go in
  starting with their least significant bit, Huffman codes starting with their
  most significant bit, and bytes fill from their least significant bit.
 */
module Bits {
  import opened Arith

  type byte = x: int | 0 <= x < 256

  /** The low n bits of v, least significant first. */
  function LsbBits(v: nat, n: nat): (r: seq<bool>)
    ensures |r| == n
  {
    if n == 0 then [] else [v % 2 == 1] + LsbBits(v / 2, n - 1)
  }

  /** The low n bits of v, most significant first. */
  function MsbBits(v: nat, n: nat): (r: seq<bool>)
    ensures |r| == n
  {
    if n == 0 then [] else MsbBits(v / 2, n - 1) + [v % 2 == 1]
  }

  function LsbValue(bs: seq<bool>): nat {
    if bs == [] then 0 else (if bs[0] then 1 else 0) + 2 * LsbValue(bs[1..])
  }

  function MsbValue(bs: seq<bool>): nat {
    if bs == [] then 0 else 2 * MsbValue(bs[..|bs| - 1]) + (if bs[|bs| - 1] then 1 else 0)
  }

  function BytesBits(bs: seq<byte>): (r: seq<bool>)
    ensures |r| == 8 * |bs|
  {
    if bs == [] then [] else BytesBits(bs[..|bs| - 1]) + LsbBits(bs[|bs| - 1], 8)
  }

  lemma {:induction false} LsbRoundTrip(v: nat, n: nat)
    requires v < Pow2(n)
    ensures LsbValue(LsbBits(v, n)) == v
  {
    if n > 0 {
      LsbRoundTrip(v / 2, n - 1);
      assert LsbBits(v, n)[1..] == LsbBits(v / 2, n - 1);
    }
  }

  lemma {:induction false} MsbRoundTrip(v: nat, n: nat)
    requires v < Pow2(n)
    ensures MsbValue(MsbBits(v, n)) == v
  {
    if n > 0 {
      MsbRoundTrip(v / 2, n - 1);
      assert MsbBits(v, n)[..n - 1] == MsbBits(v / 2, n - 1);
    }
  }

  lemma {:induction false} BytesBitsConcat(a: seq<byte>, b: seq<byte>)
    ensures BytesBits(a + b) == BytesBits(a) + BytesBits(b)
  {
    if b == [] {
      assert a + b == a;
    } else {
      BytesBitsConcat(a, b[..|b| - 1]);
      assert (a + b)[..|a + b| - 1] == a + b[..|b| - 1];
    }
  }

  /** The bits of a low part and a high part side by side. */
  lemma {:induction false} LsbSplit(a: nat, c: nat, k: nat, n: nat)
    requires a < Pow2(k)
    ensures LsbBits(a + c * Pow2(k), k + n) == LsbBits(a, k) + LsbBits(c, n)
  {
    if k > 0 {
      var P := Pow2(k - 1);
      assert c * Pow2(k) == 2 * (c * P) by { Double(c, P); }
      assert (a + 2 * (c * P)) / 2 == a / 2 + c * P && (a + 2 * (c * P)) % 2 == a % 2;
      LsbSplit(a / 2, c, k - 1, n);
    }
  }

  /** Reading MsbBits from the front. */
  lemma {:induction false} MsbFront(v: nat, n: nat)
    ensures MsbBits(v, n + 1) == [v / Pow2(n) % 2 == 1] + MsbBits(v, n)
  {
    if n > 0 {
      MsbFront(v / 2, n - 1);
      DivTwice(v, Pow2(n - 1));
    }
  }

  /** Bit i of v comes i-th in one order, and i-th from the end in the other. */
  lemma {:induction false} LsbBitAt(v: nat, n: nat, i: nat)
    requires i < n
    ensures LsbBits(v, n)[i] <==> v / Pow2(i) % 2 == 1
  {
    if i > 0 {
      assert LsbBits(v, n)[i] == LsbBits(v / 2, n - 1)[i - 1] && Pow2(i) == 2 * Pow2(i - 1);
      hide LsbBits, Pow2;
      LsbBitAt(v / 2, n - 1, i - 1);
      DivTwice(v, Pow2(i - 1));
    }
  }

  lemma {:induction false} MsbBitAt(v: nat, n: nat, i: nat)
    requires i < n
    ensures MsbBits(v, n)[n - 1 - i] <==> v / Pow2(i) % 2 == 1
  {
    if i > 0 {
      MsbBitAt(v / 2, n - 1, i - 1);
      DivTwice(v, Pow2(i - 1));
    }
  }

  /** Bytes follow each other, and each fills from its lowest bit. */
  lemma {:induction false} ByteBitAt(bs: seq<byte>, k: nat, i: nat)
    requires k < |bs| && i < 8
    ensures BytesBits(bs)[8 * k + i] <==> bs[k] / Pow2(i) % 2 == 1
    decreases |bs|
  {
    hide LsbBits, Pow2;
    var m := |bs| - 1;
    if k < m {
      ByteBitAt(bs[..m], k, i);
    } else {
      LsbBitAt(bs[m], 8, i);
    }
  }

  // ---------------------------------------------------------------- bitwise or

  /** Bitwise inclusive or. */
  function Or(a: nat, b: nat): nat
    decreases a + b
  {
    if a == 0 then b else if b == 0 then a
    else (if a % 2 == 1 || b % 2 == 1 then 1 else 0) + 2 * Or(a / 2, b / 2)
  }

  /** Or of numbers whose bits do not overlap is their sum. */
  lemma {:induction false} OrApart(a: nat, c: nat, k: nat)
    requires a < Pow2(k)
    ensures Or(a, c * Pow2(k)) == a + c * Pow2(k)
    decreases k
  {
    if k > 0 && a > 0 && c * Pow2(k) > 0 {
      var P := Pow2(k - 1);
      Double(c, P);
      assert Pow2(k) == 2 * P;
      OrApart(a / 2, c, k - 1);
      OrEven(a, c * P);
    }
  }

  lemma {:induction false} OrEven(a: nat, b: nat)
    requires a > 0 && b > 0
    ensures Or(a, 2 * b) == a % 2 + 2 * Or(a / 2, b)
  {
  }
}
