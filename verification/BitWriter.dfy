/** The bit writer of the compressor: a byte buffer plus up to seven pending bits. */
module BitWriter {
  import opened Arith
  import opened Bits

  lemma Pow2Of8()
    ensures Pow2(8) == 256
  {
    assert Pow2(4) == 16;
    assert Pow2(5) == 32;
    assert Pow2(6) == 64;
    assert Pow2(7) == 128;
  }

  /** The low eight bits of v and the rest. */
  lemma SplitByte(v: nat, m: nat)
    requires m >= 8 && v < Pow2(m)
    ensures LsbBits(v, m) == LsbBits(v % 256, 8) + LsbBits(v / 256, m - 8)
    ensures v / 256 < Pow2(m - 8)
  {
    Pow2Of8();
    Pow2Add(8, m - 8);
    hide Pow2;
    assert v == v % 256 + (v / 256) * 256;
    LsbSplit(v % 256, v / 256, 8, m - 8);
    if v / 256 >= Pow2(m - 8) {
      assert v / 256 * 256 >= Pow2(m - 8) * 256;
    }
  }

  /** v shifted left by k bits. */
  function Shifted(v: nat, k: nat): nat {
    v * Pow2(k)
  }

  class Writer {
    var out: seq<byte>
    var bitbuf: nat
    var bitcount: nat

    ghost predicate Valid()
      reads this
    {
      bitcount < 8 && bitbuf < Pow2(bitcount)
    }

    /** Everything written so far, pending bits included. */
    ghost function Stream(): seq<bool>
      reads this
    {
      BytesBits(out) + LsbBits(bitbuf, bitcount)
    }

    constructor ()
      ensures Valid() && out == [] && Stream() == [] && bitcount == 0
    {
      out, bitbuf, bitcount := [], 0, 0;
    }

    /** Appends a whole byte; only used while no bits are pending. */
    method Push(b: byte)
      requires Valid() && bitcount == 0
      modifies this`out
      ensures Valid() && bitcount == 0 && out == old(out) + [b] && Stream() == old(Stream()) + LsbBits(b, 8)
    {
      out := out + [b];
      assert out[..|out| - 1] == old(out);
    }

    /** Moves whole bytes from the pending bits to the buffer. */
    method Flush()
      requires bitbuf < Pow2(bitcount)
      modifies this
      ensures Valid() && Stream() == old(Stream()) && old(out) <= out
    {
      hide Pow2, LsbBits;
      while bitcount >= 8
        invariant bitbuf < Pow2(bitcount) && Stream() == old(Stream()) && old(out) <= out
        decreases bitcount
      {
        SplitByte(bitbuf, bitcount);
        ghost var before := out;
        out := out + [bitbuf % 256];
        assert out[..|out| - 1] == before;
        bitbuf := bitbuf / 256;
        bitcount := bitcount - 8;
      }
    }

    /** Appends the low n bits of code, least significant first; the accumulator never exceeds 32 bits. */
    method Add(code: nat, n: nat)
      requires Valid() && code < Pow2(n) && n <= 16
      modifies this
      ensures Valid() && Stream() == old(Stream()) + LsbBits(code, n) && old(out) <= out
      ensures Or(old(bitbuf), Shifted(code, old(bitcount))) == old(bitbuf) + Shifted(code, old(bitcount)) < Pow2(32)
    {
      hide Pow2, LsbBits, BytesBits, Or, Shifted;
      AddFits(bitbuf, bitcount, code, n);
      bitbuf := Or(bitbuf, Shifted(code, bitcount));
      bitcount := bitcount + n;
      assert Stream() == old(Stream()) + LsbBits(code, n);
      Flush();
    }
  }

  lemma AddFits(a: nat, k: nat, c: nat, n: nat)
    requires k < 8 && a < Pow2(k) && c < Pow2(n) && n <= 16
    ensures Or(a, Shifted(c, k)) == a + Shifted(c, k) < Pow2(k + n) <= Pow2(32)
    ensures LsbBits(a + Shifted(c, k), k + n) == LsbBits(a, k) + LsbBits(c, n)
  {
    OrApart(a, c, k);
    LsbSplit(a, c, k, n);
    Pow2Add(n, k);
    Pow2Monotone(k + n, 32);
    hide Pow2;
    MulGap(c, Pow2(n), Pow2(k));
  }

  /** The code read backwards, so that adding it puts its most significant bit first. */
  method BitRev(code: nat, codebits: nat) returns (res: nat)
    ensures res < Pow2(codebits) && LsbBits(res, codebits) == MsbBits(code, codebits)
  {
    res := 0;
    var c := code;
    for m := 0 to codebits
      invariant c == code / Pow2(m) && res < Pow2(m) && LsbBits(res, m) == MsbBits(code, m)
    {
      RevStep(code, res, m);
      res := Or(c % 2, res * 2);
      c := c / 2;
    }
  }

  lemma RevStep(code: nat, res: nat, m: nat)
    requires res < Pow2(m) && LsbBits(res, m) == MsbBits(code, m)
    ensures var c := code / Pow2(m); var res' := Or(c % 2, res * 2);
      res' == c % 2 + 2 * res && res' < Pow2(m + 1) && LsbBits(res', m + 1) == MsbBits(code, m + 1) &&
      c / 2 == code / Pow2(m + 1)
  {
    var c := code / Pow2(m);
    assert Pow2(1) == 2;
    OrApart(c % 2, res, 1);
    MsbFront(code, m);
    DivByMore(code, Pow2(m));
    var res' := c % 2 + 2 * res;
    assert res' / 2 == res && res' % 2 == c % 2;
  }

  lemma DivByMore(v: nat, p: nat)
    requires p > 0
    ensures v / p / 2 == v / (2 * p)
  {
    var q, r := v / p, v % p;
    assert v == q * p + r;
    Double(q / 2, p);
    assert q == 2 * (q / 2) + q % 2;
    assert q * p == (2 * (q / 2)) * p + (q % 2) * p;
    assert (2 * (q / 2)) * p == (q / 2) * (2 * p);
    assert (q % 2) * p <= p;
    Quotient(v, 2 * p, q / 2, (q % 2) * p + r);
  }
}
