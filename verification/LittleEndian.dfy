/** Byte buffers and the little-endian numbers in them. */
module LittleEndian {
  import opened Bits
  import opened Sequences

  function Pow256(n: nat): (p: nat)
    ensures p > 0
  {
    if n == 0 then 1 else 256 * Pow256(n - 1)
  }

  /** The n low bytes of v, lowest first. */
  function Le(v: nat, n: nat): (s: seq<byte>)
    ensures |s| == n
  {
    if n == 0 then [] else [v % 256] + Le(v / 256, n - 1)
  }

  function LeValue(s: seq<byte>): nat {
    if s == [] then 0 else s[0] + 256 * LeValue(s[1..])
  }

  lemma {:induction false} LeRoundTrip(v: nat, n: nat)
    requires v < Pow256(n)
    ensures LeValue(Le(v, n)) == v
  {
    if n > 0 {
      LeRoundTrip(v / 256, n - 1);
      assert Le(v, n)[1..] == Le(v / 256, n - 1);
    }
  }

  /** Bytes are determined by the number they stand for. */
  lemma {:induction false} LeBack(s: seq<byte>)
    ensures LeValue(s) < Pow256(|s|) && Le(LeValue(s), |s|) == s
  {
    if s != [] {
      LeBack(s[1..]);
      LowByte(s[0], LeValue(s[1..]));
      assert s == [s[0]] + s[1..];
    }
  }

  lemma LowByte(b: byte, v: nat)
    ensures (b + 256 * v) % 256 == b && (b + 256 * v) / 256 == v
  {
  }

  lemma SmallPow256()
    ensures Pow256(2) == 0x10000 && Pow256(4) == 0x1_0000_0000 && Pow256(8) == 0x1_0000_0000_0000_0000
  {
    assert Pow256(1) == 256 && Pow256(3) == 0x100_0000;
    assert Pow256(5) == 0x100_0000_0000 && Pow256(6) == 0x1_0000_0000_0000 && Pow256(7) == 0x100_0000_0000_0000;
  }

  /** The number in the n bytes at position at. */
  function Get(s: seq<byte>, at: nat, n: nat): nat
    requires at + n <= |s|
  {
    LeValue(s[at..at + n])
  }

  /** The lowest byte comes first: numbers of two, four and eight bytes, byte by byte. */
  lemma GetTwo(s: seq<byte>, at: nat)
    requires at + 2 <= |s|
    ensures var a: nat, b: nat := s[at], s[at + 1];
            Get(s, at, 2) == a + 0x100 * b
  {
    GetSplit(s, at, 2);
    GetSplit(s, at + 1, 1);
  }

  lemma GetFour(s: seq<byte>, at: nat)
    requires at + 4 <= |s|
    ensures var a: nat, b: nat, c: nat, d: nat := s[at], s[at + 1], s[at + 2], s[at + 3];
            Get(s, at, 4) == a + 0x100 * b + 0x1_0000 * c + 0x100_0000 * d
  {
    GetSplit(s, at, 4);
    GetSplit(s, at + 1, 3);
    GetTwo(s, at + 2);
  }

  lemma GetEight(s: seq<byte>, at: nat)
    requires at + 8 <= |s|
    ensures Get(s, at, 8) == Get(s, at, 4) + 0x1_0000_0000 * Get(s, at + 4, 4)
  {
    GetFour(s, at);
    GetSplit(s, at, 8);
    GetSplit(s, at + 1, 7);
    GetSplit(s, at + 2, 6);
    GetSplit(s, at + 3, 5);
  }

  lemma GetSplit(s: seq<byte>, at: nat, n: nat)
    requires 0 < n && at + n <= |s|
    ensures Get(s, at, n) == s[at] + 256 * Get(s, at + 1, n - 1) && Get(s, at + n, 0) == 0
  {
    assert s[at..at + n][1..] == s[at + 1..at + n];
  }

  /** Writing a number puts its lowest byte first. */
  lemma LeFour(v: nat)
    requires v < 0x1_0000_0000
    ensures Le(v, 4) == [v % 0x100, v / 0x100 % 0x100, v / 0x1_0000 % 0x100, v / 0x100_0000]
  {
    LeTwo(v);
    assert Le(v, 4) == [v % 256] + Le(v / 256, 3);
    assert Le(v / 256, 3) == [v / 256 % 256] + Le(v / 256 / 256, 2);
    LeTwo(v / 256 / 256);
    assert v / 256 / 256 == v / 0x1_0000 && v / 256 / 256 / 256 == v / 0x100_0000;
  }

  lemma LeTwo(v: nat)
    ensures Le(v, 2) == [v % 0x100, v / 0x100 % 0x100]
  {
    assert Le(v, 2) == [v % 256] + Le(v / 256, 1);
    assert Le(v / 256, 1) == [v / 256 % 256] + Le(v / 256 / 256, 0);
  }

  lemma GetBack(s: seq<byte>, at: nat, n: nat)
    requires at + n <= |s|
    ensures Get(s, at, n) < Pow256(n) && Le(Get(s, at, n), n) == s[at..at + n]
  {
    LeBack(s[at..at + n]);
  }

  /** A number of n bytes in place. */
  lemma NumberAt(s: seq<byte>, at: nat, v: nat, n: nat)
    requires at + n <= |s| && s[at..at + n] == Le(v, n) && v < Pow256(n)
    ensures Get(s, at, n) == v
  {
    hide Le, LeValue, Pow256;
    LeRoundTrip(v, n);
  }

  /** A number in a part of the buffer. */
  lemma GetField(s: seq<byte>, base: nat, part: seq<byte>, from: nat, v: nat, n: nat)
    requires base + |part| <= |s| && s[base..base + |part|] == part && from + n <= |part|
    requires part[from..from + n] == Le(v, n) && v < Pow256(n)
    ensures Get(s, base + from, n) == v
  {
    hide Le, LeValue, Pow256;
    SubSlice(s, base, part, from, from + n);
    LeRoundTrip(v, n);
  }

  /** The buffer with b written at position at. */
  function Put(s: seq<byte>, at: nat, b: seq<byte>): (r: seq<byte>)
    requires at + |b| <= |s|
    ensures |r| == |s|
  {
    s[..at] + b + s[at + |b|..]
  }

  function Zeros(n: nat): (s: seq<byte>)
    ensures |s| == n && forall i :: 0 <= i < n ==> s[i] == 0
  {
    seq<byte>(n, _ => 0)
  }

  lemma PutHere(s: seq<byte>, at: nat, b: seq<byte>)
    requires at + |b| <= |s|
    ensures Put(s, at, b)[at..at + |b|] == b
  {
  }

  /** Writing leaves all other places alone. */
  lemma PutElsewhere(s: seq<byte>, at: nat, b: seq<byte>, from: nat, upto: nat)
    requires at + |b| <= |s| && from <= upto <= |s| && (upto <= at || at + |b| <= from)
    ensures Put(s, at, b)[from..upto] == s[from..upto]
  {
  }

  /** Writing at a place leaves everything before it alone. */
  lemma PutAfter(s: seq<byte>, at: nat, b: seq<byte>)
    requires at + |b| <= |s|
    ensures Put(s, at, b)[at..at + |b|] == b
    ensures forall from, upto {:trigger Put(s, at, b)[from..upto]} :: 0 <= from <= upto <= at ==>
              Put(s, at, b)[from..upto] == s[from..upto]
  {
    forall from, upto {:trigger Put(s, at, b)[from..upto]} | 0 <= from <= upto <= at
      ensures Put(s, at, b)[from..upto] == s[from..upto]
    {
      PutElsewhere(s, at, b, from, upto);
    }
  }

  lemma PutGet(s: seq<byte>, at: nat, v: nat, n: nat)
    requires at + n <= |s| && v < Pow256(n)
    ensures Get(Put(s, at, Le(v, n)), at, n) == v
  {
    hide LeValue, Le;
    PutHere(s, at, Le(v, n));
    LeRoundTrip(v, n);
  }

}
