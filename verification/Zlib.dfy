/**
  The zlib container of RFC 1950 around the compressed data: header, fixed-code
  block or stored blocks, and the Adler-32 checksum.
 */
module Zlib {
  import opened Arith
  import opened Bits
  import opened BitWriter
  import opened Inflate
  import opened Options
  import opened Sequences
  import opened Deflate
  import opened Compressor
  import opened Counting

  // ---------------------------------------------------------------- Adler-32

  const MOD: nat := 65521

  /** The two sums of section 2.2 of RFC 1950, reduced after every byte. */
  function Adler(data: seq<byte>): (r: (nat, nat))
    ensures r.0 < MOD && r.1 < MOD
  {
    if data == [] then (1, 0)
    else
      var (a, b) := Adler(data[..|data| - 1]);
      var a' := (a + data[|data| - 1]) % MOD;
      (a', (b + a') % MOD)
  }

  /** Byte i of n bytes enters the second sum n - i times. */
  ghost function Weighted(data: seq<byte>): (w: seq<nat>)
    ensures |w| == |data| && forall i :: 0 <= i < |w| ==> w[i] == (|data| - i) * data[i]
  {
    seq(|data|, i requires 0 <= i < |data| => (|data| - i) * data[i])
  }

  /** The two sums without a recurrence. */
  lemma {:induction false} AdlerSums(data: seq<byte>)
    ensures Adler(data).0 == (1 + Sum(data)) % 65521
    ensures Adler(data).1 == (|data| + Sum(Weighted(data))) % 65521
  {
    hide Sum, Weighted, Adler;
    if data == [] {
      NoSums();
    } else {
      var m := |data| - 1;
      AdlerSums(data[..m]);
      SumSnoc(data);
      WeightedSnoc(data);
      AdlerSnoc(data, 1 + Sum(data[..m]), m + Sum(Weighted(data[..m])));
    }
  }

  lemma {:induction false} AdlerSnoc(data: seq<byte>, s: nat, w: nat)
    requires data != [] && Adler(data[..|data| - 1]) == (s % 65521, w % 65521)
    ensures var x := data[|data| - 1]; Adler(data) == ((s + x) % 65521, (w + (s + x)) % 65521)
  {
    var x := data[|data| - 1];
    assert Adler(data) == ((s % MOD + x) % MOD, (w % MOD + (s % MOD + x) % MOD) % MOD);
    hide Adler;
    ModStep(s, x);
    ModStep(w, s + x);
  }

  lemma NoSums()
    ensures Adler([]) == (1, 0) && Sum([]) == 0 && Sum(Weighted([])) == 0
  {
    assert Weighted([]) == [];
  }

  lemma SumSnoc(s: seq<nat>)
    requires s != []
    ensures Sum(s) == Sum(s[..|s| - 1]) + s[|s| - 1]
  {
  }

  /** With one byte more, every byte counts once more. */
  lemma WeightedSnoc(data: seq<byte>)
    requires data != []
    ensures Sum(Weighted(data)) == Sum(Weighted(data[..|data| - 1])) + Sum(data)
  {
    hide Sum;
    var m := |data| - 1;
    var w, v := Weighted(data), Weighted(data[..m]);
    forall i | 0 <= i < m ensures w[i] == v[i] + data[i] {
      OnceMore(m - i, data[i]);
    }
    SumSnoc(w);
    SumSnoc(data);
    SumPairs(w[..m], v, data[..m]);
  }

  lemma OnceMore(k: nat, x: nat)
    ensures (k + 1) * x == k * x + x
  {
  }

  lemma {:induction false} SumPairs(w: seq<nat>, v: seq<nat>, d: seq<nat>)
    requires |w| == |v| == |d| && forall i :: 0 <= i < |w| ==> w[i] == v[i] + d[i]
    ensures Sum(w) == Sum(v) + Sum(d)
  {
    if w != [] {
      var m := |w| - 1;
      SumPairs(w[..m], v[..m], d[..m]);
    }
  }

  lemma AdlerNext(data: seq<byte>, i: nat)
    requires i < |data|
    ensures var (a, b) := Adler(data[..i]);
            Adler(data[..i + 1]) == ((a + data[i]) % MOD, (b + (a + data[i]) % MOD) % MOD)
  {
    assert data[..i + 1][..i] == data[..i];
  }

  lemma ModStep(s: nat, x: nat)
    ensures (s + x) % MOD == (s % MOD + x) % MOD == (s % MOD + x % MOD) % MOD
  {
    assert s == s / MOD * MOD + s % MOD;
    assert x == x / MOD * MOD + x % MOD;
  }

  /** Upper bound of the second sum after k bytes of a block. */
  function SumBound(k: nat): nat { 65520 + k * 65520 + 255 * (k * (k + 1) / 2) }

  /** One byte more, with the sums not yet reduced. */
  lemma AdlerDeferred(data: seq<byte>, i: nat, s1: nat, s2: nat)
    requires i < |data| && (s1 % MOD, s2 % MOD) == Adler(data[..i])
    ensures ((s1 + data[i]) % MOD, (s2 + (s1 + data[i])) % MOD) == Adler(data[..i + 1])
  {
    hide Adler;
    AdlerNext(data, i);
    ModStep(s1, data[i]);
    ModStep(s2, s1 + data[i]);
  }

  lemma SumBoundStep(k: nat)
    ensures SumBound(k + 1) == SumBound(k) + 65520 + 255 * (k + 1)
  {
    assert (k + 1) * (k + 2) == k * (k + 1) + 2 * (k + 1);
  }

  lemma {:induction false} SumBoundMonotone(k: nat, m: nat)
    requires k <= m
    ensures SumBound(k) <= SumBound(m)
    decreases m
  {
    if k < m {
      SumBoundMonotone(k, m - 1);
      SumBoundStep(m - 1);
    }
  }

  /** One block of at most 5552 bytes: no sum leaves 32 bits before it is reduced. */
  method AdlerBlock(data: seq<byte>, j: nat, blocklen: nat, a: nat, b: nat) returns (s1: nat, s2: nat)
    requires j + blocklen <= |data| && blocklen <= 5552 && (a, b) == Adler(data[..j])
    ensures (s1 % MOD, s2 % MOD) == Adler(data[..j + blocklen]) && s1 < 0x1_0000_0000 && s2 < 0x1_0000_0000
  {
    s1, s2 := a, b;
    hide SumBound, Adler;
    assert SumBound(0) == 65520 && SumBound(5552) < 0x1_0000_0000 by { SumBoundValues(); }
    for i := 0 to blocklen
      invariant (s1 % MOD, s2 % MOD) == Adler(data[..j + i])
      invariant s1 <= 65520 + 255 * i && s2 <= SumBound(i)
    {
      AdlerDeferred(data, j + i, s1, s2);
      SumBoundStep(i);
      SumBoundMonotone(i + 1, 5552);
      s1 := s1 + data[j + i];
      s2 := s2 + s1;
    }
    SumBoundMonotone(blocklen, 5552);
  }

  lemma SumBoundValues()
    ensures SumBound(0) == 65520 && SumBound(5552) < 0x1_0000_0000
  {
  }

  /** The checksum of section 2.2 of RFC 1950. */
  method Adler32(data: seq<byte>) returns (s1: nat, s2: nat)
    ensures (s1, s2) == Adler(data)
    ensures s1 == (1 + Sum(data)) % 65521 && s2 == (|data| + Sum(Weighted(data))) % 65521
  {
    hide Adler, Sum, Weighted;
    s1, s2 := AdlerBlocks(data);
    AdlerSums(data);
  }

  /** The deferred-modulo loop; its first block holds the remainder and may be empty. */
  method AdlerBlocks(data: seq<byte>) returns (s1: nat, s2: nat)
    ensures (s1, s2) == Adler(data)
  {
    s1, s2 := 1, 0;
    assert data[..0] == [] && Adler(data[..0]) == (1, 0);
    hide Adler;
    var blocklen: nat := |data| % 5552;
    var j: nat := 0;
    ghost var full, first := |data| / 5552, true;
    while j < |data|
      invariant j <= |data| && (s1, s2) == Adler(data[..j]) && blocklen <= 5552
      invariant |data| - j == 5552 * full + if first then blocklen else 0
      invariant first || blocklen == 5552
      decreases full, first
    {
      s1, s2 := AdlerBlock(data, j, blocklen, s1, s2);
      s1, s2 := s1 % MOD, s2 % MOD;
      j := j + blocklen;
      full, first := if first then full else full - 1, false;
      blocklen := 5552;
    }
    assert data[..|data|] == data;
  }

  // ---------------------------------------------------------------- stored blocks

  function BlockLength(data: seq<byte>, j: nat): (n: nat)
    requires j < |data|
    ensures 1 <= n <= 32767 && j + n <= |data|
  {
    if |data| - j > 32767 then 32767 else |data| - j
  }

  /** Header of a stored block: final flag, length, and the complement of the length. */
  function StoredHeader(last: bool, n: nat): (r: seq<byte>)
    requires n <= 32767
    ensures |r| == 5
  {
    [if last then 1 else 0, n % 256, n / 256, 255 - n % 256, 255 - n / 256]
  }

  /** The stored blocks for the data from j on. */
  function StoredFrom(data: seq<byte>, j: nat): seq<byte>
    requires j <= |data|
    decreases |data| - j
  {
    if j == |data| then []
    else
      var n := BlockLength(data, j);
      StoredHeader(|data| - j == n, n) + data[j..j + n] + StoredFrom(data, j + n)
  }

  /** Stored blocks cost five bytes for every 32767 bytes of data. */
  lemma {:induction false} StoredSize(data: seq<byte>, j: nat)
    requires j <= |data|
    ensures |StoredFrom(data, j)| == |data| - j + (|data| - j + 32766) / 32767 * 5
    decreases |data| - j
  {
    if j < |data| {
      var n := BlockLength(data, j);
      StoredSize(data, j + n);
    }
  }

  /** Replaces the compressed data by stored blocks, in the space the compressed data took. */
  method StoreInstead(out0: seq<byte>, data: seq<byte>) returns (out: seq<byte>)
    requires |out0| > |data| + 2 + (|data| + 32766) / 32767 * 5
    ensures out == out0[..2] + StoredFrom(data, 0) && |out| < |out0|
  {
    out := out0[..2];
    var j := 0;
    while j < |data|
      invariant j <= |data| && out + StoredFrom(data, j) == out0[..2] + StoredFrom(data, 0)
    {
      var n := |data| - j;
      if n > 32767 {
        n := 32767;
      }
      assert n == BlockLength(data, j);
      ghost var before := out;
      out := out + [if |data| - j == n then 1 else 0];
      out := out + [n % 256] + [n / 256 % 256] + [255 - n % 256] + [255 - n / 256 % 256];
      HeaderBytes(before, |data| - j == n, n);
      out := out + data[j..j + n];
      StoredNext(before, out, data, j, n);
      j := j + n;
    }
    StoredSize(data, 0);
    assert out + [] == out;
  }

  lemma HeaderBytes(before: seq<byte>, last: bool, n: nat)
    requires n <= 32767
    ensures before + [if last then 1 else 0] + [n % 256] + [n / 256 % 256] + [255 - n % 256] + [255 - n / 256 % 256]
            == before + StoredHeader(last, n)
  {
  }

  lemma {:induction false} StoredNext(before: seq<byte>, out: seq<byte>, data: seq<byte>, j: nat, n: nat)
    requires j < |data| && n == BlockLength(data, j)
    requires out == before + StoredHeader(|data| - j == n, n) + data[j..j + n]
    ensures out + StoredFrom(data, j + n) == before + StoredFrom(data, j)
  {
    hide *;
    StoredUnfold(data, j);
    Regroup(before, StoredHeader(|data| - j == n, n), data[j..j + n], StoredFrom(data, j + n));
  }

  lemma {:induction false} StoredUnfold(data: seq<byte>, j: nat)
    requires j < |data|
    ensures var n := BlockLength(data, j);
            StoredFrom(data, j) == StoredHeader(|data| - j == n, n) + data[j..j + n] + StoredFrom(data, j + n)
  {
  }

  lemma {:induction false} BytesAtBits(bits: seq<bool>, pos: nat, s: seq<byte>)
    requires pos + 8 * |s| <= |bits| && bits[pos..pos + 8 * |s|] == BytesBits(s)
    ensures BytesAt(bits, pos, |s|) == s
  {
    hide LsbBits, LsbValue, Pow2;
    if s != [] {
      var m := |s| - 1;
      var init, b := s[..m], s[m];
      var w := BytesBits(s);
      assert w == BytesBits(init) + LsbBits(b, 8);
      SubSlice(bits, pos, w, 0, 8 * m);
      SubSlice(bits, pos, w, 8 * m, 8 * m + 8);
      BytesAtBits(bits, pos, init);
      Pow2Of8();
      LsbRoundTrip(b, 8);
      assert bits[pos + 8 * m..pos + 8 * m + 8] == LsbBits(b, 8);
    }
  }

  /** Two bytes, low one first, read as one number. */
  lemma TwoBytes(lo: byte, hi: byte)
    ensures BytesBits([lo, hi]) == LsbBits(lo + 256 * hi, 16) && LsbValue(BytesBits([lo, hi])) == lo + 256 * hi
  {
    hide LsbBits, BytesBits, Pow2, LsbValue;
    Pow2Of8();
    OneByte(lo);
    OneByte(hi);
    BytesBitsConcat([lo], [hi]);
    assert [lo] + [hi] == [lo, hi];
    LsbSplit(lo, hi, 8, 8);
    Pow2Add(8, 8);
    LsbRoundTrip(lo + 256 * hi, 16);
  }

  /** The first three bits of a stored block's header byte. */
  lemma StoredFlags(last: bool)
    ensures var bits := LsbBits(if last then 1 else 0, 8); bits[0] == last && LsbValue(bits[1..3]) == 0
  {
    var v := if last then 1 else 0;
    assert LsbBits(v, 8) == [last] + LsbBits(0, 7);
    assert LsbBits(0, 7) == [false] + LsbBits(0, 6);
    assert LsbBits(0, 6) == [false] + LsbBits(0, 5);
    assert LsbBits(v, 8)[1..3] == [false, false];
    assert [false, false][1..] == [false];
  }

  /** The decoder reads one stored block back. */
  lemma {:induction false} DecodeStoredBlock(bits: seq<bool>, pos: nat, out: seq<byte>, last: bool, chunk: seq<byte>)
    requires pos % 8 == 0 && |chunk| <= 32767 && pos + 40 + 8 * |chunk| <= |bits|
    requires bits[pos..pos + 40 + 8 * |chunk|] == BytesBits(StoredHeader(last, |chunk|) + chunk)
    ensures bits[pos] == last && LsbValue(bits[pos + 1..pos + 3]) == 0
    ensures InflateStored(bits, pos + 3, out) == Some((out + chunk, pos + 40 + 8 * |chunk|))
  {
    hide BytesBits, LsbBits, LsbValue, BytesAt, StoredHeader, InflateStored;
    var n := |chunk|;
    var w := BytesBits(StoredHeader(last, n) + chunk);
    StoredPieces(last, n, chunk);
    SubSlice(bits, pos, w, 0, 8);
    SubSlice(bits, pos, w, 8, 24);
    SubSlice(bits, pos, w, 24, 40);
    SubSlice(bits, pos, w, 40, 40 + 8 * n);
    StoredFlags(last);
    assert bits[pos] == bits[pos..pos + 8][0];
    assert bits[pos + 1..pos + 3] == bits[pos..pos + 8][1..3];
    TwoBytes(n % 256, n / 256);
    TwoBytes(255 - n % 256, 255 - n / 256);
    BytesAtBits(bits, pos + 40, chunk);
    StoredResult(bits, pos, out, chunk);
  }

  lemma StoredResult(bits: seq<bool>, pos: nat, out: seq<byte>, chunk: seq<byte>)
    requires pos % 8 == 0 && |chunk| <= 32767 && pos + 40 + 8 * |chunk| <= |bits|
    requires LsbValue(bits[pos + 8..pos + 24]) == |chunk| && LsbValue(bits[pos + 24..pos + 40]) == 65535 - |chunk|
    requires BytesAt(bits, pos + 40, |chunk|) == chunk
    ensures InflateStored(bits, pos + 3, out) == Some((out + chunk, pos + 40 + 8 * |chunk|))
  {
    hide LsbValue, BytesAt;
    assert Align(pos + 3) == pos + 8;
  }

  lemma StoredPieces(last: bool, n: nat, chunk: seq<byte>)
    requires n <= 32767
    ensures var w := BytesBits(StoredHeader(last, n) + chunk);
      && w[0..8] == LsbBits(if last then 1 else 0, 8) && w[8..24] == BytesBits([n % 256, n / 256])
      && w[24..40] == BytesBits([255 - n % 256, 255 - n / 256]) && w[40..] == BytesBits(chunk)
  {
    hide StoredHeader, BytesBits, LsbBits;
    var a, b, c: seq<byte> := [if last then 1 else 0], [n % 256, n / 256], [255 - n % 256, 255 - n / 256];
    OneByte(a[0]);
    HeaderParts(last, n, chunk);
    BytesBitsConcat(a, b + (c + chunk));
    BytesBitsConcat(b, c + chunk);
    BytesBitsConcat(c, chunk);
  }

  lemma HeaderParts(last: bool, n: nat, chunk: seq<byte>)
    requires n <= 32767
    ensures StoredHeader(last, n) + chunk == [if last then 1 else 0] +
            ([n % 256, n / 256] + ([255 - n % 256, 255 - n / 256] + chunk))
  {
  }

  lemma OneByte(b: byte)
    ensures BytesBits([b]) == LsbBits(b, 8)
  {
    hide LsbBits;
    assert [b][..0] == [];
  }

  lemma {:induction false} StoredStep(bits: seq<bool>, pos: nat, out: seq<byte>, p: nat, out': seq<byte>)
    requires pos + 3 <= |bits| && LsbValue(bits[pos + 1..pos + 3]) == 0 &&
             InflateStored(bits, pos + 3, out) == Some((out', p)) && pos < p <= |bits|
    ensures InflateBlocks(bits, pos, out) == if bits[pos] then Some((out', p)) else InflateBlocks(bits, p, out')
  {
    hide LsbValue, InflateStored, InflateFixed;
  }

  /** The decoder reads all stored blocks back. */
  lemma {:induction false} DecodeStored(bits: seq<bool>, pos: nat, data: seq<byte>, j: nat)
    requires j < |data| && pos % 8 == 0 && pos + 8 * |StoredFrom(data, j)| <= |bits|
    requires bits[pos..pos + 8 * |StoredFrom(data, j)|] == BytesBits(StoredFrom(data, j))
    ensures InflateBlocks(bits, pos, data[..j]) == Some((data, pos + 8 * |StoredFrom(data, j)|))
    decreases |data| - j
  {
    hide BytesBits, StoredHeader, InflateBlocks, InflateStored, LsbValue, BlockLength;
    var n := BlockLength(data, j);
    var last := |data| - j == n;
    var chunk, rest := data[j..j + n], StoredFrom(data, j + n);
    var front := StoredHeader(last, n) + chunk;
    assert StoredFrom(data, j) == front + rest;
    BytesBitsConcat(front, rest);
    var w := BytesBits(front) + BytesBits(rest);
    SubSlice(bits, pos, w, 0, 8 * |front|);
    SubSlice(bits, pos, w, 8 * |front|, |w|);
    DecodeStoredBlock(bits, pos, data[..j], last, chunk);
    assert data[..j] + chunk == data[..j + n];
    StoredStep(bits, pos, data[..j], pos + 40 + 8 * n, data[..j + n]);
    if last {
      assert data[..j + n] == data && rest == [];
    } else {
      DecodeStored(bits, pos + 40 + 8 * n, data, j + n);
    }
  }

  // ---------------------------------------------------------------- the container

  /** The checksum as four bytes, most significant first. */
  function AdlerBytes(data: seq<byte>): (r: seq<byte>)
    ensures |r| == 4
  {
    var (a, b) := Adler(data);
    [b / 256, b % 256, a / 256, a % 256]
  }

  /** Compression method 8 with a window of at most 32K, no preset dictionary, and a header that is a multiple of 31. */
  predicate HeaderOK(cmf: byte, flg: byte) {
    cmf % 16 == 8 && cmf / 16 <= 7 && (cmf * 256 + flg) % 31 == 0 && flg / 32 % 2 == 0
  }

  /** Section 2.2 of RFC 1950: header, compressed data up to a byte boundary, checksum, and nothing after it. */
  function Decompress(bytes: seq<byte>): Option<seq<byte>> {
    if |bytes| < 2 || !HeaderOK(bytes[0], bytes[1]) then None
    else
      match InflateBlocks(BytesBits(bytes), 16, [])
      case None => None
      case Some((out, p)) =>
        var q := Align(p) / 8;
        if q + 4 == |bytes| && bytes[q..] == AdlerBytes(out) then Some(out) else None
  }

  lemma AlignUp(p: nat, m: nat)
    requires p <= 8 * m < p + 8
    ensures Align(p) == 8 * m
  {
  }

  lemma {:induction false} DecompressFrom(head: seq<byte>, data: seq<byte>, p: nat)
    requires |head| >= 2 && head[0] == 0x78 && head[1] == 0x5e
    requires InflateBlocks(BytesBits(head + AdlerBytes(data)), 16, []) == Some((data, p)) && p <= 8 * |head| < p + 8
    ensures Decompress(head + AdlerBytes(data)) == Some(data)
  {
    hide BytesBits, InflateBlocks, AdlerBytes, Align;
    AlignUp(p, |head|);
    assert (head + AdlerBytes(data))[|head|..] == AdlerBytes(data);
  }

  lemma StreamBits(w: Writer)
    requires w.Valid()
    ensures |w.Stream()| == 8 * |w.out| + w.bitcount
  {
  }

  /** Zero bits up to the next byte boundary. */
  method Pad(w: Writer)
    requires w.Valid()
    modifies w
    ensures w.Valid() && w.bitcount == 0 && old(w.out) <= w.out
    ensures old(w.Stream()) <= w.Stream() && |w.Stream()| < |old(w.Stream())| + 8
  {
    hide Pow2, LsbBits, BytesBits;
    ghost var start := w.Stream();
    StreamBits(w);
    while w.bitcount != 0
      invariant w.Valid() && start <= w.Stream() && old(w.out) <= w.out
      invariant |w.Stream()| == 8 * |w.out| + w.bitcount
      invariant |w.Stream()| < |start| + 8
      invariant w.bitcount != 0 ==> (|start| + 7) / 8 * 8 > |w.Stream()|
      decreases |start| + 8 - |w.Stream()|
    {
      ZeroFits();
      w.Add(0, 1);
      StreamBits(w);
    }
  }

  lemma ZeroFits()
    ensures 0 < Pow2(1)
  {
  }

  /** The compressed form: header bytes, one final block with fixed codes, padding. */
  lemma {:induction false} FixedDecompresses(out: seq<byte>, data: seq<byte>, tokens: seq<Token>)
    requires |out| >= 2 && out[0] == 0x78 && out[1] == 0x5e && Expand(tokens) == Some(data)
    requires var block := [true] + LsbBits(1, 2) + Encode(tokens) + EncodeSymbol(256);
      BytesBits([0x78, 0x5e]) + block <= BytesBits(out) && 8 * |out| < 16 + |block| + 8
    ensures Decompress(out + AdlerBytes(data)) == Some(data)
  {
    hide BytesBits, LsbBits, Encode, EncodeSymbol, Expand, InflateBlocks, Decompress, AdlerBytes;
    var block := [true] + LsbBits(1, 2) + Encode(tokens) + EncodeSymbol(256);
    EndLength();
    BytesBitsConcat(out, AdlerBytes(data));
    var bits := BytesBits(out + AdlerBytes(data));
    assert bits[16..16 + |block|] == block;
    DecodeFixedBlock(bits, 16, tokens);
    DecompressFrom(out, data, 16 + |block|);
  }

  /** The stored form. */
  lemma {:induction false} StoredDecompresses(data: seq<byte>)
    requires data != []
    ensures Decompress([0x78, 0x5e] + StoredFrom(data, 0) + AdlerBytes(data)) == Some(data)
  {
    hide BytesBits, InflateBlocks, Decompress, AdlerBytes, StoredFrom;
    var head: seq<byte> := [0x78, 0x5e];
    var body := StoredFrom(data, 0);
    BytesBitsConcat(head + body, AdlerBytes(data));
    BytesBitsConcat(head, body);
    var bits := BytesBits(head + body + AdlerBytes(data));
    assert bits[16..16 + 8 * |body|] == BytesBits(body);
    assert data[..0] == [];
    DecodeStored(bits, 16, data, 0);
    DecompressFrom(head + body, data, 16 + 8 * |body|);
  }

  /** Header bytes and the header bits of a final block with fixed codes. */
  method Start() returns (w: Writer)
    ensures fresh(w) && w.Valid() && [0x78, 0x5e] <= w.out &&
            w.Stream() == BytesBits([0x78, 0x5e]) + ([true] + LsbBits(1, 2))
  {
    hide Pow2, LsbBits, BytesBits;
    w := new Writer();
    w.Push(0x78);
    w.Push(0x5e);
    assert w.out == [0x78, 0x5e];
    HeaderBits(w);
    OneFits();
    w.Add(1, 1);
    w.Add(1, 2);
  }

  /** Header, block and padding; starts with the two header bytes. */
  method CompressFixed(data: seq<byte>, quality: nat, zhash: (byte, byte, byte) -> nat) returns (out: seq<byte>)
    requires quality >= 5
    ensures |out| > 2 && out[..2] == [0x78, 0x5e] && Decompress(out + AdlerBytes(data)) == Some(data)
  {
    hide Pow2, LsbBits, BytesBits, Encode, EncodeSymbol, Expand, Decompress, AdlerBytes;
    var w := Start();
    ghost var tokens := Tokenize(w, data, quality, zhash);
    AddSymbol(w, 256);
    ghost var block := [true] + LsbBits(1, 2) + Encode(tokens) + EncodeSymbol(256);
    assert w.Stream() == BytesBits([0x78, 0x5e]) + block;
    Pad(w);
    out := w.out;
    StreamBits(w);
    HeaderBits(w);
    FixedDecompresses(out, data, tokens);
  }

  lemma HeaderBits(w: Writer)
    requires w.Valid() && w.bitcount == 0
    ensures w.Stream() == BytesBits(w.out)
  {
    assert LsbBits(w.bitbuf, 0) == [];
  }

  lemma OneFits()
    ensures 1 < Pow2(1) && 1 < Pow2(2) && LsbBits(1, 1) == [true]
  {
    SmallPowers();
  }

  lemma ChecksumBytes(data: seq<byte>, s1: nat, s2: nat)
    requires (s1, s2) == Adler(data)
    ensures AdlerBytes(data) == [s2 / 256 % 256, s2 % 256, s1 / 256 % 256, s1 % 256]
    ensures s1 / 256 % 256 == s1 / 256 && s2 / 256 % 256 == s2 / 256
  {
  }

  /** For empty data no block is stored, and the decoder finds none. */
  lemma NoBlock()
    ensures Decompress([0x78, 0x5e, 0, 0, 0, 1]) == None
  {
    hide BytesBits, LsbBits, InflateFixed, InflateStored;
    var bytes: seq<byte> := [0x78, 0x5e, 0, 0, 0, 1];
    var bits := BytesBits(bytes);
    assert bytes == [0x78, 0x5e] + [0, 0, 0, 1];
    BytesBitsConcat([0x78, 0x5e], [0, 0, 0, 1]);
    assert [0, 0, 0, 1] == [0] + [0, 0, 1];
    BytesBitsConcat([0], [0, 0, 1]);
    OneByte(0);
    StoredFlags(false);
    assert bits[16..24] == LsbBits(0, 8);
    assert bits[17..19] == bits[16..24][1..3];
    ShortStored(bits);
  }

  lemma ShortStored(bits: seq<bool>)
    requires |bits| == 48
    ensures InflateStored(bits, 19, []) == None
  {
    assert Align(19) == 24;
  }

  lemma EmptySums()
    ensures Adler([]) == (1, 0) && StoredFrom([], 0) == []
  {
  }

  /** The smaller of the compressed and the stored form, without checksum; a tie goes to the compressed one. */
  method CompressBody(data: seq<byte>, quality: int, zhash: (byte, byte, byte) -> nat) returns (body: seq<byte>)
    ensures |body| >= 2 && body[0] == 0x78 && body[1] == 0x5e
    ensures data != [] ==> Decompress(body + AdlerBytes(data)) == Some(data)
    ensures data == [] ==> body == [0x78, 0x5e]
  {
    hide Decompress, AdlerBytes, Adler, StoredFrom;
    var q := if quality < 5 then 5 else quality;
    body := CompressFixed(data, q, zhash);
    assert body[0] == body[..2][0] && body[1] == body[..2][1];
    if |body| > |data| + 2 + (|data| + 32766) / 32767 * 5 {
      body := StoreInstead(body, data);
      if data != [] {
        StoredDecompresses(data);
      } else {
        EmptySums();
      }
    }
  }

  /**
   * Whatever quality and hash function, decompressing the result gives the data back, unless there is none:
   * then the result has no block at all. Header and checksum are those of section 2.2 of RFC 1950.
   */
  method Compress(data: seq<byte>, quality: int, zhash: (byte, byte, byte) -> nat) returns (out: seq<byte>)
    ensures Decompress(out) == Some(data) <==> data != []
    ensures data == [] ==> out == [0x78, 0x5e, 0, 0, 0, 1] && Decompress(out) == None
    ensures |out| >= 6 && out[0] == 0x78 && out[1] == 0x5e
    ensures var n, s1, s2 := |out|, (1 + Sum(data)) % 65521, (|data| + Sum(Weighted(data))) % 65521;
            out[n - 4] == s2 / 256 && out[n - 3] == s2 % 256 && out[n - 2] == s1 / 256 && out[n - 1] == s1 % 256
  {
    hide Decompress, AdlerBytes, Adler, StoredFrom, Sum, Weighted;
    out := CompressBody(data, quality, zhash);
    ghost var body := out;
    var s1, s2 := Adler32(data);
    ChecksumBytes(data, s1, s2);
    out := out + [s2 / 256 % 256];
    out := out + [s2 % 256];
    out := out + [s1 / 256 % 256];
    out := out + [s1 % 256];
    assert out == body + AdlerBytes(data);
    if data == [] {
      EmptySums();
      NoBlock();
      assert out == [0x78, 0x5e, 0, 0, 0, 1];
    }
  }
}
