/**
  The decoder that the compressor is measured against: sections 3.2.3 to 3.2.6 of
  RFC 1951 for stored blocks and for blocks with the fixed Huffman codes.
 */
module Inflate {
  import opened Arith
  import opened Bits
  import opened Options

  /** Length codes 257..285 and distance codes 0..29 of section 3.2.5: base values and numbers of extra bits. */
  function LengthBase(j: nat): nat
    requires j < 29
  {
    [3, 4, 5, 6, 7, 8, 9, 10, 11, 13, 15, 17, 19, 23, 27, 31, 35, 43, 51, 59, 67, 83, 99, 115, 131, 163, 195, 227,
      258][j]
  }

  function LengthExtra(j: nat): nat
    requires j < 29
  {
    if j < 8 || j == 28 then 0 else (j - 4) / 4
  }

  function DistBase(j: nat): nat
    requires j < 30
  {
    [1, 2, 3, 4, 5, 7, 9, 13, 17, 25, 33, 49, 65, 97, 129, 193, 257, 385, 513, 769,
     1025, 1537, 2049, 3073, 4097, 6145, 8193, 12289, 16385, 24577][j]
  }

  function DistExtra(j: nat): nat
    requires j < 30
  {
    if j < 4 then 0 else (j - 2) / 2
  }

  /** The symbol at pos under the fixed code of section 3.2.6, and the position after it. */
  function DecodeSymbol(bits: seq<bool>, pos: nat): (r: Option<(nat, nat)>)
    ensures r.Some? ==> pos < r.value.1 <= |bits|
  {
    if pos + 7 > |bits| then None
    else
      var v7 := MsbValue(bits[pos..pos + 7]);
      if v7 <= 23 then Some((256 + v7, pos + 7))
      else if pos + 8 > |bits| then None
      else
        var v8 := MsbValue(bits[pos..pos + 8]);
        if 48 <= v8 <= 191 then Some((v8 - 48, pos + 8))
        else if 192 <= v8 <= 199 then Some((280 + (v8 - 192), pos + 8))
        else if pos + 9 > |bits| then None
        else
          var v9 := MsbValue(bits[pos..pos + 9]);
          if 400 <= v9 <= 511 then Some((144 + (v9 - 400), pos + 9)) else None
  }

  /** Repeats len bytes starting dist bytes back; the copy may overlap what it writes. */
  function CopyMatch(out: seq<byte>, len: nat, dist: nat): (r: seq<byte>)
    requires 1 <= dist <= |out|
    ensures |r| == |out| + len
    decreases len
  {
    if len == 0 then out else CopyMatch(out + [out[|out| - dist]], len - 1, dist)
  }

  /** Every byte copied is the one dist places before it. */
  lemma {:induction false} CopiedBytes(out: seq<byte>, len: nat, dist: nat)
    requires 1 <= dist <= |out|
    ensures var r := CopyMatch(out, len, dist);
            r[..|out|] == out && forall i :: |out| <= i < |r| ==> r[i] == r[i - dist]
    decreases len
  {
    if len > 0 {
      var out' := out + [out[|out| - dist]];
      CopiedBytes(out', len - 1, dist);
      var r := CopyMatch(out, len, dist);
      assert r[..|out|] == r[..|out'|][..|out|];
      assert r[|out|] == r[..|out'|][|out|] && r[|out| - dist] == r[..|out'|][|out| - dist];
    }
  }

  /** n extra bits at pos, least significant first. */
  function ExtraBits(bits: seq<bool>, pos: nat, n: nat): Option<nat> {
    if pos + n > |bits| then None else Some(LsbValue(bits[pos..pos + n]))
  }

  /** The length and distance that length symbol sym starts, and the position after them. */
  function DecodeMatch(bits: seq<bool>, pos: nat, sym: nat): (r: Option<(nat, nat, nat)>)
    requires sym >= 257 && pos <= |bits|
    ensures r.Some? ==> pos <= r.value.2 <= |bits|
  {
    if sym > 285 then None
    else
      var eb := LengthExtra(sym - 257);
      match ExtraBits(bits, pos, eb)
      case None => None
      case Some(lx) =>
        var p := pos + eb;
        if p + 5 > |bits| then None
        else
          var d := MsbValue(bits[p..p + 5]);
          if d >= 30 then None
          else
            match ExtraBits(bits, p + 5, DistExtra(d))
            case None => None
            case Some(dx) => Some((LengthBase(sym - 257) + lx, DistBase(d) + dx, p + 5 + DistExtra(d)))
  }

  /** A block with the fixed codes, from its first symbol to its end-of-block symbol. */
  function InflateFixed(bits: seq<bool>, pos: nat, out: seq<byte>): (r: Option<(seq<byte>, nat)>)
    ensures r.Some? ==> pos < r.value.1 <= |bits|
    decreases |bits| - pos
  {
    match DecodeSymbol(bits, pos)
    case None => None
    case Some((sym, p)) =>
      if sym < 256 then InflateFixed(bits, p, out + [sym])
      else if sym == 256 then Some((out, p))
      else
        match DecodeMatch(bits, p, sym)
        case None => None
        case Some((len, dist, q)) =>
          if dist < 1 || dist > |out| then None else InflateFixed(bits, q, CopyMatch(out, len, dist))
  }

  lemma {:induction false} LsbValueBound(bs: seq<bool>)
    ensures LsbValue(bs) < Pow2(|bs|)
  {
    if bs != [] {
      LsbValueBound(bs[1..]);
    }
  }

  function ByteAt(bits: seq<bool>, pos: nat): byte
    requires pos + 8 <= |bits|
  {
    ByteBound(bits[pos..pos + 8]);
    LsbValue(bits[pos..pos + 8])
  }

  lemma ByteBound(bs: seq<bool>)
    requires |bs| == 8
    ensures LsbValue(bs) < 256
  {
    LsbValueBound(bs);
    assert Pow2(4) == 16;
    assert Pow2(5) == 32;
    assert Pow2(6) == 64;
    assert Pow2(7) == 128;
  }

  function BytesAt(bits: seq<bool>, pos: nat, n: nat): (r: seq<byte>)
    requires pos + 8 * n <= |bits|
    ensures |r| == n
  {
    if n == 0 then [] else BytesAt(bits, pos, n - 1) + [ByteAt(bits, pos + 8 * (n - 1))]
  }

  /** The next byte boundary. */
  function Align(pos: nat): nat { pos + (8 - pos % 8) % 8 }

  /** A stored block after its three header bits, section 3.2.4. */
  function InflateStored(bits: seq<bool>, pos: nat, out: seq<byte>): (r: Option<(seq<byte>, nat)>)
    ensures r.Some? ==> pos < r.value.1 <= |bits|
  {
    var p := Align(pos);
    if p + 32 > |bits| then None
    else
      var len, nlen := LsbValue(bits[p..p + 16]), LsbValue(bits[p + 16..p + 32]);
      if len + nlen != 65535 || p + 32 + 8 * len > |bits| then None
      else Some((out + BytesAt(bits, p + 32, len), p + 32 + 8 * len))
  }

  /** All blocks up to the final one. Blocks with dynamic codes are not decoded here. */
  function InflateBlocks(bits: seq<bool>, pos: nat, out: seq<byte>): (r: Option<(seq<byte>, nat)>)
    ensures r.Some? ==> pos < r.value.1 <= |bits|
    decreases |bits| - pos
  {
    if pos + 3 > |bits| then None
    else
      var kind := LsbValue(bits[pos + 1..pos + 3]);
      var block := if kind == 0 then InflateStored(bits, pos + 3, out)
          else if kind == 1 then InflateFixed(bits, pos + 3, out) else None;
      match block
      case None => None
      case Some((out', p)) => if bits[pos] then Some((out', p)) else InflateBlocks(bits, p, out')
  }
}
