/**
  What the compressor writes: literals and matches under the fixed Huffman code,
  and the proof that the decoder reads them back.
 */
module Deflate {
  import opened Arith
  import opened Bits
  import opened Inflate
  import opened Options
  import opened Sequences

  /** Code and length of a literal/length symbol, as the default tables of the compressor have them. */
  function HuffCode(sym: nat): (nat, nat)
    requires sym <= 287
  {
    if sym <= 143 then (0x30 + sym, 8)
    else if sym <= 255 then (0x190 + (sym - 144), 9)
    else if sym <= 279 then (sym - 256, 7)
    else (0xc0 + (sym - 280), 8)
  }

  function EncodeSymbol(sym: nat): seq<bool>
    requires sym <= 287
  {
    MsbBits(HuffCode(sym).0, HuffCode(sym).1)
  }

  lemma SmallPowers()
    ensures Pow2(0) == 1 && Pow2(1) == 2 && Pow2(2) == 4 && Pow2(3) == 8 && Pow2(4) == 16 && Pow2(5) == 32 &&
            Pow2(6) == 64
    ensures Pow2(7) == 128 && Pow2(8) == 256 && Pow2(9) == 512 && Pow2(10) == 1024 && Pow2(11) == 2048 &&
            Pow2(12) == 4096 && Pow2(13) == 8192
  {
    assert Pow2(3) == 8;
    assert Pow2(5) == 32;
    assert Pow2(7) == 128;
    assert Pow2(9) == 512;
    assert Pow2(11) == 2048;
  }

  /** Code lengths of the fixed code, section 3.2.6 of RFC 1951. */
  function CodeLength(sym: nat): nat {
    if sym < 144 then 8 else if sym < 256 then 9 else if sym < 280 then 7 else 8
  }

  /** How many of the symbols below sym have codes of n bits. */
  function CodesBelow(sym: nat, n: nat): nat {
    if sym == 0 then 0 else CodesBelow(sym - 1, n) + if CodeLength(sym - 1) == n then 1 else 0
  }

  /** The first code of n bits, as section 3.2.2 of RFC 1951 derives it from the code lengths. */
  function FirstCode(n: nat): nat {
    if n <= 7 then 0 else 2 * (FirstCode(n - 1) + CodesBelow(288, n - 1))
  }

  lemma {:induction false} CodesBelowForm(sym: nat)
    requires sym <= 288
    ensures CodesBelow(sym, 8) == if sym <= 144 then sym else if sym <= 280 then 144 else sym - 136
    ensures CodesBelow(sym, 9) == if sym <= 144 then 0 else if sym <= 256 then sym - 144 else 112
    ensures CodesBelow(sym, 7) == if sym <= 256 then 0 else if sym <= 280 then sym - 256 else 24
  {
    if sym > 0 {
      CodesBelowForm(sym - 1);
    }
  }

  /** The compressor's codes are those a decoder derives from the code lengths alone. */
  lemma CanonicalCode(sym: nat)
    requires sym <= 287
    ensures HuffCode(sym) == (FirstCode(CodeLength(sym)) + CodesBelow(sym, CodeLength(sym)), CodeLength(sym))
  {
    hide CodesBelow;
    CodesBelowForm(288);
    CodesBelowForm(sym);
    assert FirstCode(7) == 0;
    assert FirstCode(8) == 48;
    assert FirstCode(9) == 400;
  }

  /** The decoder's tables by rule: four length codes, or two distance codes, to every number of extra bits. */
  lemma LengthRule(j: nat)
    requires j < 29
    ensures LengthBase(j) == if j < 4 then 3 + j else if j == 28 then 258 else 3 + (4 + j % 4) * Pow2(j / 4 - 1)
    ensures LengthExtra(j) == if j < 4 || j == 28 then 0 else j / 4 - 1
  {
    hide Pow2;
    SmallPowers();
  }

  lemma DistRule(j: nat)
    requires j < 30
    ensures DistBase(j) == if j < 2 then 1 + j else 1 + (2 + j % 2) * Pow2(j / 2 - 1)
    ensures DistExtra(j) == if j < 2 then 0 else j / 2 - 1
  {
    hide Pow2;
    SmallPowers();
  }

  lemma HuffCodeFits(sym: nat)
    requires sym <= 287
    ensures HuffCode(sym).0 < Pow2(HuffCode(sym).1) && 7 <= HuffCode(sym).1 <= 9
  {
    SmallPowers();
    hide Pow2;
  }

  /** Dropping the last bit of a code halves its value. */
  lemma MsbPrefix(v: nat, n: nat)
    requires n > 0 && v < Pow2(n)
    ensures MsbBits(v, n)[..n - 1] == MsbBits(v / 2, n - 1) && v / 2 < Pow2(n - 1)
  {
  }

  /** Values of a code and of its prefixes. */
  lemma CodeValues(bits: seq<bool>, pos: nat, code: nat, n: nat)
    requires n > 0 && code < Pow2(n) && pos + n <= |bits| && bits[pos..pos + n] == MsbBits(code, n)
    ensures MsbValue(bits[pos..pos + n]) == code
    ensures bits[pos..pos + n - 1] == MsbBits(code / 2, n - 1) && code / 2 < Pow2(n - 1) &&
            MsbValue(bits[pos..pos + n - 1]) == code / 2
  {
    MsbRoundTrip(code, n);
    MsbPrefix(code, n);
    MsbRoundTrip(code / 2, n - 1);
    assert bits[pos..pos + n - 1] == bits[pos..pos + n][..n - 1];
  }

  lemma Decode7(bits: seq<bool>, pos: nat, code: nat)
    requires code <= 23 && pos + 7 <= |bits| && bits[pos..pos + 7] == MsbBits(code, 7)
    ensures DecodeSymbol(bits, pos) == Some((256 + code, pos + 7))
  {
    SmallPowers();
    CodeValues(bits, pos, code, 7);
  }

  lemma Decode8(bits: seq<bool>, pos: nat, code: nat)
    requires 48 <= code <= 199 && pos + 8 <= |bits| && bits[pos..pos + 8] == MsbBits(code, 8)
    ensures DecodeSymbol(bits, pos) == Some((if code <= 191 then code - 48 else 280 + (code - 192), pos + 8))
  {
    SmallPowers();
    CodeValues(bits, pos, code, 8);
    hide MsbValue, MsbBits, Pow2;
  }

  lemma Decode9(bits: seq<bool>, pos: nat, code: nat)
    requires 400 <= code <= 511 && pos + 9 <= |bits| && bits[pos..pos + 9] == MsbBits(code, 9)
    ensures DecodeSymbol(bits, pos) == Some((144 + (code - 400), pos + 9))
  {
    SmallPowers();
    CodeValues(bits, pos, code, 9);
    CodeValues(bits, pos, code / 2, 8);
    hide MsbValue, MsbBits, Pow2;
  }

  /** The decoder reads every symbol back. */
  lemma DecodeEncoded(bits: seq<bool>, pos: nat, sym: nat)
    requires sym <= 287 && pos + HuffCode(sym).1 <= |bits| && bits[pos..pos + HuffCode(sym).1] == EncodeSymbol(sym)
    ensures DecodeSymbol(bits, pos) == Some((sym, pos + HuffCode(sym).1))
  {
    hide DecodeSymbol, MsbBits;
    var code := HuffCode(sym).0;
    if 256 <= sym <= 279 {
      Decode7(bits, pos, code);
    } else if 144 <= sym <= 255 {
      Decode9(bits, pos, code);
    } else {
      Decode8(bits, pos, code);
    }
  }

  // ---------------------------------------------------------------- lengths and distances

  /** Tables of the compressor; those of bases are closed by a sentinel. */
  function LengthTable(): (t: seq<nat>)
    ensures |t| == 30 && t[0] == 3 && t[29] == 259
  {
    [3, 4, 5, 6, 7, 8, 9, 10, 11, 13, 15, 17, 19, 23, 27, 31, 35, 43, 51, 59, 67, 83, 99, 115, 131, 163, 195, 227, 258,
      259]
  }

  function DistTable(): (t: seq<nat>)
    ensures |t| == 31 && t[0] == 1 && t[30] == 32768
  {
    [1, 2, 3, 4, 5, 7, 9, 13, 17, 25, 33, 49, 65, 97, 129, 193, 257, 385, 513, 769,
     1025, 1537, 2049, 3073, 4097, 6145, 8193, 12289, 16385, 24577, 32768]
  }

  function LengthC(j: nat): nat requires j < 30 { LengthTable()[j] }
  function DistC(j: nat): nat requires j < 31 { DistTable()[j] }

  function LengthEb(j: nat): nat
    requires j < 29
  {
    [0, 0, 0, 0, 0, 0, 0, 0, 1, 1, 1, 1, 2, 2, 2, 2, 3, 3, 3, 3, 4, 4, 4, 4, 5, 5, 5, 5, 0][j]
  }

  function DistEb(j: nat): nat
    requires j < 30
  {
    [0, 0, 0, 0, 1, 1, 2, 2, 3, 3, 4, 4, 5, 5, 6, 6, 7, 7, 8, 8, 9, 9, 10, 10, 11, 11, 12, 12, 13, 13][j]
  }

  /** The first index from j on whose successor exceeds v. */
  function Search(table: seq<nat>, v: nat, j: nat): (k: nat)
    requires j + 1 < |table| && v < table[|table| - 1] && table[j] <= v
    ensures j <= k && k + 1 < |table| && table[k] <= v < table[k + 1]
    decreases |table| - j
  {
    if v > table[j + 1] as int - 1 then Search(table, v, j + 1) else j
  }

  /** Every gap in the tables is covered by the extra bits of its code, and the tables are those of the decoder. */
  lemma LengthGaps(j: nat)
    requires j < 29
    ensures LengthC(j + 1) - LengthC(j) <= Pow2(LengthEb(j)) && LengthEb(j) <= 5
    ensures LengthC(j) == LengthBase(j) && LengthEb(j) == LengthExtra(j)
  {
    hide Pow2;
    SmallPowers();
    LengthTables(j);
    hide LengthBase, LengthExtra;
  }

  lemma LengthTables(j: nat)
    requires j < 29
    ensures LengthC(j) == LengthBase(j) && LengthEb(j) == LengthExtra(j)
  {
  }

  lemma DistGaps(j: nat)
    requires j < 30
    ensures DistC(j + 1) - DistC(j) <= Pow2(DistEb(j)) && DistEb(j) <= 13
    ensures DistC(j) == DistBase(j) && DistEb(j) == DistExtra(j)
  {
    hide Pow2;
    SmallPowers();
    DistTables(j);
    hide DistBase, DistExtra;
  }

  lemma DistTables(j: nat)
    requires j < 30
    ensures DistC(j) == DistBase(j) && DistEb(j) == DistExtra(j)
  {
  }

  function LengthCode(len: nat): (k: nat)
    requires 3 <= len <= 258
    ensures k < 29 && LengthC(k) <= len < LengthC(k + 1)
  {
    Search(LengthTable(), len, 0)
  }

  function DistCode(dist: nat): (k: nat)
    requires 1 <= dist <= 32767
    ensures k < 30 && DistC(k) <= dist < DistC(k + 1)
  {
    Search(DistTable(), dist, 0)
  }

  function EncodeLength(len: nat): seq<bool>
    requires 3 <= len <= 258
  {
    EncodeSymbol(LengthCode(len) + 257) + LsbBits(len - LengthC(LengthCode(len)), LengthEb(LengthCode(len)))
  }

  function EncodeDist(dist: nat): seq<bool>
    requires 1 <= dist <= 32767
  {
    MsbBits(DistCode(dist), 5) + LsbBits(dist - DistC(DistCode(dist)), DistEb(DistCode(dist)))
  }

  function EncodeMatch(len: nat, dist: nat): seq<bool>
    requires 3 <= len <= 258 && 1 <= dist <= 32767
  {
    EncodeLength(len) + EncodeDist(dist)
  }

  /** The decoder reads the length and distance of every match back. */
  lemma DecodeMatchEncoded(bits: seq<bool>, pos: nat, len: nat, dist: nat)
    requires 3 <= len <= 258 && 1 <= dist <= 32767
    requires pos + |EncodeMatch(len, dist)| <= |bits| &&
             bits[pos..pos + |EncodeMatch(len, dist)|] == EncodeMatch(len, dist)
    ensures var p := pos + HuffCode(LengthCode(len) + 257).1;
      && DecodeSymbol(bits, pos) == Some((LengthCode(len) + 257, p)) && p <= |bits|
      && DecodeMatch(bits, p, LengthCode(len) + 257) == Some((len, dist, pos + |EncodeMatch(len, dist)|))
  {
    hide LengthCode, DistCode, Pow2, MsbBits, LsbBits, HuffCode, LengthC, LengthEb, DistC, DistEb, LengthBase,
        LengthExtra, DistBase, DistExtra;
    hide LsbValue, MsbValue, DecodeSymbol, DecodeMatch;
    var j, k := LengthCode(len), DistCode(dist);
    LengthGaps(j);
    DistGaps(k);
    SmallPowers();
    var s, x, d, y := EncodeSymbol(j + 257), LsbBits(len - LengthC(j), LengthEb(j)), MsbBits(k, 5),
        LsbBits(dist - DistC(k), DistEb(k));
    assert EncodeMatch(len, dist) == s + x + d + y;
    Quarters(bits, pos, s, x, d, y);
    DecodeEncoded(bits, pos, j + 257);
    LsbRoundTrip(len - LengthC(j), LengthEb(j));
    MsbRoundTrip(k, 5);
    LsbRoundTrip(dist - DistC(k), DistEb(k));
    MatchParts(bits, pos + |s|, j, k, len - LengthC(j), dist - DistC(k));
  }

  lemma MatchParts(bits: seq<bool>, p: nat, j: nat, k: nat, lx: nat, dx: nat)
    requires j < 29 && k < 30 && p + LengthExtra(j) + 5 + DistExtra(k) <= |bits|
    requires LsbValue(bits[p..p + LengthExtra(j)]) == lx &&
             MsbValue(bits[p + LengthExtra(j)..p + LengthExtra(j) + 5]) == k
    requires LsbValue(bits[p + LengthExtra(j) + 5..p + LengthExtra(j) + 5 + DistExtra(k)]) == dx
    ensures DecodeMatch(bits, p, j + 257) ==
            Some((LengthBase(j) + lx, DistBase(k) + dx, p + LengthExtra(j) + 5 + DistExtra(k)))
  {
    hide LsbValue, MsbValue, LengthBase, LengthExtra, DistBase, DistExtra;
  }

  // ---------------------------------------------------------------- tokens

  datatype Token = Literal(b: byte) | Match(len: nat, dist: nat)

  predicate TokenOK(t: Token, produced: nat) {
    t.Match? ==> 3 <= t.len <= 258 && 1 <= t.dist <= 32767 && t.dist <= produced
  }

  function EncodeToken(t: Token): seq<bool>
    requires t.Match? ==> 3 <= t.len <= 258 && 1 <= t.dist <= 32767
  {
    match t
    case Literal(b) => EncodeSymbol(b)
    case Match(len, dist) => EncodeMatch(len, dist)
  }

  function ApplyToken(out: seq<byte>, t: Token): seq<byte>
    requires TokenOK(t, |out|)
  {
    match t
    case Literal(b) => out + [b]
    case Match(len, dist) => CopyMatch(out, len, dist)
  }

  lemma {:induction false} StepLiteral(bits: seq<bool>, pos: nat, out: seq<byte>, b: byte, p: nat)
    requires DecodeSymbol(bits, pos) == Some((b, p))
    ensures InflateFixed(bits, pos, out) == InflateFixed(bits, p, out + [b])
  {
    hide DecodeSymbol;
  }

  lemma {:induction false} StepMatch(bits: seq<bool>, pos: nat, out: seq<byte>, sym: nat, p: nat, len: nat, dist: nat,
                                     q: nat)
    requires DecodeSymbol(bits, pos) == Some((sym, p)) && 257 <= sym && p <= |bits|
    requires DecodeMatch(bits, p, sym) == Some((len, dist, q)) && 1 <= dist <= |out|
    ensures InflateFixed(bits, pos, out) == InflateFixed(bits, q, CopyMatch(out, len, dist))
  {
    hide DecodeSymbol, DecodeMatch, CopyMatch;
  }

  lemma {:induction false} DecodeLiteralToken(bits: seq<bool>, pos: nat, out: seq<byte>, b: byte)
    requires pos + |EncodeSymbol(b)| <= |bits| && bits[pos..pos + |EncodeSymbol(b)|] == EncodeSymbol(b)
    ensures InflateFixed(bits, pos, out) == InflateFixed(bits, pos + |EncodeSymbol(b)|, out + [b])
  {
    hide DecodeSymbol, MsbBits, InflateFixed, HuffCode;
    DecodeEncoded(bits, pos, b);
    StepLiteral(bits, pos, out, b, pos + HuffCode(b).1);
  }

  lemma {:induction false} DecodeMatchToken(bits: seq<bool>, pos: nat, out: seq<byte>, len: nat, dist: nat)
    requires 3 <= len <= 258 && 1 <= dist <= 32767 && dist <= |out|
    requires pos + |EncodeMatch(len, dist)| <= |bits| &&
             bits[pos..pos + |EncodeMatch(len, dist)|] == EncodeMatch(len, dist)
    ensures InflateFixed(bits, pos, out) ==
            InflateFixed(bits, pos + |EncodeMatch(len, dist)|, CopyMatch(out, len, dist))
  {
    hide DecodeSymbol, DecodeMatch, EncodeMatch, CopyMatch, LengthCode, HuffCode, InflateFixed;
    DecodeMatchEncoded(bits, pos, len, dist);
    var sym := LengthCode(len) + 257;
    StepMatch(bits, pos, out, sym, pos + HuffCode(sym).1, len, dist, pos + |EncodeMatch(len, dist)|);
  }

  /** One token takes the decoder from the position before it to the position after it. */
  lemma {:induction false} DecodeToken(bits: seq<bool>, pos: nat, out: seq<byte>, t: Token)
    requires TokenOK(t, |out|) && pos + |EncodeToken(t)| <= |bits| &&
             bits[pos..pos + |EncodeToken(t)|] == EncodeToken(t)
    ensures InflateFixed(bits, pos, out) == InflateFixed(bits, pos + |EncodeToken(t)|, ApplyToken(out, t))
  {
    hide EncodeMatch, EncodeSymbol, CopyMatch, InflateFixed;
    match t {
      case Literal(b) =>
        DecodeLiteralToken(bits, pos, out, b);
      case Match(len, dist) =>
        DecodeMatchToken(bits, pos, out, len, dist);
    }
  }

  /** Byte j repeats the byte dist before it. */
  ghost predicate Echo(data: seq<byte>, j: int, dist: nat) {
    0 <= j - dist && j < |data| && data[j] == data[j - dist]
  }

  /** A match is a repeat of what already stands dist bytes earlier, overlapping or not. */
  lemma {:induction false} CopyRepeats(data: seq<byte>, i: nat, len: nat, dist: nat)
    requires 1 <= dist <= i && i + len <= |data|
    requires forall j {:trigger Echo(data, j, dist)} :: i <= j < i + len ==> Echo(data, j, dist)
    ensures CopyMatch(data[..i], len, dist) == data[..i + len]
    decreases len
  {
    if len > 0 {
      assert Echo(data, i, dist);
      assert data[..i] + [data[i - dist]] == data[..i + 1];
      CopyRepeats(data, i + 1, len - 1, dist);
    }
  }

  /** The bytes a token string stands for, or None when a match reaches back too far. */
  function Expand(tokens: seq<Token>): Option<seq<byte>> {
    if tokens == [] then Some([])
    else
      match Expand(tokens[..|tokens| - 1])
      case None => None
      case Some(out) => if TokenOK(tokens[|tokens| - 1], |out|) then Some(ApplyToken(out, tokens[|tokens| - 1]))
          else None
  }

  function Encode(tokens: seq<Token>): seq<bool>
    requires Expand(tokens).Some?
  {
    if tokens == [] then [] else Encode(tokens[..|tokens| - 1]) + EncodeToken(tokens[|tokens| - 1])
  }

  lemma {:induction false} ExpandMore(tokens: seq<Token>, t: Token)
    requires Expand(tokens).Some? && TokenOK(t, |Expand(tokens).value|)
    ensures Expand(tokens + [t]) == Some(ApplyToken(Expand(tokens).value, t))
    ensures Encode(tokens + [t]) == Encode(tokens) + EncodeToken(t)
  {
    assert (tokens + [t])[..|tokens|] == tokens;
  }

  /** The decoder turns an encoded token string into the bytes it stands for. */
  lemma {:induction false} DecodeTokens(bits: seq<bool>, pos: nat, tokens: seq<Token>)
    requires Expand(tokens).Some? && pos + |Encode(tokens)| <= |bits| &&
             bits[pos..pos + |Encode(tokens)|] == Encode(tokens)
    ensures InflateFixed(bits, pos, []) == InflateFixed(bits, pos + |Encode(tokens)|, Expand(tokens).value)
  {
    hide InflateFixed, EncodeToken, ApplyToken;
    if tokens != [] {
      var init, t := tokens[..|tokens| - 1], tokens[|tokens| - 1];
      var a, b := Encode(init), EncodeToken(t);
      assert Encode(tokens) == a + b;
      Halves(bits, pos, a, b);
      DecodeTokens(bits, pos, init);
      DecodeToken(bits, pos + |a|, Expand(init).value, t);
    }
  }

  /** A final block: header bits, tokens, end of block, and whatever pads the last byte. */
  lemma {:induction false} DecodeFixedBlock(bits: seq<bool>, pos: nat, tokens: seq<Token>)
    requires Expand(tokens).Some?
    requires var block := [true] + LsbBits(1, 2) + Encode(tokens) + EncodeSymbol(256);
      pos + |block| <= |bits| && bits[pos..pos + |block|] == block
    ensures InflateBlocks(bits, pos, []) == Some((Expand(tokens).value, pos + 3 + |Encode(tokens)| + 7))
  {
    hide LsbBits, InflateFixed, Encode, EncodeSymbol, Expand;
    var h, e, f := [true] + LsbBits(1, 2), Encode(tokens), EncodeSymbol(256);
    var block := h + e + f;
    EndLength();
    SubSlice(bits, pos, block, 0, 3);
    SubSlice(bits, pos, block, 3, 3 + |e|);
    SubSlice(bits, pos, block, 3 + |e|, |block|);
    assert block[0..3] == h && block[3..3 + |e|] == e && block[3 + |e|..] == f;
    FixedHeader(bits, pos);
    DecodeTokens(bits, pos + 3, tokens);
    StepEnd(bits, pos + 3 + |e|, Expand(tokens).value);
    LastFixed(bits, pos);
  }

  lemma FixedHeader(bits: seq<bool>, pos: nat)
    requires pos + 3 <= |bits| && bits[pos..pos + 3] == [true] + LsbBits(1, 2)
    ensures bits[pos] && LsbValue(bits[pos + 1..pos + 3]) == 1
  {
    SmallPowers();
    LsbRoundTrip(1, 2);
    assert bits[pos] == bits[pos..pos + 3][0];
    assert bits[pos + 1..pos + 3] == bits[pos..pos + 3][1..] == LsbBits(1, 2);
  }

  lemma {:induction false} LastFixed(bits: seq<bool>, pos: nat)
    requires pos + 3 <= |bits| && bits[pos] && LsbValue(bits[pos + 1..pos + 3]) == 1
    ensures InflateBlocks(bits, pos, []) == InflateFixed(bits, pos + 3, [])
  {
    hide InflateFixed, LsbValue;
  }

  lemma EndLength()
    ensures |EncodeSymbol(256)| == 7
  {
  }

  lemma {:induction false} StepEnd(bits: seq<bool>, pos: nat, out: seq<byte>)
    requires pos + 7 <= |bits| && bits[pos..pos + 7] == EncodeSymbol(256)
    ensures InflateFixed(bits, pos, out) == Some((out, pos + 7))
  {
    DecodeEncoded(bits, pos, 256);
    hide DecodeSymbol, MsbBits;
  }
}
