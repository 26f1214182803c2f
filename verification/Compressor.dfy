/**
  The compressor itself: hash lists of earlier positions, greedy matching with one
  byte of lookahead, and the emission of literals and matches.
 */
module Compressor {
  import opened Arith
  import opened Bits
  import opened BitWriter
  import opened Inflate
  import opened Options
  import opened Deflate

  const ZHASH: nat := 16384
  const WINDOW: nat := 32768

  // ---------------------------------------------------------------- emission

  method AddSymbol(w: Writer, sym: nat)
    requires w.Valid() && sym <= 287
    modifies w
    ensures w.Valid() && w.Stream() == old(w.Stream()) + EncodeSymbol(sym) && old(w.out) <= w.out
  {
    HuffCodeFits(sym);
    hide Pow2, MsbBits, LsbBits;
    var (code, n) := HuffCode(sym);
    var rev := BitRev(code, n);
    w.Add(rev, n);
  }

  /** Walks a table to the entry that covers v. */
  method FindCode(table: seq<nat>, v: nat) returns (j: nat)
    requires |table| >= 2 && table[0] <= v < table[|table| - 1]
    ensures j + 1 < |table| && j == Search(table, v, 0)
  {
    j := 0;
    while v > table[j + 1] as int - 1
      invariant j + 1 < |table| && table[j] <= v && Search(table, v, j) == Search(table, v, 0)
      decreases |table| - j
    {
      j := j + 1;
    }
  }

  method AddExtra(w: Writer, v: nat, n: nat)
    requires w.Valid() && v < Pow2(n) && n <= 16
    modifies w
    ensures w.Valid() && w.Stream() == old(w.Stream()) + LsbBits(v, n) && old(w.out) <= w.out
  {
    if n != 0 {
      w.Add(v, n);
    } else {
      assert LsbBits(v, n) == [];
    }
  }

  method AddLength(w: Writer, len: nat)
    requires w.Valid() && 3 <= len <= 258
    modifies w
    ensures w.Valid() && w.Stream() == old(w.Stream()) + EncodeLength(len) && old(w.out) <= w.out
  {
    hide Pow2, LsbBits, EncodeSymbol, Search, LengthTable, LengthEb, LengthBase, LengthExtra;
    var j := FindCode(LengthTable(), len);
    assert j == LengthCode(len);
    LengthGaps(j);
    hide LengthC, LengthCode;
    AddSymbol(w, j + 257);
    AddExtra(w, len - LengthC(j), LengthEb(j));
  }

  method AddDist(w: Writer, dist: nat)
    requires w.Valid() && 1 <= dist <= 32767
    modifies w
    ensures w.Valid() && w.Stream() == old(w.Stream()) + EncodeDist(dist) && old(w.out) <= w.out
  {
    hide Pow2, LsbBits, MsbBits, Search, DistTable, DistEb;
    var k := FindCode(DistTable(), dist);
    assert k == DistCode(dist);
    DistGaps(k);
    hide DistC;
    var rev := BitRev(k, 5);
    w.Add(rev, 5);
    AddExtra(w, dist - DistC(k), DistEb(k));
  }

  method AddMatch(w: Writer, len: nat, dist: nat)
    requires w.Valid() && 3 <= len <= 258 && 1 <= dist <= 32767
    modifies w
    ensures w.Valid() && w.Stream() == old(w.Stream()) + EncodeMatch(len, dist) && old(w.out) <= w.out
  {
    hide EncodeLength, EncodeDist, Pow2, LsbBits;
    AddLength(w, len);
    AddDist(w, dist);
  }

  // ---------------------------------------------------------------- matching

  /** How many bytes from a and from b on agree, after k that do, up to 258 and to the end of the data. */
  ghost function Agreement(data: seq<byte>, a: nat, b: nat, k: nat): nat
    requires a <= b
    decreases |data| - k
  {
    if b + k < |data| && k < 258 && data[a + k] == data[b + k] then Agreement(data, a, b, k + 1) else k
  }

  /** How many bytes agree, up to the limit and to 258. */
  method CountMatch(data: seq<byte>, a: nat, b: nat, limit: nat) returns (i: nat)
    requires a <= b && b + limit == |data|
    ensures i <= limit && i <= 258 && i == Agreement(data, a, b, 0)
    ensures forall j {:trigger Echo(data, j, b - a)} :: b <= j < b + i ==> Echo(data, j, b - a)
  {
    i := 0;
    while i < limit && i < 258
      invariant i <= limit && i <= 258 && Agreement(data, a, b, i) == Agreement(data, a, b, 0)
      invariant forall j {:trigger Echo(data, j, b - a)} :: b <= j < b + i ==> Echo(data, j, b - a)
    {
      if data[a + i] != data[b + i] {
        return;
      }
      assert Echo(data, b + i, b - a);
      i := i + 1;
    }
  }

  /** A usable match for position i: len bytes that already stand dist bytes earlier. */
  ghost predicate Repeats(data: seq<byte>, i: nat, len: nat, dist: nat) {
    && 3 <= len <= 258 && 1 <= dist <= 32767 && dist <= i && i + len <= |data|
    && forall j {:trigger Echo(data, j, dist)} :: i <= j < i + len ==> Echo(data, j, dist)
  }

  /** Entry j of the list is near enough to position i and agrees with it in exactly n bytes. */
  ghost predicate Offers(data: seq<byte>, i: nat, list: seq<nat>, j: nat, n: nat) {
    j < |list| && i - WINDOW < list[j] <= i && Agreement(data, list[j], i, 0) == n
  }

  /** Among the first m entries of the list, entry k is the last of those that agree longest, in best bytes. */
  ghost predicate BestAt(data: seq<byte>, i: nat, list: seq<nat>, m: nat, best: nat, k: nat) {
    k < m && Offers(data, i, list, k, best) &&
    forall j: nat, n: nat {:trigger Offers(data, i, list, j, n)} :: j < m && Offers(data, i, list, j, n) ==>
      n <= best && (j > k ==> n < best)
  }

  /** The best match is at loc; or, if that is -1, no entry agrees in three bytes. */
  ghost predicate IsBest(data: seq<byte>, i: nat, list: seq<nat>, m: nat, best: nat, loc: int) {
    if loc == -1 then best == 3 && forall j: nat, n: nat {:trigger Offers(data, i, list, j, n)} ::
        j < m && Offers(data, i, list, j, n) ==> n < 3
    else best >= 3 && exists k: nat {:trigger BestAt(data, i, list, m, best, k)} ::
      BestAt(data, i, list, m, best, k) && list[k] == loc
  }

  /** The longest match for position i that the list offers, the last one among equals. */
  method BestMatch(data: seq<byte>, i: nat, list: seq<nat>) returns (best: nat, loc: int)
    requires i + 3 < |data| && forall j :: 0 <= j < |list| ==> list[j] < i
    ensures loc >= -1 && (loc >= 0 ==> loc < i && Repeats(data, i, best, i - loc)) && (loc == -1 ==> best == 3)
    ensures IsBest(data, i, list, |list|, best, loc)
  {
    hide Agreement, IsBest;
    best, loc := 3, -1;
    NoneYet(data, i, list);
    for j := 0 to |list|
      invariant best >= 3 && loc >= -1 && (loc == -1 ==> best == 3) && (loc >= 0 ==>
                  loc < i && Repeats(data, i, best, i - loc))
      invariant IsBest(data, i, list, j, best, loc)
    {
      if list[j] > i as int - WINDOW {
        var d := CountMatch(data, list[j], i, |data| - i);
        BestNext(data, i, list, j, best, loc, d);
        if d >= best {
          best, loc := d, list[j];
        }
      } else {
        BestSkip(data, i, list, j, best, loc);
      }
    }
  }

  lemma NoneYet(data: seq<byte>, i: nat, list: seq<nat>)
    ensures IsBest(data, i, list, 0, 3, -1)
  {
  }

  lemma BestNext(data: seq<byte>, i: nat, list: seq<nat>, j: nat, best: nat, loc: int, d: nat)
    requires IsBest(data, i, list, j, best, loc) && Offers(data, i, list, j, d)
    ensures IsBest(data, i, list, j + 1, if d >= best then d else best, if d >= best then list[j] else loc)
  {
    hide Agreement;
    if d >= best {
      assert BestAt(data, i, list, j + 1, d, j);
    } else if loc != -1 {
      var k: nat :| BestAt(data, i, list, j, best, k) && list[k] == loc;
      assert BestAt(data, i, list, j + 1, best, k);
    }
  }

  lemma BestSkip(data: seq<byte>, i: nat, list: seq<nat>, j: nat, best: nat, loc: int)
    requires IsBest(data, i, list, j, best, loc) && j < |list| && list[j] <= i - WINDOW
    ensures IsBest(data, i, list, j + 1, best, loc)
  {
    hide Agreement;
    if loc != -1 {
      var k: nat :| BestAt(data, i, list, j, best, k) && list[k] == loc;
      assert BestAt(data, i, list, j + 1, best, k);
    }
  }

  /** Some entry of the list agrees with the next position in more than best bytes. */
  ghost predicate OffersMore(data: seq<byte>, i: nat, list: seq<nat>, m: nat, best: nat) {
    exists j: nat, n: nat {:trigger Offers(data, i + 1, list, j, n)} :: j < m && Offers(data, i + 1, list, j, n) &&
      n > best
  }

  /** Whether the list for the next byte offers a longer match. */
  method BetterNext(data: seq<byte>, i: nat, list: seq<nat>, best: nat) returns (better: bool)
    requires i + 3 < |data| && forall j :: 0 <= j < |list| ==> list[j] <= i
    ensures better <==> OffersMore(data, i, list, |list|, best)
  {
    hide Agreement;
    for j := 0 to |list|
      invariant !OffersMore(data, i, list, j, best)
    {
      if list[j] > i as int - 32767 {
        var e := CountMatch(data, list[j], i + 1, |data| - i - 1);
        assert Offers(data, i + 1, list, j, e);
        if e > best {
          return true;
        }
      }
    }
    return false;
  }

  /** All positions on the lists lie before i. */
  ghost predicate ListsBefore(lists: seq<seq<nat>>, i: nat) {
    forall h, j {:trigger lists[h][j]} :: 0 <= h < |lists| && 0 <= j < |lists[h]| ==> lists[h][j] < i
  }

  /** Adds position i to list h, first dropping the older half when the list is full. */
  method Remember(lists: array<seq<nat>>, h: nat, i: nat, quality: nat)
    requires h < lists.Length && quality >= 5 && ListsBefore(lists[..], i)
    modifies lists
    ensures ListsBefore(lists[..], i + 1)
    ensures lists[..] == old(lists[..])[h :=
            (if |old(lists[h])| == 2 * quality then old(lists[h])[quality..] else old(lists[h])) + [i]]
  {
    ghost var was := lists[..];
    var list := lists[h];
    assert forall j :: 0 <= j < |list| ==> was[h][j] < i;
    if |list| == 2 * quality {
      list := list[quality..];
    }
    lists[h] := list + [i];
    forall g, j | 0 <= g < |lists[..]| && 0 <= j < |lists[..][g]| ensures lists[..][g][j] < i + 1 {
      if g != h {
        assert lists[..][g][j] == was[g][j];
      }
    }
  }

  // ---------------------------------------------------------------- the token loop

  /** The writer holds start followed by the encoding of tokens, which stand for the first i bytes. */
  ghost predicate Written(w: Writer, start: seq<bool>, tokens: seq<Token>, data: seq<byte>, i: nat)
    reads w
  {
    w.Valid() && i <= |data| && Expand(tokens) == Some(data[..i]) && w.Stream() == start + Encode(tokens)
  }

  method EmitLiteral(w: Writer, data: seq<byte>, i: nat, ghost start: seq<bool>, ghost tokens: seq<Token>)
    returns (ghost tokens': seq<Token>)
    requires Written(w, start, tokens, data, i) && i < |data|
    modifies w
    ensures tokens' == tokens + [Literal(data[i])] && Written(w, start, tokens', data, i + 1) && old(w.out) <= w.out
  {
    hide Expand, Encode, EncodeSymbol, Pow2;
    tokens' := tokens + [Literal(data[i])];
    ExpandMore(tokens, Literal(data[i]));
    assert data[..i] + [data[i]] == data[..i + 1];
    AddSymbol(w, data[i]);
  }

  method EmitMatch(w: Writer, data: seq<byte>, i: nat, len: nat, dist: nat, ghost start: seq<bool>,
                   ghost tokens: seq<Token>)
    returns (ghost tokens': seq<Token>)
    requires Written(w, start, tokens, data, i) && Repeats(data, i, len, dist)
    modifies w
    ensures tokens' == tokens + [Match(len, dist)] && Written(w, start, tokens', data, i + len) && old(w.out) <= w.out
  {
    hide Expand, Encode, EncodeMatch, Pow2;
    tokens' := tokens + [Match(len, dist)];
    ExpandMore(tokens, Match(len, dist));
    CopyRepeats(data, i, len, dist);
    AddMatch(w, len, dist);
  }

  /** What to write for position i: the best match of list, unless the list of the next byte offers a longer one. */
  ghost predicate Chosen(data: seq<byte>, i: nat, list: seq<nat>, next: seq<nat>, t: Token)
    requires i < |data|
  {
    match t
    case Literal(b) =>
      b == data[i] && (IsBest(data, i, list, |list|, 3, -1) ||
                       exists best: nat, loc: nat :: IsBest(data, i, list, |list|, best, loc) &&
                         OffersMore(data, i, next, |next|, best))
    case Match(len, dist) => IsBest(data, i, list, |list|, len, i - dist) && !OffersMore(data, i, next, |next|, len)
  }

  ghost function ListFor(lists: seq<seq<nat>>, zhash: (byte, byte, byte) -> nat, data: seq<byte>, i: nat): seq<nat>
    requires |lists| == ZHASH && i + 2 < |data|
  {
    lists[zhash(data[i], data[i + 1], data[i + 2]) % ZHASH]
  }

  /** One step of the compressor at position i: a match if there is one worth taking, else a literal. */
  method Step(w: Writer, data: seq<byte>, quality: nat, zhash: (byte, byte, byte) -> nat, lists: array<seq<nat>>,
              i: nat, ghost start: seq<bool>, ghost tokens: seq<Token>)
    returns (i': nat, ghost tokens': seq<Token>)
    requires Written(w, start, tokens, data, i) && i + 3 < |data| && quality >= 5
    requires lists.Length == ZHASH && ListsBefore(lists[..], i)
    modifies w, lists
    ensures i < i' && Written(w, start, tokens', data, i') && ListsBefore(lists[..], i') && old(w.out) <= w.out
    ensures |tokens'| == |tokens| + 1 && tokens'[..|tokens|] == tokens
    ensures Chosen(data, i, ListFor(old(lists[..]), zhash, data, i), ListFor(lists[..], zhash, data, i + 1),
            tokens'[|tokens|])
  {
    hide Expand, Encode, Pow2, LsbBits, BytesBits, Repeats, IsBest, OffersMore, Written;
    var h := zhash(data[i], data[i + 1], data[i + 2]) % ZHASH;
    ghost var was := lists[..];
    assert forall j :: 0 <= j < |lists[h]| ==> was[h][j] < i;
    var best, loc := BestMatch(data, i, lists[h]);
    Remember(lists, h, i, quality);
    if loc >= 0 {
      h := zhash(data[i + 1], data[i + 2], data[i + 3]) % ZHASH;
      ghost var now := lists[..];
      assert forall j :: 0 <= j < |lists[h]| ==> now[h][j] < i + 1;
      var better := BetterNext(data, i, lists[h], best);
      if better {
        assert Chosen(data, i, ListFor(was, zhash, data, i), lists[h], Literal(data[i]));
        loc := -1;
      }
    }
    if loc >= 0 {
      RepeatsLong(data, i, best, i - loc);
      tokens' := EmitMatch(w, data, i, best, i - loc, start, tokens);
      i' := i + best;
    } else {
      tokens' := EmitLiteral(w, data, i, start, tokens);
      i' := i + 1;
    }
  }

  lemma RepeatsLong(data: seq<byte>, i: nat, len: nat, dist: nat)
    requires Repeats(data, i, len, dist)
    ensures len >= 3
  {
  }

  /** Writes all of data as literals and matches. */
  method Tokenize(w: Writer, data: seq<byte>, quality: nat, zhash: (byte, byte, byte) -> nat)
    returns (ghost tokens: seq<Token>)
    requires w.Valid() && quality >= 5
    modifies w
    ensures w.Valid() && Expand(tokens) == Some(data) && w.Stream() == old(w.Stream()) + Encode(tokens) &&
            old(w.out) <= w.out
  {
    hide Written, Encode, Expand;
    ghost var start := w.Stream();
    var lists := new seq<nat>[ZHASH](_ => []);
    tokens := [];
    var i := 0;
    WrittenStart(w, data);
    while i + 3 < |data|
      invariant i <= |data| && Written(w, start, tokens, data, i) && ListsBefore(lists[..], i) && old(w.out) <= w.out
      decreases |data| - i
    {
      i, tokens := Step(w, data, quality, zhash, lists, i, start, tokens);
      WrittenBound(w, start, tokens, data, i);
    }
    while i < |data|
      invariant i <= |data| && Written(w, start, tokens, data, i) && old(w.out) <= w.out
    {
      tokens := EmitLiteral(w, data, i, start, tokens);
      i := i + 1;
    }
    WrittenBound(w, start, tokens, data, i);
    assert data[..|data|] == data;
  }

  lemma WrittenStart(w: Writer, data: seq<byte>)
    requires w.Valid()
    ensures Written(w, w.Stream(), [], data, 0)
  {
    assert w.Stream() + [] == w.Stream() && data[..0] == [];
  }

  lemma WrittenBound(w: Writer, start: seq<bool>, tokens: seq<Token>, data: seq<byte>, i: nat)
    requires Written(w, start, tokens, data, i)
    ensures i <= |data| && w.Valid() && Expand(tokens) == Some(data[..i]) && w.Stream() == start + Encode(tokens)
  {
  }
}
