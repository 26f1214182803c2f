/**
 * Scanline filtering of libs/stb/stb_image_write.h's PNG writer, against the
 * reconstruction that section 6 of RFC 2083 prescribes for readers.
 */
module PngFilter {
  import opened Arith
  import opened Bits
  import opened LittleEndian
  import opened Options
  import Zlib

  // ---------------------------------------------------------------- what a reader does

  /** r is the one of left, above and upper left that is nearest to their plane; ties go to the one named first. */
  ghost predicate NearestFirst(a: byte, b: byte, c: byte, r: byte) {
    var p := a + b - c;
    (r == a || r == b || r == c) &&
    Abs(p - r) <= Abs(p - a) && Abs(p - r) <= Abs(p - b) && Abs(p - r) <= Abs(p - c) &&
    (r != a ==> Abs(p - r) < Abs(p - a)) && (r != a && r != b ==> Abs(p - r) < Abs(p - b))
  }

  /** The predictor of section 6.6. */
  function PaethPredictor(a: byte, b: byte, c: byte): (r: byte)
    ensures NearestFirst(a, b, c, r)
  {
    var p := a + b - c;
    if Abs(p - a) <= Abs(p - b) && Abs(p - a) <= Abs(p - c) then a
    else if Abs(p - b) <= Abs(p - c) then b
    else c
  }

  /** What filter type ft predicts from the bytes to the left, above and to the upper left. */
  function Predict(ft: nat, a: byte, b: byte, c: byte): byte {
    match ft
    case 0 => 0
    case 1 => a
    case 2 => b
    case 3 => (a + b) / 2
    case _ => PaethPredictor(a, b, c)
  }

  /** The corresponding byte of the pixel before, or 0 if there is none. */
  function Left(s: seq<byte>, n: nat, i: nat): byte
    requires i < |s|
  {
    if 0 < n <= i then s[i - n] else 0
  }

  /** Reconstructs the first k bytes of a scanline. */
  function Unfiltered(ft: nat, n: nat, line: seq<byte>, prior: seq<byte>, k: nat): (z: seq<byte>)
    requires k <= |line| == |prior|
    ensures |z| == k
  {
    if k == 0 then []
    else
      var z := Unfiltered(ft, n, line, prior, k - 1);
      var i := k - 1;
      z + [(line[i] + Predict(ft, if 0 < n <= i then z[i - n] else 0, prior[i], Left(prior, n, i))) % 256]
  }

  // ---------------------------------------------------------------- filtering undone

  /** The filtered value of byte i of scanline z. */
  function Filtered(ft: nat, n: nat, z: seq<byte>, prior: seq<byte>, i: nat): byte
    requires i < |z| == |prior|
  {
    (z[i] - Predict(ft, Left(z, n, i), prior[i], Left(prior, n, i))) % 256
  }

  ghost function FilteredLine(ft: nat, n: nat, z: seq<byte>, prior: seq<byte>): seq<byte>
    requires |z| == |prior|
  {
    seq(|z|, i requires 0 <= i < |z| => Filtered(ft, n, z, prior, i))
  }

  /** The five filters of section 6: the value v for byte x, given its left, upper and upper left neighbours. */
  ghost predicate ByRule(ft: nat, v: byte, x: byte, left: byte, up: byte, upLeft: byte) {
    (ft == 0 ==> v == x) && (ft == 1 ==> v == (x - left) % 256) && (ft == 2 ==> v == (x - up) % 256) &&
    (ft == 3 ==> v == (x - (left + up) / 2) % 256) &&
    (ft == 4 ==> (NearestFirst(left, up, upLeft, left) && v == (x - left) % 256) ||
                 (NearestFirst(left, up, upLeft, up) && v == (x - up) % 256) ||
                 (NearestFirst(left, up, upLeft, upLeft) && v == (x - upLeft) % 256))
  }

  /** All bytes of a line follow the rule; there is nothing to the left of the first pixel. */
  ghost predicate LineByRule(ft: nat, n: nat, line: seq<byte>, z: seq<byte>, prior: seq<byte>) {
    |line| == |z| == |prior| && forall i {:trigger line[i]} :: 0 <= i < |line| && n > 0 ==>
      ByRule(ft, line[i], z[i], if i < n then 0 else z[i - n], prior[i], if i < n then 0 else prior[i - n])
  }

  lemma FilteredByRule(ft: nat, n: nat, z: seq<byte>, prior: seq<byte>, i: nat)
    requires ft < 5 && n > 0 && i < |z| == |prior|
    ensures ByRule(ft, Filtered(ft, n, z, prior, i), z[i], if i < n then 0 else z[i - n], prior[i],
              if i < n then 0 else prior[i - n])
  {
    PredictedByRule(ft, z[i], Left(z, n, i), prior[i], Left(prior, n, i));
    hide ByRule, Predict;
  }

  lemma PredictedByRule(ft: nat, x: byte, left: byte, up: byte, upLeft: byte)
    requires ft < 5
    ensures ByRule(ft, (x - Predict(ft, left, up, upLeft)) % 256, x, left, up, upLeft)
  {
    hide PaethPredictor, NearestFirst;
    var p := PaethPredictor(left, up, upLeft);
    OneOfThree(left, up, upLeft);
  }

  lemma OneOfThree(a: byte, b: byte, c: byte)
    ensures var r := PaethPredictor(a, b, c); NearestFirst(a, b, c, r) && (r == a || r == b || r == c)
  {
  }

  lemma ModBack(z: byte, p: byte)
    ensures ((z - p) % 256 + p) % 256 == z
  {
  }

  lemma {:induction false} UnfilterRestores(ft: nat, n: nat, line: seq<byte>, z: seq<byte>, prior: seq<byte>, k: nat)
    requires k <= |line| == |z| == |prior| && forall i :: 0 <= i < |z| ==> line[i] == Filtered(ft, n, z, prior, i)
    ensures Unfiltered(ft, n, line, prior, k) == z[..k]
  {
    if k > 0 {
      UnfilterRestores(ft, n, line, z, prior, k - 1);
      var i := k - 1;
      ModBack(z[i], Predict(ft, Left(z, n, i), prior[i], Left(prior, n, i)));
      assert line[i] == Filtered(ft, n, z, prior, i);
      assert z[..k] == z[..i] + [z[i]];
    }
  }

  // ---------------------------------------------------------------- the writer's line encoder

  method Paeth(a: byte, b: byte, c: byte) returns (r: byte)
    ensures r == PaethPredictor(a, b, c) && NearestFirst(a, b, c, r)
  {
    hide NearestFirst;
    var p := a + b - c;
    var pa, pb, pc := Abs(p - a), Abs(p - b), Abs(p - c);
    if pa <= pb && pa <= pc {
      return a;
    }
    if pb <= pc {
      return b;
    }
    return c;
  }

  /** The variant that encodes a row: the first one has none above it. */
  function Variant(ft: nat, first: bool): nat
    requires ft < 5
  {
    if first then [0, 1, 0, 5, 6][ft] else ft
  }

  /** A byte of the first pixel. */
  method FilterFirst(variant: nat, z: byte, up: byte, ghost ft: nat, ghost first: bool) returns (r: byte)
    requires ft < 5 && variant == Variant(ft, first) && (first ==> up == 0)
    ensures r == (z - Predict(ft, 0, up, 0)) % 256
  {
    hide PaethPredictor;
    var p: byte := 0;
    match variant {
      case 2 => p := up;
      case 3 => p := up / 2;
      case 4 => p := Paeth(0, up, 0);
      case _ => assert ft == 4 ==> PaethPredictor(0, 0, 0) == 0;
    }
    assert p == Predict(ft, 0, up, 0);
    r := (z - p) % 256;
  }

  /** A byte of a later pixel. */
  method FilterNext(variant: nat, z: byte, left: byte, up: byte, upLeft: byte, ghost ft: nat, ghost first: bool)
    returns (r: byte)
    requires ft < 5 && variant == Variant(ft, first) && (first ==> up == upLeft == 0)
    ensures r == (z - Predict(ft, left, up, upLeft)) % 256
  {
    hide PaethPredictor;
    var p: byte := 0;
    match variant {
      case 1 => p := left;
      case 2 => p := up;
      case 3 => p := (left + up) / 2;
      case 4 => p := Paeth(left, up, upLeft);
      case 5 => p := left / 2;
      case 6 => p := Paeth(left, 0, 0);
      case _ => assert Predict(ft, left, up, upLeft) == 0;
    }
    assert p == Predict(ft, left, up, upLeft);
    r := (z - p) % 256;
  }

  /** Where row y of the output starts in the pixels. */
  function Base(stride: nat, height: nat, flip: bool, y: nat): nat
    requires y < height
  {
    stride * (if flip then height - 1 - y else y)
  }

  /** An image: rows of w pixels of n bytes each, stride bytes apart. */
  ghost predicate Image(pixels: seq<byte>, stride: nat, w: nat, height: nat, n: nat, flip: bool) {
    w > 0 && n > 0 && forall y {:trigger Base(stride, height, flip, y)} :: 0 <= y < height ==>
      Base(stride, height, flip, y) + w * n <= |pixels|
  }

  ghost function Row(pixels: seq<byte>, stride: nat, w: nat, height: nat, n: nat, flip: bool, y: nat): (r: seq<byte>)
    requires Image(pixels, stride, w, height, n, flip) && y < height
    ensures |r| == w * n
  {
    var b := Base(stride, height, flip, y);
    pixels[b..b + w * n]
  }

  /** The row above row y: all zero for the first one. */
  ghost function Prior(pixels: seq<byte>, stride: nat, w: nat, height: nat, n: nat, flip: bool, y: nat): (r: seq<byte>)
    requires Image(pixels, stride, w, height, n, flip) && y < height
    ensures |r| == w * n
  {
    if y == 0 then Zeros(w * n) else Row(pixels, stride, w, height, n, flip, y - 1)
  }

  lemma BaseAbove(stride: nat, height: nat, flip: bool, y: nat)
    requires 0 < y < height
    ensures Base(stride, height, flip, y) - (if flip then 0 - stride else stride) == Base(stride, height, flip, y - 1)
  {
    var r := if flip then height - 1 - y else y;
    if flip {
      assert stride * (r + 1) == stride * r + stride;
    } else {
      assert stride * (r - 1) == stride * r - stride;
    }
  }

  /** Filters the len bytes at z, given those above, into buf; the first row has none above. */
  method EncodeBytes(pixels: seq<byte>, z: nat, above: int, len: nat, n: nat, ft: nat, first: bool, buf: array<byte>,
                     ghost row: seq<byte>, ghost prior: seq<byte>)
    requires 0 < n <= len == buf.Length && z + len <= |pixels| && ft < 5 && row == pixels[z..z + len]
    requires if first then prior == Zeros(len)
             else 0 <= above <= above + len <= |pixels| && prior == pixels[above..above + len]
    modifies buf
    ensures forall i :: 0 <= i < len ==> buf[i] == Filtered(ft, n, row, prior, i)
  {
    hide PaethPredictor, Predict, Variant;
    var variant := Variant(ft, first);
    for i := 0 to n
      invariant forall j :: 0 <= j < i ==> buf[j] == Filtered(ft, n, row, prior, j)
    {
      var up := if first then 0 else pixels[above + i];
      buf[i] := FilterFirst(variant, pixels[z + i], up, ft, first);
    }
    for i := n to len
      invariant forall j :: 0 <= j < i ==> buf[j] == Filtered(ft, n, row, prior, j)
    {
      var up, upLeft := if first then 0 else pixels[above + i], if first then 0 else pixels[above + i - n];
      buf[i] := FilterNext(variant, pixels[z + i], pixels[z + i - n], up, upLeft, ft, first);
    }
  }

  lemma RowLength(w: nat, n: nat)
    requires w > 0
    ensures n <= w * n
  {
  }

  /** Filters row y into buf; filter type ft, undone by a reader, gives back the row. */
  method EncodeLine(pixels: seq<byte>, stride: nat, w: nat, height: nat, n: nat, flip: bool, y: nat, ft: nat,
                    buf: array<byte>)
    requires Image(pixels, stride, w, height, n, flip) && y < height && ft < 5 && buf.Length == w * n
    modifies buf
    ensures buf[..] == FilteredLine(ft, n, Row(pixels, stride, w, height, n, flip, y),
            Prior(pixels, stride, w, height, n, flip, y))
    ensures Unfiltered(ft, n, buf[..], Prior(pixels, stride, w, height, n, flip, y), w * n) ==
            Row(pixels, stride, w, height, n, flip, y)
    ensures LineByRule(ft, n, buf[..], Row(pixels, stride, w, height, n, flip, y),
              Prior(pixels, stride, w, height, n, flip, y))
  {
    hide Filtered, Unfiltered, Base, LineByRule;
    ghost var row, prior := Row(pixels, stride, w, height, n, flip, y), Prior(pixels, stride, w, height, n, flip, y);
    var z := Base(stride, height, flip, y);
    var above := z - if flip then 0 - stride else stride;
    if y > 0 {
      BaseAbove(stride, height, flip, y);
    }
    RowLength(w, n);
    EncodeBytes(pixels, z, above, w * n, n, ft, y == 0, buf, row, prior);
    UnfilterRestores(ft, n, buf[..], row, prior, w * n);
    assert row[..w * n] == row;
    LineFollows(ft, n, buf[..], row, prior);
  }

  lemma LineFollows(ft: nat, n: nat, line: seq<byte>, z: seq<byte>, prior: seq<byte>)
    requires |line| == |z| == |prior| && ft < 5 && forall i :: 0 <= i < |z| ==> line[i] == Filtered(ft, n, z, prior, i)
    ensures LineByRule(ft, n, line, z, prior)
  {
    hide Filtered, ByRule;
    forall i {:trigger line[i]} | 0 <= i < |line| && n > 0
      ensures ByRule(ft, line[i], z[i], if i < n then 0 else z[i - n], prior[i], if i < n then 0 else prior[i - n])
    {
      FilteredByRule(ft, n, z, prior, i);
    }
  }

  // ---------------------------------------------------------------- choosing a filter

  function Magnitude(b: byte): nat {
    if b < 128 then b else 256 - b
  }

  /** The writer's estimate of a line's entropy: the sum of its values, read as signed ones, without their signs. */
  function Estimate(s: seq<byte>): nat {
    if s == [] then 0 else Estimate(s[..|s| - 1]) + Magnitude(s[|s| - 1])
  }

  /** The estimate is a sum over the bytes, each of which counts with its distance to zero modulo 256. */
  lemma {:induction false} EstimateSum(a: seq<byte>, b: seq<byte>)
    ensures Estimate(a + b) == Estimate(a) + Estimate(b)
    ensures forall x: byte {:trigger Estimate([x])} :: Estimate([x]) == Abs(if x < 128 then x else x - 256)
  {
    assert forall x: byte {:trigger Estimate([x])} :: [x][..0] == [];
    if b == [] {
      assert a + b == a;
    } else {
      EstimateSum(a, b[..|b| - 1]);
      assert (a + b)[..|a + b| - 1] == a + b[..|b| - 1];
    }
  }

  method EstimateLine(buf: array<byte>) returns (est: nat)
    ensures est == Estimate(buf[..])
  {
    est := 0;
    for i := 0 to buf.Length
      invariant est == Estimate(buf[..i])
    {
      est := est + Magnitude(buf[i]);
      assert buf[..i + 1][..i] == buf[..i];
    }
    assert buf[..] == buf[..buf.Length];
  }

  const MAXINT: int := 0x7fffffff

  /** The estimate for row y under filter type ft. */
  ghost function RowEstimate(pixels: seq<byte>, stride: nat, w: nat, height: nat, n: nat, flip: bool, y: nat,
                             ft: nat): nat
    requires Image(pixels, stride, w, height, n, flip) && y < height
  {
    Estimate(FilteredLine(ft, n, Row(pixels, stride, w, height, n, flip, y),
      Prior(pixels, stride, w, height, n, flip, y)))
  }

  /** best is the first filter type of least estimate; estimates of at least MAXINT lose against all others. */
  ghost predicate Best(pixels: seq<byte>, stride: nat, w: nat, height: nat, n: nat, flip: bool, y: nat, best: nat)
    requires Image(pixels, stride, w, height, n, flip) && y < height
  {
    (forall ft :: 0 <= ft < 5 && RowEstimate(pixels, stride, w, height, n, flip, y, ft) < MAXINT ==>
       RowEstimate(pixels, stride, w, height, n, flip, y, best) <=
       RowEstimate(pixels, stride, w, height, n, flip, y, ft)) &&
    (forall ft :: 0 <= ft < best ==>
       RowEstimate(pixels, stride, w, height, n, flip, y, best) <
       RowEstimate(pixels, stride, w, height, n, flip, y, ft))
  }

  /** Finds the first filter type of least estimate, and leaves the row filtered with it in buf. */
  method BestFilter(pixels: seq<byte>, stride: nat, w: nat, height: nat, n: nat, flip: bool, y: nat, buf: array<byte>)
    returns (best: nat)
    requires Image(pixels, stride, w, height, n, flip) && y < height && buf.Length == w * n
    modifies buf
    ensures best < 5
    ensures Unfiltered(best, n, buf[..], Prior(pixels, stride, w, height, n, flip, y), w * n) ==
            Row(pixels, stride, w, height, n, flip, y)
    ensures Best(pixels, stride, w, height, n, flip, y, best)
  {
    hide Row, Prior, Unfiltered, FilteredLine, Image, Estimate;
    best := 0;
    var least := MAXINT;
    for ft := 0 to 5
      invariant best < 5 && least <= MAXINT && (least < MAXINT ==>
                  best < ft && least == RowEstimate(pixels, stride, w, height, n, flip, y, best))
      invariant least == MAXINT ==> best == 0
      invariant forall f :: 0 <= f < ft ==> least <= RowEstimate(pixels, stride, w, height, n, flip, y, f)
      invariant forall f :: 0 <= f < best ==> least < RowEstimate(pixels, stride, w, height, n, flip, y, f)
    {
      EncodeLine(pixels, stride, w, height, n, flip, y, ft, buf);
      var est := EstimateLine(buf);
      if est < least {
        least, best := est, ft;
      }
    }
    EncodeLine(pixels, stride, w, height, n, flip, y, best, buf);
  }

  // ---------------------------------------------------------------- the whole image

  /** What a reader makes of a filtered image: the rows, if every one has a known filter type and full length. */
  function Unfilter(filt: seq<byte>, len: nat, n: nat): (rows: Option<seq<seq<byte>>>)
    ensures rows.Some? ==> forall i :: 0 <= i < |rows.value| ==> |rows.value[i]| == len
    decreases |filt|
  {
    if filt == [] then Some([])
    else if |filt| <= len then None
    else
      var m := |filt| - len - 1;
      match Unfilter(filt[..m], len, n)
      case None => None
      case Some(rows) =>
        var prior := if rows == [] then Zeros(len) else rows[|rows| - 1];
        if filt[m] < 5 then Some(rows + [Unfiltered(filt[m], n, filt[m + 1..], prior, len)]) else None
  }

  /** The filter types in front of the rows. */
  function Types(filt: seq<byte>, len: nat): seq<byte>
    decreases |filt|
  {
    if |filt| <= len then [] else Types(filt[..|filt| - len - 1], len) + [filt[|filt| - len - 1]]
  }

  lemma {:induction false} TypesNext(filt: seq<byte>, ft: byte, line: seq<byte>)
    ensures Types(filt + [ft] + line, |line|) == Types(filt, |line|) + [ft]
  {
    var all := filt + [ft] + line;
    var m := |all| - |line| - 1;
    assert all[..m] == filt && all[m] == ft;
  }

  /** Rows of the image, by their places in the pixels. */
  lemma {:induction false} RowsAt(pixels: seq<byte>, stride: nat, w: nat, height: nat, n: nat, flip: bool, k: nat,
                                  y: nat)
    requires Image(pixels, stride, w, height, n, flip) && y < k <= height
    ensures RowReads(Rows(pixels, stride, w, height, n, flip, k)[y], pixels, stride, w * n, height, flip, y)
  {
    if y == k - 1 {
      assert Base(stride, height, flip, y) == stride * (if flip then height - 1 - y else y);
    } else {
      RowsAt(pixels, stride, w, height, n, flip, k - 1, y);
    }
  }

  lemma {:induction false} UnfilterNext(filt: seq<byte>, ft: byte, line: seq<byte>, n: nat, rows: seq<seq<byte>>,
                                        row: seq<byte>)
    requires Unfilter(filt, |line|, n) == Some(rows) && ft < 5
    requires Unfiltered(ft, n, line, if rows == [] then Zeros(|line|) else rows[|rows| - 1], |line|) == row
    ensures Unfilter(filt + [ft] + line, |line|, n) == Some(rows + [row])
  {
    hide Unfiltered;
    var all := filt + [ft] + line;
    var m := |all| - |line| - 1;
    assert all[..m] == filt && all[m] == ft && all[m + 1..] == line;
  }

  ghost function Rows(pixels: seq<byte>, stride: nat, w: nat, height: nat, n: nat, flip: bool,
                      k: nat): (r: seq<seq<byte>>)
    requires Image(pixels, stride, w, height, n, flip) && k <= height
    ensures |r| == k
  {
    if k == 0 then []
    else Rows(pixels, stride, w, height, n, flip, k - 1) + [Row(pixels, stride, w, height, n, flip, k - 1)]
  }

  /** What a reader gets: row by row, the bytes at the row's place in the pixels. */
  ghost predicate Reads(rows: seq<seq<byte>>, pixels: seq<byte>, stride: nat, w: nat, height: nat, n: nat, flip: bool) {
    |rows| == height && forall y :: 0 <= y < height ==> RowReads(rows[y], pixels, stride, w * n, height, flip, y)
  }

  /** Row y from the top, or from the bottom if flipped; rows lie stride bytes apart. */
  ghost predicate RowReads(row: seq<byte>, pixels: seq<byte>, stride: nat, len: nat, height: nat, flip: bool, y: nat)
    requires y < height
  {
    var b := stride * (if flip then height - 1 - y else y);
    b + len <= |pixels| && row == pixels[b..b + len]
  }

  /** The type used for row y: the forced one, or the best. */
  ghost predicate Chosen(pixels: seq<byte>, stride: nat, w: nat, height: nat, n: nat, flip: bool, force: int, y: nat,
                         ft: nat)
    requires Image(pixels, stride, w, height, n, flip) && y < height
  {
    if 0 <= force < 5 then ft == force else Best(pixels, stride, w, height, n, flip, y, ft)
  }

  /** The bytes to compress: every row after its filter type; force outside 0 to 4 picks the best type per row. */
  method FilterImage(pixels: seq<byte>, stride: nat, w: nat, height: nat, n: nat, flip: bool, force: int)
    returns (filt: seq<byte>)
    requires Image(pixels, stride, w, height, n, flip)
    ensures |filt| >= height
    ensures Unfilter(filt, w * n, n) == Some(Rows(pixels, stride, w, height, n, flip, height))
    ensures Reads(Unfilter(filt, w * n, n).value, pixels, stride, w, height, n, flip)
    ensures |Types(filt, w * n)| == height && forall y :: 0 <= y < height ==>
              Chosen(pixels, stride, w, height, n, flip, force, y, Types(filt, w * n)[y])
  {
    hide Row, Unfiltered, Base, Unfilter, Types, Best, ByRule, Rows, Prior, FilteredLine, Image;
    var forced := if force >= 5 then -1 else force;
    filt := [];
    UnfilterNone(pixels, stride, w, height, n, flip);
    var buf := new byte[w * n];
    for y := 0 to height
      invariant fresh(buf) && |filt| >= y &&
                Unfilter(filt, w * n, n) == Some(Rows(pixels, stride, w, height, n, flip, y))
      invariant |Types(filt, w * n)| == y && forall k :: 0 <= k < y ==>
                  Chosen(pixels, stride, w, height, n, flip, force, k, Types(filt, w * n)[k])
    {
      var ft: nat;
      if forced > -1 {
        ft := forced;
        EncodeLine(pixels, stride, w, height, n, flip, y, ft, buf);
      } else {
        ft := BestFilter(pixels, stride, w, height, n, flip, y, buf);
      }
      PriorRow(pixels, stride, w, height, n, flip, y);
      UnfilterNext(filt, ft, buf[..], n, Rows(pixels, stride, w, height, n, flip, y),
          Row(pixels, stride, w, height, n, flip, y));
      TypesNext(filt, ft, buf[..]);
      filt := filt + [ft] + buf[..];
    }
    AllRows(pixels, stride, w, height, n, flip);
  }

  lemma PriorRow(pixels: seq<byte>, stride: nat, w: nat, height: nat, n: nat, flip: bool, y: nat)
    requires Image(pixels, stride, w, height, n, flip) && y < height
    ensures var rows := Rows(pixels, stride, w, height, n, flip, y);
            Prior(pixels, stride, w, height, n, flip, y) == (if rows == [] then Zeros(w * n) else rows[|rows| - 1]) &&
            Rows(pixels, stride, w, height, n, flip, y + 1) == rows + [Row(pixels, stride, w, height, n, flip, y)]
  {
  }

  lemma AllRows(pixels: seq<byte>, stride: nat, w: nat, height: nat, n: nat, flip: bool)
    requires Image(pixels, stride, w, height, n, flip)
    ensures Reads(Rows(pixels, stride, w, height, n, flip, height), pixels, stride, w, height, n, flip)
  {
    hide Rows, Image, RowReads;
    forall y | 0 <= y < height
      ensures RowReads(Rows(pixels, stride, w, height, n, flip, height)[y], pixels, stride, w * n, height, flip, y)
    {
      RowsAt(pixels, stride, w, height, n, flip, height, y);
    }
  }

  lemma UnfilterNone(pixels: seq<byte>, stride: nat, w: nat, height: nat, n: nat, flip: bool)
    requires Image(pixels, stride, w, height, n, flip)
    ensures Unfilter([], w * n, n) == Some(Rows(pixels, stride, w, height, n, flip, 0)) && Types([], w * n) == []
  {
  }

  /** The compressed image data of a PNG file: decompressed and unfiltered it is the image, row by row. */
  method ImageData(pixels: seq<byte>, strideBytes: nat, w: nat, height: nat, n: nat, flip: bool, force: int,
                   quality: int, zhash: (byte, byte, byte) -> nat)
    returns (zlib: seq<byte>, filt: seq<byte>, stride: nat)
    requires height > 0 && Image(pixels, if strideBytes == 0 then w * n else strideBytes, w, height, n, flip)
    ensures stride == (if strideBytes == 0 then w * n else strideBytes)
    ensures Unfilter(filt, w * n, n) == Some(Rows(pixels, stride, w, height, n, flip, height))
    ensures Reads(Unfilter(filt, w * n, n).value, pixels, stride, w, height, n, flip)
    ensures Zlib.Decompress(zlib) == Some(filt)
  {
    hide Rows, Zlib.Decompress, Unfilter, Image, Reads, Types;
    stride := if strideBytes == 0 then w * n else strideBytes;
    filt := FilterImage(pixels, stride, w, height, n, flip, force);
    zlib := Zlib.Compress(filt, quality, zhash);
  }
}
