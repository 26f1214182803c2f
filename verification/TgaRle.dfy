/**
 * Run-length coded TGA pixels, as libs/stb/stb_image_write.h writes them.
 */
module TgaRle {
  import opened Bits
  import opened Options
  import opened Sequences

  type Pixel = seq<byte>

  /** Pixels as they are, or one pixel for several equal ones. */
  datatype Packet = Raw(pixels: seq<Pixel>) | Run(length: nat, pixel: Pixel)

  ghost predicate AllSized(ps: seq<Pixel>, comp: nat) {
    forall i :: 0 <= i < |ps| ==> |ps[i]| == comp
  }

  /** At most 128 pixels of comp bytes each. */
  ghost predicate Legal(p: Packet, comp: nat) {
    match p
    case Raw(pixels) => 1 <= |pixels| <= 128 && AllSized(pixels, comp)
    case Run(length, pixel) => 1 <= length <= 128 && |pixel| == comp
  }

  function Repeated(length: nat, pixel: Pixel): (s: seq<Pixel>)
    ensures |s| == length && forall i :: 0 <= i < length ==> s[i] == pixel
  {
    seq<Pixel>(length, _ => pixel)
  }

  ghost function Meaning(p: Packet): seq<Pixel> {
    match p
    case Raw(pixels) => pixels
    case Run(length, pixel) => Repeated(length, pixel)
  }

  /** The bytes of a pixel in file order: colours from blue to red, alpha last. */
  function FileOrder(d: Pixel): (r: Pixel)
    ensures |r| == |d|
  {
    if |d| >= 3 then [d[2], d[1], d[0]] + d[3..] else d
  }

  function PixelBytes(ps: seq<Pixel>): seq<byte> {
    if ps == [] then [] else PixelBytes(ps[..|ps| - 1]) + FileOrder(ps[|ps| - 1])
  }

  ghost function Code(p: Packet, comp: nat): seq<byte>
    requires Legal(p, comp)
  {
    match p
    case Raw(pixels) => [|pixels| - 1] + PixelBytes(pixels)
    case Run(length, pixel) => [length + 127] + FileOrder(pixel)
  }

  ghost predicate AllLegal(ps: seq<Packet>, comp: nat) {
    forall i :: 0 <= i < |ps| ==> Legal(ps[i], comp)
  }

  ghost function Codes(ps: seq<Packet>, comp: nat): seq<byte>
    requires AllLegal(ps, comp)
  {
    if ps == [] then [] else Codes(ps[..|ps| - 1], comp) + Code(ps[|ps| - 1], comp)
  }

  ghost function Meanings(ps: seq<Packet>): seq<Pixel> {
    if ps == [] then [] else Meanings(ps[..|ps| - 1]) + Meaning(ps[|ps| - 1])
  }

  // ---------------------------------------------------------------- a reader

  /** The pixel of comp bytes at p: the file has colours from blue to red and then alpha, a pixel from red to blue. */
  function PixelAt(bytes: seq<byte>, p: nat, comp: nat): (d: Pixel)
    requires p + comp <= |bytes|
    ensures |d| == comp
  {
    if comp >= 3 then [bytes[p + 2], bytes[p + 1], bytes[p]] + bytes[p + 3..p + comp] else bytes[p..p + comp]
  }

  /** A pixel written is the pixel read. */
  lemma PixelBack(bytes: seq<byte>, p: nat, d: Pixel)
    requires p + |d| <= |bytes| && bytes[p..p + |d|] == FileOrder(d)
    ensures PixelAt(bytes, p, |d|) == d
  {
    var f := bytes[p..p + |d|];
    if |d| >= 3 {
      assert f[0] == bytes[p] && f[1] == bytes[p + 1] && f[2] == bytes[p + 2];
      assert bytes[p + 3..p + |d|] == f[3..] == d[3..];
      assert d == [d[0], d[1], d[2]] + d[3..];
    }
  }

  /** Reads count pixels of comp bytes each. */
  function ReadPixels(bytes: seq<byte>, pos: nat, count: nat, comp: nat): Option<(seq<Pixel>, nat)>
    requires pos <= |bytes|
    ensures ReadPixels(bytes, pos, count, comp).Some? ==> pos <= ReadPixels(bytes, pos, count, comp).value.1 <= |bytes|
  {
    if count == 0 then Some(([], pos))
    else
      match ReadPixels(bytes, pos, count - 1, comp)
      case None => None
      case Some((ps, p)) =>
        if p + comp > |bytes| then None else Some((ps + [PixelAt(bytes, p, comp)], p + comp))
  }

  /** Reads packets until n pixels are there; no packet may hold more than are missing. */
  function Decode(bytes: seq<byte>, pos: nat, acc: seq<Pixel>, n: nat, comp: nat): Option<(seq<Pixel>, nat)>
    requires pos <= |bytes|
    decreases |bytes| - pos
  {
    if |acc| == n then Some((acc, pos))
    else if pos == |bytes| then None
    else
      var c := bytes[pos];
      var count := c % 128 + 1;
      if |acc| + count > n then None
      else if c >= 128 then
        if pos + 1 + comp > |bytes| then None
        else Decode(bytes, pos + 1 + comp, acc + Repeated(count, PixelAt(bytes, pos + 1, comp)), n, comp)
      else
        match ReadPixels(bytes, pos + 1, count, comp)
        case None => None
        case Some((ps, p)) => Decode(bytes, p, acc + ps, n, comp)
  }

  lemma {:induction false} ReadNext(bytes: seq<byte>, pos: nat, ps: seq<Pixel>, p: nat, comp: nat)
    requires pos <= |bytes| && ReadPixels(bytes, pos, |ps|, comp) == Some((ps, p)) && p + comp <= |bytes|
    ensures ReadPixels(bytes, pos, |ps| + 1, comp) == Some((ps + [PixelAt(bytes, p, comp)], p + comp))
  {
    hide PixelAt;
  }

  lemma {:induction false} ReadBack(bytes: seq<byte>, pos: nat, ps: seq<Pixel>, comp: nat)
    requires AllSized(ps, comp) && pos + |PixelBytes(ps)| <= |bytes| &&
             bytes[pos..pos + |PixelBytes(ps)|] == PixelBytes(ps)
    ensures ReadPixels(bytes, pos, |ps|, comp) == Some((ps, pos + |PixelBytes(ps)|))
    decreases |ps|
  {
    hide FileOrder, PixelAt, ReadPixels;
    if ps == [] {
      NoPixels(bytes, pos, comp);
    } else {
      var m := |ps| - 1;
      var a, b := PixelBytes(ps[..m]), FileOrder(ps[m]);
      Halves(bytes, pos, a, b);
      ReadBack(bytes, pos, ps[..m], comp);
      PixelBack(bytes, pos + |a|, ps[m]);
      ReadNext(bytes, pos, ps[..m], pos + |a|, comp);
      assert ps[..m] + [ps[m]] == ps;
    }
  }

  lemma NoPixels(bytes: seq<byte>, pos: nat, comp: nat)
    requires pos <= |bytes|
    ensures ReadPixels(bytes, pos, 0, comp) == Some(([], pos))
  {
  }

  lemma {:induction false} DecodeRaw(bytes: seq<byte>, pos: nat, acc: seq<Pixel>, n: nat, comp: nat, ps: seq<Pixel>)
    requires 1 <= |ps| <= 128 && AllSized(ps, comp) && |acc| + |ps| <= n && pos + 1 + |PixelBytes(ps)| <= |bytes|
    requires bytes[pos] == |ps| - 1 && bytes[pos + 1..pos + 1 + |PixelBytes(ps)|] == PixelBytes(ps)
    ensures Decode(bytes, pos, acc, n, comp) == Decode(bytes, pos + 1 + |PixelBytes(ps)|, acc + ps, n, comp)
  {
    hide ReadPixels, PixelBytes, PixelAt;
    ReadBack(bytes, pos + 1, ps, comp);
  }

  lemma {:induction false} DecodeRun(bytes: seq<byte>, pos: nat, acc: seq<Pixel>, n: nat, length: nat, d: Pixel)
    requires 1 <= length <= 128 && |acc| + length <= n && pos + 1 + |d| <= |bytes|
    requires bytes[pos] == length + 127 && bytes[pos + 1..pos + 1 + |d|] == FileOrder(d)
    ensures Decode(bytes, pos, acc, n, |d|) == Decode(bytes, pos + 1 + |d|, acc + Repeated(length, d), n, |d|)
  {
    hide ReadPixels, PixelAt, FileOrder;
    PixelBack(bytes, pos + 1, d);
  }

  lemma {:induction false} DecodePacket(bytes: seq<byte>, pos: nat, acc: seq<Pixel>, n: nat, comp: nat, p: Packet)
    requires Legal(p, comp) && pos + |Code(p, comp)| <= |bytes| && bytes[pos..pos + |Code(p, comp)|] == Code(p, comp)
    requires |acc| + |Meaning(p)| <= n
    ensures Decode(bytes, pos, acc, n, comp) == Decode(bytes, pos + |Code(p, comp)|, acc + Meaning(p), n, comp)
  {
    hide FileOrder, PixelBytes, Decode;
    var code := Code(p, comp);
    Halves(bytes, pos, code[..1], code[1..]);
    assert code == code[..1] + code[1..];
    assert bytes[pos] == bytes[pos..pos + 1][0] == code[0];
    match p
    case Raw(pixels) =>
      assert code[1..] == PixelBytes(pixels);
      DecodeRaw(bytes, pos, acc, n, comp, pixels);
    case Run(length, pixel) =>
      assert code[1..] == FileOrder(pixel);
      DecodeRun(bytes, pos, acc, n, length, pixel);
  }

  lemma {:induction false} DecodeCodes(bytes: seq<byte>, pos: nat, ps: seq<Packet>, n: nat, comp: nat)
    requires AllLegal(ps, comp) && pos + |Codes(ps, comp)| <= |bytes| &&
             bytes[pos..pos + |Codes(ps, comp)|] == Codes(ps, comp)
    requires |Meanings(ps)| <= n
    ensures Decode(bytes, pos, [], n, comp) == Decode(bytes, pos + |Codes(ps, comp)|, Meanings(ps), n, comp)
    decreases |ps|
  {
    hide Decode, Code, Meaning;
    if ps != [] {
      var m := |ps| - 1;
      var a, b := Codes(ps[..m], comp), Code(ps[m], comp);
      Halves(bytes, pos, a, b);
      DecodeCodes(bytes, pos, ps[..m], n, comp);
      DecodePacket(bytes, pos + |a|, Meanings(ps[..m]), n, comp, ps[m]);
    }
  }

  // ---------------------------------------------------------------- the writer

  ghost predicate Written(out: seq<byte>, start: seq<byte>, ps: seq<Packet>, row: seq<Pixel>, comp: nat, i: nat) {
    i <= |row| && AllLegal(ps, comp) && out == start + Codes(ps, comp) && Meanings(ps) == row[..i]
  }

  lemma {:induction false} WritePacket(out: seq<byte>, start: seq<byte>, ps: seq<Packet>, row: seq<Pixel>, comp: nat,
                                       i: nat, p: Packet)
    requires Written(out, start, ps, row, comp, i) && Legal(p, comp) && i + |Meaning(p)| <= |row| &&
             Meaning(p) == row[i..i + |Meaning(p)|]
    ensures Written(out + Code(p, comp), start, ps + [p], row, comp, i + |Meaning(p)|)
  {
    hide Code, Meaning;
    assert (ps + [p])[..|ps|] == ps;
    assert start + Codes(ps, comp) + Code(p, comp) == start + (Codes(ps, comp) + Code(p, comp));
    assert row[..i + |Meaning(p)|] == row[..i] + row[i..i + |Meaning(p)|];
  }

  /** The length of the packet that starts at pixel i, and whether its pixels are written one by one. */
  method PacketAt(row: seq<Pixel>, i: nat) returns (len: nat, diff: bool)
    requires i < |row|
    ensures 1 <= len <= 128 && i + len <= |row| && diff == (i + 1 == |row| || row[i] != row[i + 1])
    ensures !diff ==>
              (forall j :: i <= j < i + len ==>
              row[j] == row[i]) && (i + len == |row| || len == 128 || row[i + len] != row[i])
    ensures diff ==> (forall j :: i <= j < i + len - 2 ==> row[j] != row[j + 2]) &&
                     (i + len == |row| || len == 128 || (i + len + 1 < |row| && row[i + len - 1] == row[i + len + 1]))
  {
    diff, len := true, 1;
    if i + 1 < |row| {
      len, diff := 2, row[i] != row[i + 1];
      var k := i + 2;
      if diff {
        var prev := i;
        while k < |row| && len < 128
          invariant prev + 2 == k <= |row| && len == k - i <= 128 && forall j :: i <= j < i + len - 2 ==>
                      row[j] != row[j + 2]
        {
          if row[prev] != row[k] {
            prev, len := prev + 1, len + 1;
          } else {
            len := len - 1;
            return;
          }
          k := k + 1;
        }
      } else {
        while k < |row| && len < 128
          invariant i + 2 <= k <= |row| && len == k - i <= 128 && forall j :: i <= j < k ==> row[j] == row[i]
        {
          if row[i] != row[k] {
            return;
          }
          len := len + 1;
          k := k + 1;
        }
      }
    }
  }

  method WritePixels(ps: seq<Pixel>) returns (out: seq<byte>)
    ensures out == PixelBytes(ps)
  {
    hide FileOrder;
    out := [];
    for k := 0 to |ps|
      invariant out == PixelBytes(ps[..k])
    {
      out := out + FileOrder(ps[k]);
      assert ps[..k + 1][..k] == ps[..k];
    }
    assert ps[..|ps|] == ps;
  }

  /** Writes the packet at pixel i. */
  method WriteAt(row: seq<Pixel>, i: nat, comp: nat, out0: seq<byte>, ghost start: seq<byte>, ghost ps0: seq<Packet>)
    returns (out: seq<byte>, ghost ps: seq<Packet>, len: nat)
    requires i < |row| && AllSized(row, comp) && Written(out0, start, ps0, row, comp, i)
    ensures len > 0 && i + len <= |row| && Written(out, start, ps, row, comp, i + len)
  {
    hide Written, FileOrder, PixelBytes;
    var diff;
    len, diff := PacketAt(row, i);
    ghost var p;
    if diff {
      p := Raw(row[i..i + len]);
      var bytes := WritePixels(row[i..i + len]);
      out := out0 + ([len - 1] + bytes);
    } else {
      p := Run(len, row[i]);
      out := out0 + ([(len - 129) % 256] + FileOrder(row[i]));
    }
    assert Meaning(p) == row[i..i + len];
    WritePacket(out0, start, ps0, row, comp, i, p);
    ps := ps0 + [p];
  }

  lemma NothingWritten(start: seq<byte>, row: seq<Pixel>, comp: nat)
    ensures Written(start, start, [], row, comp, 0)
  {
    assert start + [] == start;
  }

  lemma {:induction false} DecodeDone(bytes: seq<byte>, pos: nat, acc: seq<Pixel>, comp: nat)
    requires pos <= |bytes|
    ensures Decode(bytes, pos, acc, |acc|, comp) == Some((acc, pos))
  {
  }

  lemma {:induction false} Readable(out: seq<byte>, start: seq<byte>, ps: seq<Packet>, row: seq<Pixel>, comp: nat,
                                    more: seq<byte>)
    requires Written(out, start, ps, row, comp, |row|)
    ensures start <= out && Decode(out + more, |start|, [], |row|, comp) == Some((row, |out|))
  {
    hide Decode, Codes, Meanings;
    assert (out + more)[|start|..|start| + |Codes(ps, comp)|] == Codes(ps, comp);
    assert row[..|row|] == row;
    DecodeCodes(out + more, |start|, ps, |row|, comp);
    DecodeDone(out + more, |out|, row, comp);
  }

  /** Writes one row; a reader gets it back and stops where it ends. */
  method WriteRow(row: seq<Pixel>, comp: nat, out0: seq<byte>) returns (out: seq<byte>)
    requires AllSized(row, comp)
    ensures out0 <= out && forall more {:trigger out + more} ::
              Decode(out + more, |out0|, [], |row|, comp) == Some((row, |out|))
  {
    hide Written, Decode;
    out := out0;
    ghost var ps := [];
    var i := 0;
    NothingWritten(out0, row, comp);
    while i < |row|
      invariant i <= |row| && Written(out, out0, ps, row, comp, i)
    {
      var len;
      out, ps, len := WriteAt(row, i, comp, out, out0, ps);
      i := i + len;
    }
    forall more {:trigger out + more}
      ensures out0 <= out && Decode(out + more, |out0|, [], |row|, comp) == Some((row, |out|))
    {
      Readable(out, out0, ps, row, comp, more);
    }
    assert out + [] == out;
  }

  // ---------------------------------------------------------------- images

  function ReadRows(bytes: seq<byte>, pos: nat, x: nat, comp: nat, k: nat): Option<(seq<seq<Pixel>>, nat)>
    requires pos <= |bytes|
  {
    if k == 0 then Some(([], pos))
    else
      match ReadRows(bytes, pos, x, comp, k - 1)
      case None => None
      case Some((rows, p)) =>
        if p > |bytes| then None
        else
          match Decode(bytes, p, [], x, comp)
          case None => None
          case Some((row, q)) => Some((rows + [row], q))
  }

  /** The rows in file order: bottom row first unless flipped. */
  ghost function FileRows(rows: seq<seq<Pixel>>, flip: bool, k: nat): (r: seq<seq<Pixel>>)
    requires k <= |rows|
    ensures |r| == k
  {
    seq(k, i requires 0 <= i < k => rows[if flip then i else |rows| - 1 - i])
  }

  /** Writes all rows, none of whose packets reaches into the next row. */
  method WriteImage(rows: seq<seq<Pixel>>, x: nat, comp: nat, flip: bool, header: seq<byte>) returns (out: seq<byte>)
    requires forall j :: 0 <= j < |rows| ==> |rows[j]| == x && AllSized(rows[j], comp)
    ensures header <= out && ReadRows(out, |header|, x, comp, |rows|) == Some((FileRows(rows, flip, |rows|), |out|))
    ensures var r := ReadRows(out, |header|, x, comp, |rows|).value.0;
            |r| == |rows| && forall k :: 0 <= k < |r| ==> r[k] == rows[if flip then k else |rows| - 1 - k]
  {
    hide Decode, AllSized;
    var j, end, dir := 0, |rows|, 1;
    if !flip {
      j, end, dir := |rows| - 1, -1, -1;
    }
    out := header;
    ghost var k := 0;
    while j != end
      invariant 0 <= k <= |rows| && j == (if flip then k else |rows| - 1 - k) && header <= out
      invariant forall more {:trigger out + more} ::
                  ReadRows(out + more, |header|, x, comp, k) == Some((FileRows(rows, flip, k), |out|))
      decreases |rows| - k
    {
      ghost var was := out;
      out := WriteRow(rows[j], comp, out);
      assert FileRows(rows, flip, k + 1) == FileRows(rows, flip, k) + [rows[j]];
      forall more {:trigger out + more}
        ensures ReadRows(out + more, |header|, x, comp, k + 1) == Some((FileRows(rows, flip, k + 1), |out|))
      {
        assert out + more == was + (out[|was|..] + more);
      }
      j := j + dir;
      k := k + 1;
    }
    assert out + [] == out;
  }
}
