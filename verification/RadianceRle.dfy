/**
 * Run-length coding of Radiance scanline components, as libs/stb/stb_image_write.h writes them.
 */
module RadianceRle {
  import opened Bits
  import opened Options
  import opened Sequences

  /** Up to 128 bytes as they are, or up to 127 equal ones. */
  datatype Packet = Dump(data: seq<byte>) | Run(length: nat, value: byte)

  ghost predicate Legal(p: Packet) {
    match p
    case Dump(data) => 1 <= |data| <= 128
    case Run(length, value) => 1 <= length <= 127
  }

  function Repeated(length: nat, value: byte): (s: seq<byte>)
    ensures |s| == length && forall i :: 0 <= i < length ==> s[i] == value
  {
    seq<byte>(length, _ => value)
  }

  ghost function Meaning(p: Packet): seq<byte> {
    match p
    case Dump(data) => data
    case Run(length, value) => Repeated(length, value)
  }

  ghost function Code(p: Packet): seq<byte>
    requires Legal(p)
  {
    match p
    case Dump(data) => [|data|] + data
    case Run(length, value) => [length + 128, value]
  }

  ghost predicate AllLegal(ps: seq<Packet>) {
    forall i :: 0 <= i < |ps| ==> Legal(ps[i])
  }

  ghost function Codes(ps: seq<Packet>): seq<byte>
    requires AllLegal(ps)
  {
    if ps == [] then [] else Codes(ps[..|ps| - 1]) + Code(ps[|ps| - 1])
  }

  ghost function Meanings(ps: seq<Packet>): seq<byte> {
    if ps == [] then [] else Meanings(ps[..|ps| - 1]) + Meaning(ps[|ps| - 1])
  }

  // ---------------------------------------------------------------- a reader

  /** Reads packets from position pos on until n bytes are there; gives them and the position after. */
  function Decode(bytes: seq<byte>, pos: nat, acc: seq<byte>, n: nat): Option<(seq<byte>, nat)>
    requires pos <= |bytes|
    decreases |bytes| - pos
  {
    if |acc| == n then Some((acc, pos))
    else if pos + 1 >= |bytes| then None
    else
      var c := bytes[pos];
      if c > 128 then
        if |acc| + c - 128 > n then None else Decode(bytes, pos + 2, acc + Repeated(c - 128, bytes[pos + 1]), n)
      else if c == 0 || |acc| + c > n || pos + 1 + c > |bytes| then None
      else Decode(bytes, pos + 1 + c, acc + bytes[pos + 1..pos + 1 + c], n)
  }

  lemma {:induction false} DecodePacket(bytes: seq<byte>, pos: nat, acc: seq<byte>, n: nat, p: Packet)
    requires Legal(p) && pos + |Code(p)| <= |bytes| && bytes[pos..pos + |Code(p)|] == Code(p) &&
             |acc| + |Meaning(p)| <= n
    ensures Decode(bytes, pos, acc, n) == Decode(bytes, pos + |Code(p)|, acc + Meaning(p), n)
  {
    var code := Code(p);
    assert bytes[pos] == code[0] && bytes[pos + 1] == code[1];
    match p
    case Dump(data) => assert bytes[pos + 1..pos + 1 + |data|] == code[1..] == data;
    case Run(length, value) =>
  }

  /** Reading the codes of packets gives their meanings, whatever comes after. */
  lemma {:induction false} DecodeCodes(bytes: seq<byte>, pos: nat, ps: seq<Packet>, n: nat)
    requires AllLegal(ps) && pos + |Codes(ps)| <= |bytes| && bytes[pos..pos + |Codes(ps)|] == Codes(ps) &&
             |Meanings(ps)| <= n
    ensures Decode(bytes, pos, [], n) == Decode(bytes, pos + |Codes(ps)|, Meanings(ps), n)
  {
    hide Decode, Code, Meaning;
    if ps != [] {
      var m := |ps| - 1;
      var a, b := Codes(ps[..m]), Code(ps[m]);
      Halves(bytes, pos, a, b);
      DecodeCodes(bytes, pos, ps[..m], n);
      DecodePacket(bytes, pos + |a|, Meanings(ps[..m]), n, ps[m]);
    }
  }

  // ---------------------------------------------------------------- the writer

  /** out are the codes of packets for the first x bytes. */
  ghost predicate Written(out: seq<byte>, start: seq<byte>, ps: seq<Packet>, comp: seq<byte>, x: nat) {
    x <= |comp| && AllLegal(ps) && out == start + Codes(ps) && Meanings(ps) == comp[..x]
  }

  lemma {:induction false} WritePacket(out: seq<byte>, start: seq<byte>, ps: seq<Packet>, comp: seq<byte>, x: nat,
                                       p: Packet)
    requires Written(out, start, ps, comp, x) && Legal(p) && x + |Meaning(p)| <= |comp| &&
             Meaning(p) == comp[x..x + |Meaning(p)|]
    ensures Written(out + Code(p), start, ps + [p], comp, x + |Meaning(p)|)
  {
    hide Code, Meaning;
    assert (ps + [p])[..|ps|] == ps;
    assert start + Codes(ps) + Code(p) == start + (Codes(ps) + Code(p));
    assert comp[..x + |Meaning(p)|] == comp[..x] + comp[x..x + |Meaning(p)|];
  }

  /** The start of the next run of at least three, or the end. */
  method FindRun(comp: seq<byte>, x: nat) returns (r: nat)
    requires x < |comp|
    ensures x <= r <= |comp| && (r < |comp| ==> r + 2 < |comp| && comp[r] == comp[r + 1] == comp[r + 2])
    ensures forall i :: x <= i < r && i + 2 < |comp| ==> !(comp[i] == comp[i + 1] == comp[i + 2])
  {
    r := x;
    while r + 2 < |comp|
      invariant x <= r <= |comp|
      invariant forall i :: x <= i < r && i + 2 < |comp| ==> !(comp[i] == comp[i + 1] == comp[i + 2])
    {
      if comp[r] == comp[r + 1] && comp[r] == comp[r + 2] {
        return;
      }
      r := r + 1;
    }
    r := |comp|;
  }

  method WriteDump(comp: seq<byte>, x0: nat, r: nat, out0: seq<byte>, ghost start: seq<byte>, ghost ps0: seq<Packet>)
    returns (out: seq<byte>, ghost ps: seq<Packet>)
    requires x0 <= r <= |comp| && Written(out0, start, ps0, comp, x0)
    ensures Written(out, start, ps, comp, r)
  {
    hide Written;
    var x := x0;
    out, ps := out0, ps0;
    while x < r
      invariant x0 <= x <= r && Written(out, start, ps, comp, x)
    {
      var len := if r - x > 128 then 128 else r - x;
      ghost var p := Dump(comp[x..x + len]);
      WritePacket(out, start, ps, comp, x, p);
      out := out + ([len] + comp[x..x + len]);
      ps := ps + [p];
      x := x + len;
    }
  }

  method WriteRun(comp: seq<byte>, x0: nat, r: nat, out0: seq<byte>, ghost start: seq<byte>, ghost ps0: seq<Packet>)
    returns (out: seq<byte>, ghost ps: seq<Packet>)
    requires x0 < r <= |comp| && Written(out0, start, ps0, comp, x0) && forall i :: x0 <= i < r ==> comp[i] == comp[x0]
    ensures Written(out, start, ps, comp, r)
  {
    hide Written;
    var x := x0;
    out, ps := out0, ps0;
    while x < r
      invariant x0 <= x <= r && Written(out, start, ps, comp, x)
    {
      var len := if r - x > 127 then 127 else r - x;
      ghost var p := Run(len, comp[x]);
      assert Meaning(p) == comp[x..x + len];
      WritePacket(out, start, ps, comp, x, p);
      out := out + [len + 128, comp[x]];
      ps := ps + [p];
      x := x + len;
    }
  }

  /** Writes one component of a scanline; a reader gets it back and stops where it ends. */
  method WriteComponent(comp: seq<byte>, out0: seq<byte>) returns (out: seq<byte>)
    ensures out0 <= out && forall more {:trigger out + more} ::
              Decode(out + more, |out0|, [], |comp|) == Some((comp, |out|))
  {
    out := out0;
    ghost var ps := [];
    var x := 0;
    NothingWritten(out0, comp);
    while x < |comp|
      invariant x <= |comp| && Written(out, out0, ps, comp, x)
    {
      hide Written;
      var r := FindRun(comp, x);
      out, ps := WriteDump(comp, x, r, out, out0, ps);
      x := r;
      if r + 2 < |comp| {
        r := RunEnd(comp, x);
        out, ps := WriteRun(comp, x, r, out, out0, ps);
        x := r;
      }
    }
    forall more {:trigger out + more} ensures Decode(out + more, |out0|, [], |comp|) == Some((comp, |out|)) {
      Readable(out, out0, ps, comp, more);
    }
  }

  lemma NothingWritten(start: seq<byte>, comp: seq<byte>)
    ensures Written(start, start, [], comp, 0)
  {
    assert start + [] == start;
  }

  lemma {:induction false} DecodeDone(bytes: seq<byte>, pos: nat, acc: seq<byte>)
    requires pos <= |bytes|
    ensures Decode(bytes, pos, acc, |acc|) == Some((acc, pos))
  {
  }

  lemma {:induction false} Readable(out: seq<byte>, start: seq<byte>, ps: seq<Packet>, comp: seq<byte>, more: seq<byte>)
    requires Written(out, start, ps, comp, |comp|)
    ensures start <= out && Decode(out + more, |start|, [], |comp|) == Some((comp, |out|))
  {
    hide Decode, Codes, Meanings;
    assert (out + more)[|start|..|start| + |Codes(ps)|] == Codes(ps);
    assert comp[..|comp|] == comp;
    DecodeCodes(out + more, |start|, ps, |comp|);
    DecodeDone(out + more, |out|, comp);
  }

  method RunEnd(comp: seq<byte>, x: nat) returns (r: nat)
    requires x < |comp|
    ensures x < r <= |comp| && (forall i :: x <= i < r ==> comp[i] == comp[x]) && (r < |comp| ==> comp[r] != comp[x])
  {
    r := x;
    while r < |comp| && comp[r] == comp[x]
      invariant x <= r <= |comp| && forall i :: x <= i < r ==> comp[i] == comp[x]
    {
      r := r + 1;
    }
  }

  // ---------------------------------------------------------------- scanlines

  /** Reads k components of n bytes each. */
  function ReadPlanes(bytes: seq<byte>, pos: nat, n: nat, k: nat): Option<(seq<seq<byte>>, nat)>
    requires pos <= |bytes|
  {
    if k == 0 then Some(([], pos))
    else
      match ReadPlanes(bytes, pos, n, k - 1)
      case None => None
      case Some((planes, p)) =>
        if p > |bytes| then None
        else
          match Decode(bytes, p, [], n)
          case None => None
          case Some((plane, q)) => Some((planes + [plane], q))
  }

  /** Reads a run-length coded scanline: the mark 2, 2, the width, and four components. */
  function ReadScanline(bytes: seq<byte>): Option<(seq<seq<byte>>, nat)> {
    if |bytes| < 4 || bytes[0] != 2 || bytes[1] != 2 || bytes[2] >= 128 then None
    else
      var hi: nat, lo: nat := bytes[2], bytes[3];
      ReadPlanes(bytes, 4, 256 * hi + lo, 4)
  }

  /** Writes a scanline of four components; a reader gets exactly these back. */
  method WriteScanline(planes: seq<seq<byte>>, width: nat) returns (out: seq<byte>)
    requires |planes| == 4 && 8 <= width < 32768 && forall c :: 0 <= c < 4 ==> |planes[c]| == width
    ensures ReadScanline(out) == Some((planes, |out|))
    ensures |out| >= 4 && out[0] == 2 && out[1] == 2 && out[2] == width / 256 && out[3] == width % 256
  {
    hide Decode;
    var hi: byte, lo: byte := width / 256, width % 256;
    out := [2, 2, hi, lo];
    for c := 0 to 4
      invariant |out| >= 4 && out[..4] == [2, 2, hi, lo]
      invariant forall more {:trigger out + more} :: ReadPlanes(out + more, 4, width, c) == Some((planes[..c], |out|))
    {
      ghost var was := out;
      out := WriteComponent(planes[c], out);
      assert planes[..c + 1] == planes[..c] + [planes[c]];
      forall more {:trigger out + more}
        ensures ReadPlanes(out + more, 4, width, c + 1) == Some((planes[..c + 1], |out|))
      {
        assert out + more == was + (out[|was|..] + more);
      }
    }
    assert out + [] == out && planes[..4] == planes;
    assert out[..4][0] == 2 && out[..4][1] == 2 && out[..4][2] == hi && out[..4][3] == lo;
  }
}
