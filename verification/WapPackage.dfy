/**
 * Application packages: what scripts/make_wasmos_app.c writes. A reader of all sections inverts the packer, and
 * accepts nothing the packer could not have written.
 */
module WapPackage {
  import opened Bits
  import opened Options
  import opened Sequences
  import opened LittleEndian
  import opened WapFormat
  import opened WapParser

  // ---------------------------------------------------------------- the packer

  method WriteNamed(ns: seq<Named>) returns (out: seq<byte>)
    ensures out == NamedSection(ns)
  {
    hide Le;
    out := [];
    for i := 0 to |ns|
      invariant out == NamedSection(ns[..i])
    {
      out := out + (Le(|ns[i].name|, 4) + Le(ns[i].value, 4) + ns[i].name);
      assert ns[..i + 1][..i] == ns[..i];
    }
    assert ns[..|ns|] == ns;
  }

  method WriteRegions(rs: seq<Region>) returns (out: seq<byte>)
    ensures out == RegionSection(rs)
  {
    hide Le;
    out := [];
    for i := 0 to |rs|
      invariant out == RegionSection(rs[..i])
    {
      out := out + ([rs[i].kind, rs[i].barIndex] + Le(rs[i].first, 2) + Le(rs[i].last, 2));
      assert rs[..i + 1][..i] == rs[..i];
    }
    assert rs[..|rs|] == rs;
  }

  /** Writes all sections, one after the other. */
  method Pack(p: Package) returns (out: seq<byte>)
    requires Fits(p)
    ensures out == Packed(p) && Unpack(out) == Some(p)
    ensures Parse(out) == App(VERSION, p.flags, p.name, p.entry, PayloadAt(p), |p.wasm|)
    ensures PayloadAt(p) + |p.wasm| <= |out| && out[PayloadAt(p)..PayloadAt(p) + |p.wasm|] == p.wasm
    ensures |out| >= 80 && out[..8] == [0x57, 0x41, 0x53, 0x4D, 0x4F, 0x53, 0x41, 0x50] && Get(out, 8, 2) == 9
    ensures Get(out, 10, 2) == 56 && Get(out, 12, 4) == p.flags && Get(out, 16, 4) == |p.name|
    ensures Get(out, 20, 4) == |p.entry| && Get(out, 24, 4) == |p.wasm| && Get(out, 28, 4) == |p.endpoints|
    ensures Get(out, 32, 4) == |p.caps| && Get(out, 36, 4) == 2 && Get(out, 40, 4) == |p.compiled|
    ensures out[44..52] == p.tag && Get(out, 52, 4) == |p.regions|
    ensures var hints := out[PayloadAt(p) - 24..PayloadAt(p)];
            Get(hints, 0, 4) == 1 && Get(hints, 4, 4) == p.stackPages && Get(hints, 8, 4) == 0 &&
            Get(hints, 12, 4) == 2 && Get(hints, 16, 4) == p.heapPages && Get(hints, 20, 4) == 0
  {
    hide Header, NamedSection, RegionSection, Hint, Parse, Unpack, Get;
    out := Header(p) + p.name + p.entry;
    var endpoints := WriteNamed(p.endpoints);
    var caps := WriteNamed(p.caps);
    var regions := WriteRegions(p.regions);
    out := out + endpoints + caps + regions;
    out := out + Hint(1, p.stackPages) + Hint(2, p.heapPages);
    out := out + p.wasm + p.compiled;
    PackedInPlace(out, p);
    ParsePacked(p);
    UnpackPacked(p);
    HeaderIs(out, p);
    HintsSay(out, p);
  }

  /** Both memory hints, stack first. */
  lemma HintsSay(data: seq<byte>, p: Package)
    requires Fits(p) && InPlace(data, p)
    ensures var hints := data[PayloadAt(p) - 24..PayloadAt(p)];
            Get(hints, 0, 4) == 1 && Get(hints, 4, 4) == p.stackPages && Get(hints, 8, 4) == 0 &&
            Get(hints, 12, 4) == 2 && Get(hints, 16, 4) == p.heapPages && Get(hints, 20, 4) == 0
  {
    hide Header, NamedSection, RegionSection, Hint, Get;
    var l := HintsAt(p);
    var hints := data[l..l + 24];
    assert hints[0..12] == data[l..l + 12] && hints[12..24] == data[l + 12..l + 24];
    HintAt(hints, 0, 1, p.stackPages);
    HintAt(hints, 12, 2, p.heapPages);
  }

  /** A packed file is laid out as a package. */
  lemma PackedLaidOut(p: Package)
    requires Fits(p)
    ensures var data, s := Packed(p), Layout(p.name, p.entry, p.endpoints, p.caps, p.wasm);
            LaidOut(data, s) && WasmAt(data, s) == PayloadAt(p) && Get(data, 12, 4) == p.flags
  {
    hide Header, NamedSection, RegionSection, Hint, Get, Packed, AllShort, Magic;
    PackedInPlace(Packed(p), p);
    HeaderIs(Packed(p), p);
  }

  /** The parser finds name, entry, flags and the payload of every packed file. */
  lemma ParsePacked(p: Package)
    requires Fits(p)
    ensures Parse(Packed(p)) == App(VERSION, p.flags, p.name, p.entry, PayloadAt(p), |p.wasm|)
  {
    hide Packed, Parse, LaidOut, WasmAt, PayloadAt, Get;
    PackedLaidOut(p);
    Accepts(Packed(p), Layout(p.name, p.entry, p.endpoints, p.caps, p.wasm));
  }

  // ---------------------------------------------------------------- reading every section

  /** Reads count region records. */
  function ReadRegions(data: seq<byte>, off: nat, count: nat): (rs: seq<Region>)
    requires off + 6 * count <= |data|
    ensures |rs| == count
  {
    if count == 0 then []
    else
      var at := off + 6 * (count - 1);
      ReadRegions(data, off, count - 1) + [Region(data[at], data[at + 1], Get(data, at + 2, 2), Get(data, at + 4, 2))]
  }

  /** A hint of this kind whose last field is zero. */
  predicate HasHint(data: seq<byte>, at: nat, kind: nat)
    requires at + 12 <= |data|
  {
    Get(data, at, 4) == kind && Get(data, at + 8, 4) == 0
  }

  /** The parser went from the endpoints to b and from there over the capabilities to c. */
  ghost predicate Passed(data: seq<byte>, r: Parsed, b: nat, c: nat)
    requires |data| >= HEADER_SIZE && r.App?
  {
    var a := HEADER_SIZE + |r.name| + |r.entry|;
    |r.name| == Get(data, 16, 4) && |r.entry| == Get(data, 20, 4) && r.flags == Get(data, 12, 4) &&
    r.wasmSize == Get(data, 24, 4) && r.wasmOffset + r.wasmSize <= |data| && a <= b <= c <= |data| &&
    data[HEADER_SIZE..HEADER_SIZE + |r.name|] == r.name && data[HEADER_SIZE + |r.name|..a] == r.entry &&
    SkipNamed(data, a, Get(data, 28, 4)) == Some(b) && SkipNamed(data, b, Get(data, 32, 4)) == Some(c) &&
    r.wasmOffset == c + 6 * Get(data, 52, 4) + 12 * Get(data, 36, 4)
  }

  lemma Positions(data: seq<byte>)
    requires Parse(data).App?
    ensures Marked(data) && exists b, c :: Passed(data, Parse(data), b, c)
  {
    hide SkipNamed, ReadNamed, Get, Magic;
    var r, m, n := Parse(data), Get(data, 28, 4), Get(data, 32, 4);
    var a := HEADER_SIZE + |r.name| + |r.entry|;
    var b := SkipNamed(data, a, m).value;
    assert |ReadNamed(data, a, m)| == m;
    var c := SkipNamed(data, b, n).value;
    assert |ReadNamed(data, b, n)| == n;
    assert Passed(data, r, b, c);
  }

  /** A reader of all sections: the package, if data holds one and nothing after it. */
  function Unpack(data: seq<byte>): Option<Package> {
    match Parse(data)
    case NotApp => None
    case Bad => None
    case App(version, flags, name, entry, off, size) =>
      Positions(data);
      if Get(data, 36, 4) != 2 || off + size + Get(data, 40, 4) != |data| then None
      else
        var a := HEADER_SIZE + |name| + |entry|;
        var b := SkipNamed(data, a, Get(data, 28, 4)).value;
        var endpoints, caps := ReadNamed(data, a, Get(data, 28, 4)), ReadNamed(data, b, Get(data, 32, 4));
        var regions := ReadRegions(data, off - 24 - 6 * Get(data, 52, 4), Get(data, 52, 4));
        if !HasHint(data, off - 24, 1) || !HasHint(data, off - 12, 2) then None
        else
          Some(Package(flags, name, entry, endpoints, caps, regions, Get(data, off - 20, 4), Get(data, off - 8, 4),
                       data[44..52], data[off..off + size], data[off + size..]))
  }

  /** A region section in place is what is read there. */
  lemma {:induction false} RegionsRead(data: seq<byte>, off: nat, rs: seq<Region>)
    requires AllPorts(rs) && off + 6 * |rs| <= |data|
    ensures data[off..off + 6 * |rs|] == RegionSection(rs) <==> ReadRegions(data, off, |rs|) == rs
    decreases |rs|
  {
    hide Get, RegionBytes, RegionSection, ReadRegions;
    if rs == [] {
      NoRegions(data, off);
    } else {
      var m := |rs| - 1;
      RegionsRead(data, off, rs[..m]);
      RegionAt(data, off + 6 * m, rs[m]);
      LastRegionPlaced(data, off, rs);
      LastRegionRead(data, off, rs);
    }
  }

  lemma NoRegions(data: seq<byte>, off: nat)
    ensures RegionSection([]) == [] && (off <= |data| ==> ReadRegions(data, off, 0) == [])
  {
  }

  lemma {:induction false} LastRegionPlaced(data: seq<byte>, off: nat, rs: seq<Region>)
    requires rs != [] && off + 6 * |rs| <= |data|
    ensures var m := |rs| - 1; var at := off + 6 * m;
            data[off..off + 6 * |rs|] == RegionSection(rs) <==>
            data[off..at] == RegionSection(rs[..m]) && data[at..at + 6] == RegionBytes(rs[m])
  {
    hide RegionBytes, RegionSection;
    var m := |rs| - 1;
    var at := off + 6 * m;
    RegionSnoc(rs);
    if data[off..off + 6 * |rs|] == RegionSection(rs) {
      Halves(data, off, RegionSection(rs[..m]), RegionBytes(rs[m]));
    }
    if data[off..at] == RegionSection(rs[..m]) && data[at..at + 6] == RegionBytes(rs[m]) {
      Together(data, off, RegionSection(rs[..m]), RegionBytes(rs[m]));
    }
  }

  lemma {:induction false} LastRegionRead(data: seq<byte>, off: nat, rs: seq<Region>)
    requires rs != [] && off + 6 * |rs| <= |data|
    ensures var m := |rs| - 1; var at := off + 6 * m;
            ReadRegions(data, off, |rs|) == rs <==>
            ReadRegions(data, off, m) == rs[..m] && data[at] == rs[m].kind && data[at + 1] == rs[m].barIndex &&
            Get(data, at + 2, 2) == rs[m].first && Get(data, at + 4, 2) == rs[m].last
  {
    hide Get;
    var m := |rs| - 1;
    var last := ReadRegions(data, off, |rs|)[m];
    assert ReadRegions(data, off, |rs|) == ReadRegions(data, off, m) + [last];
    assert rs == rs[..m] + [rs[m]];
    if ReadRegions(data, off, |rs|) == rs {
      assert ReadRegions(data, off, m) == ReadRegions(data, off, |rs|)[..m];
    }
  }

  lemma {:induction false} RegionsShort(data: seq<byte>, off: nat, count: nat)
    requires off + 6 * count <= |data| && count < LIMIT
    ensures AllPorts(ReadRegions(data, off, count))
  {
    hide Get;
    if count > 0 {
      var at := off + 6 * (count - 1);
      RegionsShort(data, off, count - 1);
      SmallPow256();
      GetBack(data, at + 2, 2);
      GetBack(data, at + 4, 2);
    }
  }

  /** Reading every section of a packed file gives back the package. */
  lemma UnpackPacked(p: Package)
    requires Fits(p)
    ensures Unpack(Packed(p)) == Some(p)
  {
    hide Header, NamedSection, RegionSection, Hint, ReadNamed, SkipNamed, ReadRegions, Get, Parse, Packed, AllShort,
        AllPorts;
    var data := Packed(p);
    ParsePacked(p);
    PackedInPlace(data, p);
    HeaderIs(data, p);
    SkipSection(data, EndpointsAt(p), p.endpoints);
    SkipSection(data, CapsAt(p), p.caps);
    RegionsRead(data, RegionsAt(p), p.regions);
    HintAt(data, HintsAt(p), 1, p.stackPages);
    HintAt(data, HintsAt(p) + 12, 2, p.heapPages);
  }

  lemma UnpackedFits(data: seq<byte>)
    requires Unpack(data).Some?
    ensures Fits(Unpack(data).value)
  {
    hide NamedSection, ReadNamed, SkipNamed, ReadRegions, Get, Parse, AllShort, AllPorts, LeValue, Magic;
    var p := Unpack(data).value;
    var r, m, n, k := Parse(data), Get(data, 28, 4), Get(data, 32, 4), Get(data, 52, 4);
    Positions(data);
    SmallPow256();
    HeaderNumbers(data);
    var a := HEADER_SIZE + |r.name| + |r.entry|;
    SkippedIsSection(data, a, m);
    SkippedIsSection(data, SkipNamed(data, a, m).value, n);
    RegionsShort(data, r.wasmOffset - 24 - 6 * k, k);
    GetBack(data, r.wasmOffset - 20, 4);
    GetBack(data, r.wasmOffset - 8, 4);
  }

  lemma HeaderNumbers(data: seq<byte>)
    requires |data| >= HEADER_SIZE
    ensures Get(data, 12, 4) < LIMIT && Get(data, 16, 4) < LIMIT && Get(data, 20, 4) < LIMIT && Get(data, 24, 4) < LIMIT
    ensures Get(data, 28, 4) < LIMIT && Get(data, 32, 4) < LIMIT && Get(data, 40, 4) < LIMIT && Get(data, 52, 4) < LIMIT
  {
    hide Get;
    SmallPow256();
    GetBack(data, 12, 4);
    GetBack(data, 16, 4);
    GetBack(data, 20, 4);
    GetBack(data, 24, 4);
    GetBack(data, 28, 4);
    GetBack(data, 32, 4);
    GetBack(data, 40, 4);
    GetBack(data, 52, 4);
  }

  lemma UnpackedSections(data: seq<byte>)
    requires Unpack(data).Some? && Fits(Unpack(data).value)
    ensures var p := Unpack(data).value;
            var i, j, k, l, m := EndpointsAt(p), CapsAt(p), RegionsAt(p), HintsAt(p), PayloadAt(p);
            |data| == m + |p.wasm| + |p.compiled| && Marked(data) && Numbers(data, p) && data[44..52] == p.tag &&
            data[HEADER_SIZE..HEADER_SIZE + |p.name|] == p.name && data[HEADER_SIZE + |p.name|..i] == p.entry &&
            data[i..j] == NamedSection(p.endpoints) && data[j..k] == NamedSection(p.caps) &&
            data[k..l] == RegionSection(p.regions) && data[l..l + 12] == Hint(1, p.stackPages) &&
            data[l + 12..m] == Hint(2, p.heapPages) && data[m..m + |p.wasm|] == p.wasm &&
            data[m + |p.wasm|..] == p.compiled
  {
    hide NamedSection, RegionSection, Hint, ReadNamed, SkipNamed, ReadRegions, Get, Parse, AllShort, AllPorts, Magic;
    var p, r := Unpack(data).value, Parse(data);
    Positions(data);
    HeaderNumbers(data);
    var i := EndpointsAt(p);
    SkippedIsSection(data, i, Get(data, 28, 4));
    SkippedIsSection(data, SkipNamed(data, i, Get(data, 28, 4)).value, Get(data, 32, 4));
    RegionsRead(data, r.wasmOffset - 24 - 6 * |p.regions|, p.regions);
    HintAt(data, r.wasmOffset - 24, 1, p.stackPages);
    HintAt(data, r.wasmOffset - 12, 2, p.heapPages);
  }

  /** A file that reads as a package is the file of that package. */
  lemma UnpackedIsPacked(data: seq<byte>)
    requires Unpack(data).Some?
    ensures var p := Unpack(data).value; Fits(p) && data == Packed(p)
  {
    hide Header, NamedSection, RegionSection, Hint, ReadNamed, SkipNamed, ReadRegions, Get, Packed, Magic;
    var p := Unpack(data).value;
    UnpackedFits(data);
    UnpackedSections(data);
    HeaderIs(data, p);
    PackedInPlace(data, p);
  }

  /** The reader returns p for the file of p and for no other file. */
  lemma UnpackExact(data: seq<byte>, p: Package)
    ensures Unpack(data) == Some(p) <==> Fits(p) && data == Packed(p)
  {
    hide Unpack, Packed, Fits;
    if Unpack(data) == Some(p) {
      UnpackedIsPacked(data);
    }
    if Fits(p) {
      FitsNumbers(p);
      if data == Packed(p) {
        UnpackPacked(p);
      }
    }
  }
}
