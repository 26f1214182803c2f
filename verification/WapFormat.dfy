/**
 * The application package format of scripts/make_wasmos_app.c: a fixed header of 56 bytes, then name, entry,
 * endpoint records, capability records, regions, memory hints, payload and compiled code, without padding.
 */
module WapFormat {
  import opened Bits
  import opened LittleEndian
  import opened Sequences

  /** A required endpoint or a requested capability. */
  datatype Named = Named(name: seq<byte>, value: nat)

  /** A declared register window. */
  datatype Region = Region(kind: byte, barIndex: byte, first: nat, last: nat)

  datatype Package = Package(
    flags: nat, name: seq<byte>, entry: seq<byte>, endpoints: seq<Named>, caps: seq<Named>, regions: seq<Region>,
    stackPages: nat, heapPages: nat, tag: seq<byte>, wasm: seq<byte>, compiled: seq<byte>)

  const VERSION: nat := 9
  const HEADER_SIZE: nat := 56
  const LIMIT: nat := 0x1_0000_0000

  ghost predicate AllShort(ns: seq<Named>) {
    |ns| < LIMIT && forall i :: 0 <= i < |ns| ==> |ns[i].name| < LIMIT && ns[i].value < LIMIT
  }

  ghost predicate AllPorts(rs: seq<Region>) {
    |rs| < LIMIT && forall i :: 0 <= i < |rs| ==> rs[i].first < 0x10000 && rs[i].last < 0x10000
  }

  /** All numbers fit their fields. */
  ghost predicate Fits(p: Package) {
    |p.tag| == 8 && |p.name| < LIMIT && |p.entry| < LIMIT && |p.wasm| < LIMIT && |p.compiled| < LIMIT &&
    AllShort(p.endpoints) && AllShort(p.caps) && AllPorts(p.regions) &&
    p.flags < LIMIT && p.stackPages < LIMIT && p.heapPages < LIMIT
  }

  // ---------------------------------------------------------------- the header

  function Magic(): (m: seq<byte>)
    ensures |m| == 8
  {
    [0x57, 0x41, 0x53, 0x4D, 0x4F, 0x53, 0x41, 0x50]
  }

  function Four(a: nat, b: nat, c: nat, d: nat): (s: seq<byte>)
    ensures |s| == 16
  {
    Le(a, 4) + Le(b, 4) + Le(c, 4) + Le(d, 4)
  }

  function Header(p: Package): (h: seq<byte>)
    requires |p.tag| == 8
    ensures |h| == HEADER_SIZE
  {
    (Magic() + Le(VERSION, 2) + Le(HEADER_SIZE, 2)) +
    Four(p.flags, |p.name|, |p.entry|, |p.wasm|) +
    Four(|p.endpoints|, |p.caps|, 2, |p.compiled|) +
    (p.tag + Le(|p.regions|, 4))
  }

  ghost predicate Marked(data: seq<byte>) {
    |data| >= HEADER_SIZE && data[..8] == Magic() && Get(data, 8, 2) == VERSION && Get(data, 10, 2) == HEADER_SIZE
  }

  /** The header numbers of a file are those of p. */
  ghost predicate Numbers(data: seq<byte>, p: Package)
    requires |data| >= HEADER_SIZE
  {
    Get(data, 12, 4) == p.flags && Get(data, 16, 4) == |p.name| && Get(data, 20, 4) == |p.entry| &&
    Get(data, 24, 4) == |p.wasm| &&
    Get(data, 28, 4) == |p.endpoints| && Get(data, 32, 4) == |p.caps| && Get(data, 36, 4) == 2 &&
    Get(data, 40, 4) == |p.compiled| &&
    Get(data, 52, 4) == |p.regions|
  }

  lemma FourNumbers(data: seq<byte>, at: nat, a: nat, b: nat, c: nat, d: nat)
    requires at + 16 <= |data| && a < LIMIT && b < LIMIT && c < LIMIT && d < LIMIT
    ensures data[at..at + 16] == Four(a, b, c, d) <==>
            Get(data, at, 4) == a && Get(data, at + 4, 4) == b && Get(data, at + 8, 4) == c &&
            Get(data, at + 12, 4) == d
  {
    hide Le, LeValue, Pow256;
    SmallPow256();
    if data[at..at + 16] == Four(a, b, c, d) {
      Quarters(data, at, Le(a, 4), Le(b, 4), Le(c, 4), Le(d, 4));
      LeRoundTrip(a, 4);
      LeRoundTrip(b, 4);
      LeRoundTrip(c, 4);
      LeRoundTrip(d, 4);
    }
    if Get(data, at, 4) == a && Get(data, at + 4, 4) == b && Get(data, at + 8, 4) == c && Get(data, at + 12, 4) == d {
      GetBack(data, at, 4);
      GetBack(data, at + 4, 4);
      GetBack(data, at + 8, 4);
      GetBack(data, at + 12, 4);
      Joined4(data, at);
    }
  }

  lemma Joined4(data: seq<byte>, at: nat)
    requires at + 16 <= |data|
    ensures data[at..at + 4] + data[at + 4..at + 8] + data[at + 8..at + 12] +
            data[at + 12..at + 16] == data[at..at + 16]
  {
  }

  /** A file has the header of p exactly if its mark, numbers and tag are those of p. */
  lemma HeaderIs(data: seq<byte>, p: Package)
    requires Fits(p) && |data| >= HEADER_SIZE
    ensures data[..HEADER_SIZE] == Header(p) <==> Marked(data) && Numbers(data, p) && data[44..52] == p.tag
  {
    hide Le, Get, Magic, Four, Fits;
    FitsNumbers(p);
    FourNumbers(data, 12, p.flags, |p.name|, |p.entry|, |p.wasm|);
    FourNumbers(data, 28, |p.endpoints|, |p.caps|, 2, |p.compiled|);
    FrontIs(data);
    BackIs(data, p);
    HeaderParts(data, p);
  }

  lemma FitsNumbers(p: Package)
    requires Fits(p)
    ensures |p.name| < LIMIT && |p.entry| < LIMIT && |p.wasm| < LIMIT && |p.compiled| < LIMIT && |p.endpoints| < LIMIT
    ensures |p.caps| < LIMIT && |p.regions| < LIMIT && p.flags < LIMIT && |p.tag| == 8
  {
  }

  lemma FrontIs(data: seq<byte>)
    requires |data| >= HEADER_SIZE
    ensures data[0..12] == Magic() + Le(VERSION, 2) + Le(HEADER_SIZE, 2) <==> Marked(data)
  {
    hide Le, LeValue, Magic, Pow256;
    SmallPow256();
    if data[0..12] == Magic() + Le(VERSION, 2) + Le(HEADER_SIZE, 2) {
      Halves(data, 0, Magic() + Le(VERSION, 2), Le(HEADER_SIZE, 2));
      Halves(data, 0, Magic(), Le(VERSION, 2));
      LeRoundTrip(VERSION, 2);
      LeRoundTrip(HEADER_SIZE, 2);
    }
    if Marked(data) {
      GetBack(data, 8, 2);
      GetBack(data, 10, 2);
      assert data[0..12] == data[..8] + data[8..10] + data[10..12];
    }
  }

  lemma BackIs(data: seq<byte>, p: Package)
    requires |data| >= HEADER_SIZE && |p.tag| == 8 && |p.regions| < LIMIT
    ensures data[44..56] == p.tag + Le(|p.regions|, 4) <==> data[44..52] == p.tag && Get(data, 52, 4) == |p.regions|
  {
    hide Le, LeValue, Pow256;
    SmallPow256();
    if data[44..56] == p.tag + Le(|p.regions|, 4) {
      Halves(data, 44, p.tag, Le(|p.regions|, 4));
      LeRoundTrip(|p.regions|, 4);
    }
    if data[44..52] == p.tag && Get(data, 52, 4) == |p.regions| {
      GetBack(data, 52, 4);
      assert data[44..56] == data[44..52] + data[52..56];
    }
  }

  lemma HeaderParts(data: seq<byte>, p: Package)
    requires |data| >= HEADER_SIZE && |p.tag| == 8
    ensures data[..HEADER_SIZE] == Header(p) <==>
            data[0..12] == Magic() + Le(VERSION, 2) + Le(HEADER_SIZE, 2) &&
            data[12..28] == Four(p.flags, |p.name|, |p.entry|, |p.wasm|) &&
            data[28..44] == Four(|p.endpoints|, |p.caps|, 2, |p.compiled|) && data[44..56] == p.tag + Le(|p.regions|, 4)
  {
    hide Le, Magic, Four;
    var a, b := Magic() + Le(VERSION, 2) + Le(HEADER_SIZE, 2), Four(p.flags, |p.name|, |p.entry|, |p.wasm|);
    var c, d := Four(|p.endpoints|, |p.caps|, 2, |p.compiled|), p.tag + Le(|p.regions|, 4);
    assert Header(p) == a + b + c + d && data[..HEADER_SIZE] == data[0..56];
    if data[0..56] == a + b + c + d {
      Quarters(data, 0, a, b, c, d);
    }
    assert data[0..56] == data[0..12] + data[12..28] + data[28..44] + data[44..56];
  }

  // ---------------------------------------------------------------- the sections

  function NamedBytes(n: Named): (b: seq<byte>)
    ensures |b| == 8 + |n.name|
  {
    Le(|n.name|, 4) + Le(n.value, 4) + n.name
  }

  function NamedSection(ns: seq<Named>): seq<byte> {
    if ns == [] then [] else NamedSection(ns[..|ns| - 1]) + NamedBytes(ns[|ns| - 1])
  }

  lemma {:induction false} NamedSnoc(ns: seq<Named>)
    requires ns != []
    ensures NamedSection(ns) == NamedSection(ns[..|ns| - 1]) + NamedBytes(ns[|ns| - 1])
  {
    hide NamedBytes;
  }

  function RegionBytes(r: Region): (b: seq<byte>)
    ensures |b| == 6
  {
    [r.kind, r.barIndex] + Le(r.first, 2) + Le(r.last, 2)
  }

  function RegionSection(rs: seq<Region>): (b: seq<byte>)
    ensures |b| == 6 * |rs|
  {
    if rs == [] then [] else RegionSection(rs[..|rs| - 1]) + RegionBytes(rs[|rs| - 1])
  }

  lemma {:induction false} RegionSnoc(rs: seq<Region>)
    requires rs != []
    ensures RegionSection(rs) == RegionSection(rs[..|rs| - 1]) + RegionBytes(rs[|rs| - 1])
  {
    hide RegionBytes;
  }

  /** A memory hint; its third field is always written as zero. */
  function Hint(kind: nat, pages: nat): (b: seq<byte>)
    ensures |b| == 12
  {
    Le(kind, 4) + Le(pages, 4) + Le(0, 4)
  }

  /** A record in place: its number of name bytes, its number and its name. */
  lemma NamedAt(data: seq<byte>, at: nat, n: Named)
    requires |n.name| < LIMIT && n.value < LIMIT && at + 8 + |n.name| <= |data|
    ensures data[at..at + 8 + |n.name|] == NamedBytes(n) <==>
            Get(data, at, 4) == |n.name| && Get(data, at + 4, 4) == n.value && data[at + 8..at + 8 + |n.name|] == n.name
  {
    hide Le, LeValue, Pow256;
    SmallPow256();
    var end := at + 8 + |n.name|;
    if data[at..end] == NamedBytes(n) {
      Halves(data, at, Le(|n.name|, 4) + Le(n.value, 4), n.name);
      Halves(data, at, Le(|n.name|, 4), Le(n.value, 4));
      LeRoundTrip(|n.name|, 4);
      LeRoundTrip(n.value, 4);
    }
    if Get(data, at, 4) == |n.name| && Get(data, at + 4, 4) == n.value && data[at + 8..end] == n.name {
      GetBack(data, at, 4);
      GetBack(data, at + 4, 4);
      assert data[at..end] == data[at..at + 4] + data[at + 4..at + 8] + data[at + 8..end];
    }
  }

  lemma RegionAt(data: seq<byte>, at: nat, r: Region)
    requires r.first < 0x10000 && r.last < 0x10000 && at + 6 <= |data|
    ensures data[at..at + 6] == RegionBytes(r) <==>
            data[at] == r.kind && data[at + 1] == r.barIndex && Get(data, at + 2, 2) == r.first &&
            Get(data, at + 4, 2) == r.last
  {
    hide Le, LeValue, Pow256;
    SmallPow256();
    if data[at..at + 6] == RegionBytes(r) {
      Halves(data, at, [r.kind, r.barIndex] + Le(r.first, 2), Le(r.last, 2));
      Halves(data, at, [r.kind, r.barIndex], Le(r.first, 2));
      assert data[at] == data[at..at + 2][0] && data[at + 1] == data[at..at + 2][1];
      LeRoundTrip(r.first, 2);
      LeRoundTrip(r.last, 2);
    }
    if data[at] == r.kind && data[at + 1] == r.barIndex && Get(data, at + 2, 2) == r.first &&
        Get(data, at + 4, 2) == r.last {
      GetBack(data, at + 2, 2);
      GetBack(data, at + 4, 2);
      assert data[at..at + 6] == [data[at], data[at + 1]] + data[at + 2..at + 4] + data[at + 4..at + 6];
    }
  }

  lemma HintAt(data: seq<byte>, at: nat, kind: nat, pages: nat)
    requires kind < LIMIT && pages < LIMIT && at + 12 <= |data|
    ensures data[at..at + 12] == Hint(kind, pages) <==>
            Get(data, at, 4) == kind && Get(data, at + 4, 4) == pages && Get(data, at + 8, 4) == 0
  {
    hide Le, LeValue, Pow256;
    SmallPow256();
    if data[at..at + 12] == Hint(kind, pages) {
      Halves(data, at, Le(kind, 4) + Le(pages, 4), Le(0, 4));
      Halves(data, at, Le(kind, 4), Le(pages, 4));
      LeRoundTrip(kind, 4);
      LeRoundTrip(pages, 4);
      LeRoundTrip(0, 4);
    }
    if Get(data, at, 4) == kind && Get(data, at + 4, 4) == pages && Get(data, at + 8, 4) == 0 {
      GetBack(data, at, 4);
      GetBack(data, at + 4, 4);
      GetBack(data, at + 8, 4);
      assert data[at..at + 12] == data[at..at + 4] + data[at + 4..at + 8] + data[at + 8..at + 12];
    }
  }

  // ---------------------------------------------------------------- the whole file

  function EndpointsAt(p: Package): nat {
    HEADER_SIZE + |p.name| + |p.entry|
  }

  function CapsAt(p: Package): nat {
    EndpointsAt(p) + |NamedSection(p.endpoints)|
  }

  function RegionsAt(p: Package): nat {
    CapsAt(p) + |NamedSection(p.caps)|
  }

  function HintsAt(p: Package): nat {
    RegionsAt(p) + 6 * |p.regions|
  }

  function PayloadAt(p: Package): nat {
    HintsAt(p) + 24
  }

  /** The file of a package: all sections, one after the other. */
  function Packed(p: Package): (data: seq<byte>)
    requires |p.tag| == 8
  {
    Start(p) + RegionSection(p.regions) + Hint(1, p.stackPages) + Hint(2, p.heapPages) + p.wasm + p.compiled
  }

  /** Every section of p lies in data where it belongs, and nothing follows. */
  ghost predicate InPlace(data: seq<byte>, p: Package)
    requires |p.tag| == 8
  {
    var i, j, k, l, m := EndpointsAt(p), CapsAt(p), RegionsAt(p), HintsAt(p), PayloadAt(p);
    |data| == m + |p.wasm| + |p.compiled| && data[..HEADER_SIZE] == Header(p) &&
    data[HEADER_SIZE..HEADER_SIZE + |p.name|] == p.name && data[HEADER_SIZE + |p.name|..i] == p.entry &&
    data[i..j] == NamedSection(p.endpoints) && data[j..k] == NamedSection(p.caps) &&
    data[k..l] == RegionSection(p.regions) && data[l..l + 12] == Hint(1, p.stackPages) &&
    data[l + 12..m] == Hint(2, p.heapPages) && data[m..m + |p.wasm|] == p.wasm && data[m + |p.wasm|..] == p.compiled
  }

  /** Six pieces, one after the other. */
  lemma Places(s: seq<byte>, h: seq<byte>, a: seq<byte>, b: seq<byte>, c: seq<byte>, d: seq<byte>, rest: seq<byte>)
    ensures s == h + a + b + c + d + rest <==>
            var i, j, k := |h| + |a|, |h| + |a| + |b|, |h| + |a| + |b| + |c|;
            |s| == k + |d| + |rest| && s[..|h|] == h && s[|h|..i] == a && s[i..j] == b && s[j..k] == c &&
            s[k..k + |d|] == d && s[k + |d|..] == rest
  {
    var i, j, k := |h| + |a|, |h| + |a| + |b|, |h| + |a| + |b| + |c|;
    if s == h + a + b + c + d + rest {
      assert s[0..|s|] == s;
      Halves(s, 0, h + a + b + c + d, rest);
      Halves(s, 0, h + a + b + c, d);
      Quarters(s, 0, h, a, b, c);
    }
    if |s| == k + |d| + |rest| && s[..|h|] == h && s[|h|..i] == a && s[i..j] == b && s[j..k] == c &&
       s[k..k + |d|] == d && s[k + |d|..] == rest {
      assert s == s[..|h|] + s[|h|..i] + s[i..j] + s[j..k] + s[k..k + |d|] + s[k + |d|..];
    }
  }

  /** The sections before the regions. */
  function Start(p: Package): (s: seq<byte>)
    requires |p.tag| == 8
    ensures |s| == RegionsAt(p)
  {
    Header(p) + p.name + p.entry + NamedSection(p.endpoints) + NamedSection(p.caps)
  }

  lemma StartInPlace(data: seq<byte>, p: Package)
    requires |p.tag| == 8 && |data| >= RegionsAt(p)
    ensures data[..RegionsAt(p)] == Start(p) <==>
            data[..HEADER_SIZE] == Header(p) && data[HEADER_SIZE..HEADER_SIZE + |p.name|] == p.name &&
            data[HEADER_SIZE + |p.name|..EndpointsAt(p)] == p.entry &&
            data[EndpointsAt(p)..CapsAt(p)] == NamedSection(p.endpoints) &&
            data[CapsAt(p)..RegionsAt(p)] == NamedSection(p.caps)
  {
    hide Header, NamedSection;
    var n := RegionsAt(p);
    var front := data[..n];
    Places(front, Header(p), p.name, p.entry, NamedSection(p.endpoints), NamedSection(p.caps), []);
    assert Start(p) + [] == Start(p);
    SamePrefix(data, front, n, 0, HEADER_SIZE);
    SamePrefix(data, front, n, HEADER_SIZE, HEADER_SIZE + |p.name|);
    SamePrefix(data, front, n, HEADER_SIZE + |p.name|, EndpointsAt(p));
    SamePrefix(data, front, n, EndpointsAt(p), CapsAt(p));
    SamePrefix(data, front, n, CapsAt(p), n);
  }

  lemma PackedInPlace(data: seq<byte>, p: Package)
    requires |p.tag| == 8
    ensures data == Packed(p) <==> InPlace(data, p)
  {
    hide Start, Header, NamedSection, RegionSection, Hint, RegionsAt;
    Places(data, Start(p), RegionSection(p.regions), Hint(1, p.stackPages), Hint(2, p.heapPages), p.wasm, p.compiled);
    if |data| >= RegionsAt(p) {
      StartInPlace(data, p);
    }
  }
}
