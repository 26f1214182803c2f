/**
 * The FAT16 volume that scripts/make_gpt_image.py builds, and a reader that finds the files in it again.
 */
module Fat16 {
  import opened Arith
  import opened Bits
  import opened Options
  import opened Sequences
  import opened LittleEndian

  const SECTOR: nat := 512
  const SECTORS_PER_CLUSTER: nat := 4
  const CLUSTER_BYTES: nat := 2048
  const RESERVED_SECTORS: nat := 1
  const FAT_COUNT: nat := 2
  const ROOT_ENTRIES: nat := 512
  const ROOT_SECTORS: nat := 32
  const MIN_CLUSTERS: nat := 4085
  const MAX_CLUSTERS: nat := 65524

  /** A file, under its padded 8.3 name of eleven bytes. */
  datatype File = File(name: seq<byte>, content: seq<byte>)

  // ---------------------------------------------------------------- the size of the FAT

  function DataSectors(total: int, fat: int): int {
    total - (RESERVED_SECTORS + FAT_COUNT * fat + ROOT_SECTORS)
  }

  function Clusters(total: int, fat: int): int {
    DataSectors(total, fat) / SECTORS_PER_CLUSTER
  }

  /** Sectors for a FAT that has two bytes for each cluster, and two more entries. */
  function Needed(total: int, fat: int): int {
    ((Clusters(total, fat) + 2) * 2 + SECTOR - 1) / SECTOR
  }

  lemma Floor(v: int, d: nat, q: int, r: nat)
    requires d > 0 && v == q * d + r && r < d
    ensures v / d == q
  {
    var q', r' := v / d, v % d;
    assert v == q' * d + r';
    if q > q' {
      MulGap(q', q, d);
    } else if q < q' {
      MulGap(q, q', d);
    }
  }

  /** The two roundings combined. */
  lemma NeededForm(total: int, fat: int)
    ensures Needed(total, fat) == (total + 995 - 2 * fat) / 1024
  {
    var x := DataSectors(total, fat);
    var c, q := Clusters(total, fat), Needed(total, fat);
    Combine(x, c, x - 4 * c, q, 2 * c + 515 - 512 * q);
  }

  lemma Combine(x: int, c: int, s: int, q: int, t: int)
    requires x == 4 * c + s && 0 <= s < 4 && 2 * c + 515 == 512 * q + t && 0 <= t < 512
    ensures (x + 1028) / 1024 == q
  {
    assert t == 2 * (c + 257 - 256 * q) + 1;
    Floor(x + 1028, 1024, q, 2 * t - 2 + s);
  }

  /** A FAT size that needs exactly itself exists just for these totals, and it is unique. */
  lemma FixedPoint(total: int, fat: int)
    ensures Needed(total, fat) == fat <==> fat == (total + 995) / 1026 && (total + 995) % 1026 < 1024
  {
    NeededForm(total, fat);
    var v := total + 995;
    var k, r := v / 1026, v % 1026;
    assert v == 1026 * k + r;
    if fat == k && r < 1024 {
      Floor(v - 2 * fat, 1024, k, r);
    }
    if (v - 2 * fat) / 1024 == fat {
      var r' := (v - 2 * fat) % 1024;
      assert v == 1026 * fat + r';
      Floor(v, 1026, fat, r');
    }
  }

  ghost predicate InBand(total: int, fat: int) {
    MIN_CLUSTERS <= Clusters(total, fat) <= MAX_CLUSTERS
  }

  /** Near the fixed point: what the next size is. */
  lemma NextSize(total: int, fat: int)
    requires total >= -995
    ensures var k, r := (total + 995) / 1026, (total + 995) % 1026; Needed(total, fat) == k + (r - 2 * (fat - k)) / 1024
  {
    NeededForm(total, fat);
    var v := total + 995;
    var k, r := v / 1026, v % 1026;
    var w := r - 2 * (fat - k);
    assert v == 1026 * k + r;
    assert v - 2 * fat == 1024 * k + w;
    assert w == 1024 * (w / 1024) + w % 1024;
    Floor(v - 2 * fat, 1024, k + w / 1024, w % 1024);
  }

  /** From size 1 on, at most two steps lead to the fixed point of a FAT16 volume. */
  lemma Settles(total: int)
    requires var k := (total + 995) / 1026; (total + 995) % 1026 < 1024 && InBand(total, k)
    ensures var k := (total + 995) / 1026;
            Needed(total, k) == k && 1 <= k <= 257 && (Needed(total, 1) == k || Needed(total, Needed(total, 1)) == k)
  {
    var k, r := (total + 995) / 1026, (total + 995) % 1026;
    FixedPoint(total, k);
    assert total + 995 == 1026 * k + r;
    NextSize(total, 1);
    NextSize(total, k + 1);
    var w := r - 2 * (1 - k);
    assert 0 <= w < 2048;
    if w < 1024 {
      Floor(w, 1024, 0, w);
    } else {
      Floor(w, 1024, 1, w - 1024);
      Floor(r - 2, 1024, 0, r - 2);
    }
  }

  /** Iterates to a FAT size that needs exactly itself; gives up after eight rounds. */
  method FatSize(total: int) returns (fat: Option<int>)
    ensures fat.Some? ==> Needed(total, fat.value) == fat.value
    ensures fat.None? ==> (total + 995) % 1026 >= 1024 || !InBand(total, (total + 995) / 1026)
  {
    hide Needed, InBand;
    var size := 1;
    ghost var k := (total + 995) / 1026;
    ghost var settles := (total + 995) % 1026 < 1024 && InBand(total, k);
    if settles {
      Settles(total);
    }
    for i := 0 to 8
      invariant i == 0 ==> size == 1
      invariant settles && i == 1 ==> size == Needed(total, 1)
      invariant settles && i >= 2 ==> size == k
      invariant settles ==> i <= 3
    {
      var needed := Needed(total, size);
      if needed == size {
        return Some(size);
      }
      size := needed;
    }
    fat := None;
  }

  /** No FAT size suits a volume of 16445 sectors, although either candidate gives a cluster count within the band. */
  lemma NoSizeSettles(fat: int)
    ensures Needed(16445, fat) != fat && InBand(16445, 16) && InBand(16445, 17) && Needed(16445, 16) == 17 &&
            Needed(16445, 17) == 16
  {
    FixedPoint(16445, fat);
  }

  /** A size is found, within the FAT16 band, just for these totals. */
  ghost predicate Formats(total: int) {
    (total + 995) % 1026 < 1024 && InBand(total, (total + 995) / 1026)
  }

  /** Volumes of the FAT16 band are small. */
  lemma BandTotal(total: int)
    requires Formats(total)
    ensures 0 < total < 300000
  {
  }

  // ---------------------------------------------------------------- files

  /** Clusters for a file: empty ones take one too. */
  function Span(content: seq<byte>): (n: nat)
    ensures n >= 1 && |content| <= n * CLUSTER_BYTES && (n > 1 ==> (n - 1) * CLUSTER_BYTES < |content|)
  {
    var n := (|content| + CLUSTER_BYTES - 1) / CLUSTER_BYTES;
    if n > 1 then n else 1
  }

  function DirEntry(name: seq<byte>, attr: byte, first: nat, size: nat): (e: seq<byte>)
    requires |name| == 11
    ensures |e| == 32
  {
    name + [attr] + Zeros(14) + (Le(first, 2) + Le(size, 4))
  }

  /** The file allocation table, root directory and data area while files are added. */
  datatype Parts = Parts(fat: seq<byte>, root: seq<byte>, data: seq<byte>)

  /** The FAT entry of cluster c of a chain that ends before end. */
  function Link(c: nat, end: nat): nat {
    if c + 1 == end then 0xFFFF else c + 1
  }

  ghost predicate Chained(fat: seq<byte>, first: nat, end: nat) {
    2 * end <= |fat| && forall c {:trigger Link(c, end)} :: first <= c < end ==> Get(fat, 2 * c, 2) == Link(c, end)
  }

  /** File f is the i-th one: its directory entry, its chain from cluster first on, and its bytes. */
  ghost predicate Stored(p: Parts, i: nat, f: File, first: nat) {
    |f.name| == 11 && 2 <= first && 32 * i + 64 <= |p.root| &&
    p.root[32 * i + 32..32 * i + 64] == DirEntry(f.name, 0x20, first, |f.content|) &&
    Chained(p.fat, first, first + Span(f.content)) &&
    (first - 2 + Span(f.content)) * CLUSTER_BYTES <= |p.data| &&
    p.data[(first - 2) * CLUSTER_BYTES..(first - 2) * CLUSTER_BYTES + |f.content|] == f.content
  }

  /** Writes the links of a chain from first to before end. */
  method WriteChain(fat0: seq<byte>, first: nat, end: nat) returns (fat: seq<byte>)
    requires first < end <= 0xFFFF && 2 * end <= |fat0|
    ensures |fat| == |fat0| && fat[..2 * first] == fat0[..2 * first] && fat[2 * end..] == fat0[2 * end..] &&
            Chained(fat, first, end)
  {
    hide Get, Put, Le;
    fat := fat0;
    SmallPow256();
    for here := first to end
      invariant |fat| == |fat0| && fat[..2 * first] == fat0[..2 * first] && fat[2 * end..] == fat0[2 * end..]
      invariant forall c {:trigger Link(c, end)} :: first <= c < here ==> Get(fat, 2 * c, 2) == Link(c, end)
    {
      ghost var was := fat;
      var link := Link(here, end);
      fat := Put(fat, 2 * here, Le(link, 2));
      PutGet(was, 2 * here, link, 2);
      PutElsewhere(was, 2 * here, Le(link, 2), 0, 2 * first);
      PutElsewhere(was, 2 * here, Le(link, 2), 2 * end, |fat0|);
      assert fat[..2 * first] == fat[0..2 * first] && was[..2 * first] == was[0..2 * first];
      assert fat[2 * end..] == fat[2 * end..|fat0|] && was[2 * end..] == was[2 * end..|fat0|];
      forall c {:trigger Link(c, end)} | first <= c < here ensures Get(fat, 2 * c, 2) == Link(c, end) {
        PutElsewhere(was, 2 * here, Le(link, 2), 2 * c, 2 * c + 2);
        SameGet(was, fat, 2 * c, 2);
      }
    }
  }

  lemma SameGet(s: seq<byte>, t: seq<byte>, at: nat, n: nat)
    requires at + n <= |s| && at + n <= |t| && s[at..at + n] == t[at..at + n]
    ensures Get(s, at, n) == Get(t, at, n)
  {
  }

  /** Adds the i-th file, at the first free cluster; fails if the directory or the volume is full. */
  method AddFile(p: Parts, i: nat, f: File, next: nat, clusters: nat) returns (r: Option<Parts>)
    requires |f.name| == 11 && 2 <= next <= clusters + 2 && clusters <= MAX_CLUSTERS
    requires 2 * (clusters + 2) <= |p.fat| && clusters * CLUSTER_BYTES <= |p.data|
    ensures r.None? <==> 32 * i + 64 > |p.root| || next + Span(f.content) > clusters + 2
    ensures r.Some? ==> var q := r.value;
                        |q.fat| == |p.fat| && |q.root| == |p.root| && |q.data| == |p.data| && Stored(q, i, f, next) &&
                        q.fat[..2 * next] == p.fat[..2 * next] && q.root[..32 * i + 32] == p.root[..32 * i + 32] &&
                        q.data[..(next - 2) * CLUSTER_BYTES] == p.data[..(next - 2) * CLUSTER_BYTES] &&
                        q.fat[2 * (next + Span(f.content))..] == p.fat[2 * (next + Span(f.content))..] &&
                        q.root[32 * i + 64..] == p.root[32 * i + 64..]
  {
    hide Put, Chained, DirEntry;
    if 32 * i + 64 > |p.root| {
      return None;
    }
    var span := Span(f.content);
    if next + span - 1 > clusters + 1 {
      return None;
    }
    var fat := WriteChain(p.fat, next, next + span);
    var at := (next - 2) * CLUSTER_BYTES;
    var data := Put(p.data, at, f.content);
    var entry := DirEntry(f.name, 0x20, next, |f.content|);
    var root := Put(p.root, 32 * i + 32, entry);
    PutHere(p.data, at, f.content);
    PutElsewhere(p.data, at, f.content, 0, at);
    PutHere(p.root, 32 * i + 32, entry);
    PutElsewhere(p.root, 32 * i + 32, entry, 0, 32 * i + 32);
    PutElsewhere(p.root, 32 * i + 32, entry, 32 * i + 64, |p.root|);
    r := Some(Parts(fat, root, data));
  }

  /** Files stored before stay stored. */
  lemma StoredKept(p: Parts, q: Parts, i: nat, f: File, first: nat, k: nat, next: nat)
    requires Stored(p, i, f, first) && i < k && first + Span(f.content) <= next
    requires |q.fat| == |p.fat| && |q.root| == |p.root| && |q.data| == |p.data|
    requires 2 * next <= |p.fat| && q.fat[..2 * next] == p.fat[..2 * next]
    requires 32 * k + 32 <= |p.root| && q.root[..32 * k + 32] == p.root[..32 * k + 32]
    requires (next - 2) * CLUSTER_BYTES <= |p.data| &&
             q.data[..(next - 2) * CLUSTER_BYTES] == p.data[..(next - 2) * CLUSTER_BYTES]
    ensures Stored(q, i, f, first)
  {
    hide Get, DirEntry;
    var end := first + Span(f.content);
    forall c {:trigger Link(c, end)} | first <= c < end ensures Get(q.fat, 2 * c, 2) == Link(c, end) {
      SamePrefix(p.fat, q.fat, 2 * next, 2 * c, 2 * c + 2);
      SameGet(p.fat, q.fat, 2 * c, 2);
    }
    SamePrefix(p.root, q.root, 32 * k + 32, 32 * i + 32, 32 * i + 64);
    var at := (first - 2) * CLUSTER_BYTES;
    SamePrefix(p.data, q.data, (next - 2) * CLUSTER_BYTES, at, at + |f.content|);
  }

  /** Where the i-th file starts: after cluster 2 and all files before it. */
  ghost function FirstCluster(files: seq<File>, i: nat): (c: nat)
    requires i <= |files|
    ensures c >= 2
  {
    if i == 0 then 2 else FirstCluster(files, i - 1) + Span(files[i - 1].content)
  }

  /** The chains of different files are disjoint. */
  lemma {:induction false} ChainsDisjoint(files: seq<File>, i: nat, j: nat)
    requires i < j <= |files|
    ensures FirstCluster(files, i) + Span(files[i].content) <= FirstCluster(files, j)
  {
    hide Span;
    if i + 1 < j {
      ChainsDisjoint(files, i, j - 1);
    }
  }

  ghost predicate Room(files: seq<File>, clusters: nat) {
    |files| < ROOT_ENTRIES && FirstCluster(files, |files|) <= clusters + 2
  }

  /** Adds all files, in order; fails just if the directory or the clusters do not suffice. */
  method AddFiles(p: Parts, files: seq<File>, clusters: nat) returns (r: Option<Parts>)
    requires (forall i :: 0 <= i < |files| ==> |files[i].name| == 11) && clusters <= MAX_CLUSTERS
    requires 2 * (clusters + 2) <= |p.fat| && |p.root| == 32 * ROOT_ENTRIES && clusters * CLUSTER_BYTES <= |p.data|
    ensures r.Some? <==> Room(files, clusters)
    ensures r.Some? ==> var q := r.value;
                        |q.fat| == |p.fat| && |q.root| == |p.root| && |q.data| == |p.data| &&
                        q.fat[..4] == p.fat[..4] && q.root[..32] == p.root[..32] &&
                        q.fat[2 * FirstCluster(files, |files|)..] == p.fat[2 * FirstCluster(files, |files|)..] &&
                        q.root[32 * |files| + 32..] == p.root[32 * |files| + 32..] &&
                        forall i {:trigger FirstCluster(files, i)} :: 0 <= i < |files| ==>
                          Stored(q, i, files[i], FirstCluster(files, i))
  {
    hide Stored, Span;
    var q, next := p, 2;
    for k := 0 to |files|
      invariant next == FirstCluster(files, k) <= clusters + 2 && k < ROOT_ENTRIES
      invariant |q.fat| == |p.fat| && |q.root| == |p.root| && |q.data| == |p.data| && q.fat[..4] == p.fat[..4] &&
                q.root[..32] == p.root[..32]
      invariant q.fat[2 * next..] == p.fat[2 * next..] && q.root[32 * k + 32..] == p.root[32 * k + 32..]
      invariant forall i {:trigger FirstCluster(files, i)} :: 0 <= i < k ==>
                  Stored(q, i, files[i], FirstCluster(files, i))
    {
      var added := AddFile(q, k, files[k], next, clusters);
      if added.None? {
        TooMany(files, k, clusters);
        return None;
      }
      KeepAll(q, added.value, files, k, next);
      Later(q.fat, p.fat, 2 * next, 2 * (next + Span(files[k].content)));
      Later(q.root, p.root, 32 * k + 32, 32 * k + 64);
      q := added.value;
      next := next + Span(files[k].content);
    }
    r := Some(q);
  }

  lemma Later(s: seq<byte>, t: seq<byte>, n: nat, m: nat)
    requires n <= m <= |s| == |t| && s[n..] == t[n..]
    ensures s[m..] == t[m..]
  {
    assert s[m..] == s[n..][m - n..] && t[m..] == t[n..][m - n..];
  }

  lemma TooMany(files: seq<File>, k: nat, clusters: nat)
    requires k < |files| && (32 * k + 64 > 32 * ROOT_ENTRIES ||
             FirstCluster(files, k) + Span(files[k].content) > clusters + 2)
    ensures !Room(files, clusters)
  {
    ChainsDisjoint(files, k, |files|);
  }

  lemma KeepAll(p: Parts, q: Parts, files: seq<File>, k: nat, next: nat)
    requires k < |files| && next == FirstCluster(files, k)
    requires forall i {:trigger FirstCluster(files, i)} :: 0 <= i < k ==> Stored(p, i, files[i], FirstCluster(files, i))
    requires |q.fat| == |p.fat| && |q.root| == |p.root| && |q.data| == |p.data|
    requires 2 * next <= |p.fat| && q.fat[..2 * next] == p.fat[..2 * next]
    requires 32 * k + 32 <= |p.root| && q.root[..32 * k + 32] == p.root[..32 * k + 32]
    requires (next - 2) * CLUSTER_BYTES <= |p.data| &&
             q.data[..(next - 2) * CLUSTER_BYTES] == p.data[..(next - 2) * CLUSTER_BYTES]
    ensures forall i {:trigger FirstCluster(files, i)} :: 0 <= i < k ==> Stored(q, i, files[i], FirstCluster(files, i))
    ensures q.fat[..4] == p.fat[..4] && q.root[..32] == p.root[..32]
  {
    hide Stored, Span;
    forall i {:trigger FirstCluster(files, i)} | 0 <= i < k ensures Stored(q, i, files[i], FirstCluster(files, i)) {
      ChainsDisjoint(files, i, k);
      StoredKept(p, q, i, files[i], FirstCluster(files, i), k, next);
    }
    SamePrefix(p.fat, q.fat, 2 * next, 0, 4);
    SamePrefix(p.root, q.root, 32 * k + 32, 0, 32);
  }

  /** All clusters after those of the files are free, and all directory entries after theirs are unused. */
  ghost predicate FreeAfter(p: Parts, files: seq<File>) {
    (forall c {:trigger Get(p.fat, 2 * c, 2)} :: FirstCluster(files, |files|) <= c && 2 * c + 2 <= |p.fat| ==>
      Get(p.fat, 2 * c, 2) == 0) &&
    (forall k :: 32 * |files| + 32 <= k < |p.root| ==> p.root[k] == 0)
  }

  lemma FreeFromZeros(p: Parts, fat0: seq<byte>, root0: seq<byte>, files: seq<File>)
    requires |p.fat| == |fat0| && |p.root| == |root0| && 2 * FirstCluster(files, |files|) <= |fat0| &&
             32 * |files| + 32 <= |root0|
    requires p.fat[2 * FirstCluster(files, |files|)..] == fat0[2 * FirstCluster(files, |files|)..]
    requires p.root[32 * |files| + 32..] == root0[32 * |files| + 32..]
    requires forall k :: 4 <= k < |fat0| ==> fat0[k] == 0
    requires forall k :: 32 <= k < |root0| ==> root0[k] == 0
    ensures FreeAfter(p, files)
  {
    hide FirstCluster;
    var n := FirstCluster(files, |files|);
    forall c {:trigger Get(p.fat, 2 * c, 2)} | n <= c && 2 * c + 2 <= |p.fat| ensures Get(p.fat, 2 * c, 2) == 0 {
      var s := p.fat[2 * c..2 * c + 2];
      assert s[0] == p.fat[2 * n..][2 * c - 2 * n] && s[1] == p.fat[2 * n..][2 * c + 1 - 2 * n];
      assert s == [0, 0];
      assert LeValue([0]) == 0 && [0, 0][1..] == [0];
    }
    forall k | 32 * |files| + 32 <= k < |p.root| ensures p.root[k] == 0 {
      assert p.root[k] == p.root[32 * |files| + 32..][k - 32 * |files| - 32];
    }
  }

  // ---------------------------------------------------------------- the volume

  /** The boot sector: parameter block, labels, signature. */
  function Boot(total: nat, fat: nat, label11: seq<byte>, serial: nat): (b: seq<byte>)
    requires |label11| == 11
    ensures |b| == SECTOR
  {
    BootHead() + ParameterBlock(total, fat) + BootTail(label11, serial)
  }

  function BootHead(): (b: seq<byte>)
    ensures |b| == 11
  {
    [0xEB, 0x3C, 0x90, 0x57, 0x41, 0x53, 0x4D, 0x4F, 0x53, 0x20, 0x20]
  }

  function ParameterBlock(total: nat, fat: nat): (b: seq<byte>)
    ensures |b| == 25
  {
    (Le(SECTOR, 2) + [SECTORS_PER_CLUSTER] + Le(RESERVED_SECTORS, 2) + [FAT_COUNT]) +
    (Le(ROOT_ENTRIES, 2) + Le(if total > 0xFFFF then 0 else total, 2) + [0xF8] + Le(fat, 2)) +
    (Le(63, 2) + Le(255, 2) + Le(0, 4) + Le(if total > 0xFFFF then total else 0, 4))
  }

  function BootTail(label11: seq<byte>, serial: nat): (b: seq<byte>)
    requires |label11| == 11
    ensures |b| == SECTOR - 36 && b[SECTOR - 38..] == [0x55, 0xAA]
  {
    var b := [0x80, 0, 0x29] + Le(serial, 4) + label11 +
        ([0x46, 0x41, 0x54, 0x31, 0x36, 0x20, 0x20, 0x20] + Zeros(448) + [0x55, 0xAA]);
    assert b[SECTOR - 38..] == [0x55, 0xAA];
    b
  }

  lemma EntriesZero(n: nat, b: seq<byte>)
    requires |b| <= n
    ensures var s := Put(Zeros(n), 0, b); s[..|b|] == b && forall k :: |b| <= k < n ==> s[k] == 0
  {
  }

  /** Builds a volume of total sectors; fails just if the size does not suit or the files do not fit. */
  method BuildFat16(total: int, label11: seq<byte>, serial: nat, files: seq<File>)
    returns (vol: Option<seq<byte>>, ghost fat: nat, ghost p: Parts)
    requires |label11| == 11 && forall i :: 0 <= i < |files| ==> |files[i].name| == 11
    ensures vol.Some? <==> Formats(total) && Room(files, Clusters(total, (total + 995) / 1026))
    ensures vol.Some? ==>
              fat == (total + 995) / 1026 && Needed(total, fat) == fat && InBand(total, fat) &&
              2 * (Clusters(total, fat) + 2) <= SECTOR * fat &&
              |p.fat| == SECTOR * fat && |p.root| == SECTOR * ROOT_SECTORS &&
              |p.data| == SECTOR * DataSectors(total, fat) &&
              vol.value == Boot(total, fat, label11, serial) + p.fat + p.fat + p.root + p.data &&
              |vol.value| == SECTOR * total &&
              p.fat[..4] == Le(0xFFF8, 2) + Le(0xFFFF, 2) && p.root[..32] == DirEntry(label11, 0x08, 0, 0) &&
              FreeAfter(p, files) &&
              forall i {:trigger FirstCluster(files, i)} :: 0 <= i < |files| ==>
                Stored(p, i, files[i], FirstCluster(files, i))
  {
    hide Stored, Span, Boot, Le, DirEntry, Put, FirstCluster;
    fat, p := 0, Parts([], [], []);
    var size := FatSize(total);
    if size.None? {
      return None, fat, p;
    }
    FixedPoint(total, size.value);
    var fatSectors, dataSectors, clusters := size.value, DataSectors(total, size.value), Clusters(total, size.value);
    if !(MIN_CLUSTERS <= clusters <= MAX_CLUSTERS) {
      return None, fat, p;
    }
    fat := fatSectors;
    var table := Put(Zeros(SECTOR * fatSectors), 0, Le(0xFFF8, 2) + Le(0xFFFF, 2));
    var root := Put(Zeros(SECTOR * ROOT_SECTORS), 0, DirEntry(label11, 0x08, 0, 0));
    var parts := AddFiles(Parts(table, root, Zeros(SECTOR * dataSectors)), files, clusters);
    if parts.None? {
      return None, fat, p;
    }
    p := parts.value;
    EntriesZero(SECTOR * fatSectors, Le(0xFFF8, 2) + Le(0xFFFF, 2));
    EntriesZero(SECTOR * ROOT_SECTORS, DirEntry(label11, 0x08, 0, 0));
    FreeFromZeros(p, table, root, files);
    vol := Some(Boot(total, fatSectors, label11, serial) + parts.value.fat + parts.value.fat + parts.value.root +
        parts.value.data);
  }
}
