/**
 * A reader of FAT16 volumes, which knows only the volume's bytes, and what it finds
 * in a volume built by Fat16.
 */
module FatReader {
  import opened Bits
  import opened Options
  import opened Sequences
  import opened LittleEndian
  import opened Fat16
  import opened FatFields

  /** Byte positions of the areas, from the parameter block. */
  datatype Layout = Layout(fatAt: nat, rootAt: nat, slots: nat, dataAt: nat, clusterBytes: nat)

  function Times(a: nat, b: nat): nat {
    a * b
  }

  function LayoutOf(vol: seq<byte>): Option<Layout> {
    if |vol| < SECTOR || vol[510..512] != [0x55, 0xAA] then None
    else
      var bytes, reserved, rootEntries, fatSectors := Get(vol, 11, 2), Get(vol, 14, 2), Get(vol, 17, 2),
          Get(vol, 22, 2);
      var rootAt := Times(reserved + Times(vol[16], fatSectors), bytes);
      Some(Layout(Times(reserved, bytes), rootAt, rootEntries, rootAt + 32 * rootEntries, Times(vol[13], bytes)))
  }

  /** The clusters of a chain, at most fuel of them. */
  function Follow(vol: seq<byte>, fatAt: nat, c: nat, fuel: nat): Option<seq<nat>>
    decreases fuel
  {
    if fuel == 0 || fatAt + 2 * c + 2 > |vol| then None
    else
      var next := Get(vol, fatAt + 2 * c, 2);
      if next >= 0xFFF8 then Some([c])
      else if next < 2 then None
      else
        match Follow(vol, fatAt, next, fuel - 1)
        case None => None
        case Some(rest) => Some([c] + rest)
  }

  /** The bytes of a list of clusters. */
  function ReadClusters(vol: seq<byte>, dataAt: nat, size: nat, chain: seq<nat>): Option<seq<byte>> {
    if chain == [] then Some([])
    else if chain[0] < 2 || dataAt + (chain[0] - 2) * size + size > |vol| then None
    else
      match ReadClusters(vol, dataAt, size, chain[1..])
      case None => None
      case Some(rest) => Some(vol[dataAt + (chain[0] - 2) * size..dataAt + (chain[0] - 2) * size + size] + rest)
  }

  /** Reads the file in a directory slot. */
  function ReadFile(vol: seq<byte>, lay: Layout, slot: nat): Option<File> {
    var e := lay.rootAt + 32 * slot;
    if e + 32 > |vol| then None
    else
      match Follow(vol, lay.fatAt, Get(vol, e + 26, 2), 0x10000)
      case None => None
      case Some(chain) =>
        match ReadClusters(vol, lay.dataAt, lay.clusterBytes, chain)
        case None => None
        case Some(bytes) =>
          var size := Get(vol, e + 28, 4);
          if size > |bytes| then None else Some(File(vol[e..e + 11], bytes[..size]))
  }

  /** Reads all files from a directory slot on, up to the first unused one. */
  function ReadDirectory(vol: seq<byte>, lay: Layout, slot: nat): Option<seq<File>>
    decreases lay.slots - slot
  {
    var e := lay.rootAt + 32 * slot;
    if slot >= lay.slots then Some([])
    else if e >= |vol| then None
    else if vol[e] == 0 then Some([])
    else
      match ReadFile(vol, lay, slot)
      case None => None
      case Some(f) =>
        match ReadDirectory(vol, lay, slot + 1)
        case None => None
        case Some(fs) => Some([f] + fs)
  }

  // ---------------------------------------------------------------- chains and clusters

  ghost function Consecutive(first: nat, n: nat): (s: seq<nat>)
    ensures |s| == n
    decreases n
  {
    if n == 0 then [] else [first] + Consecutive(first + 1, n - 1)
  }

  /** Following the chain of a stored file gives its clusters in order. */
  lemma {:induction false} FollowChain(vol: seq<byte>, fatAt: nat, c: nat, end: nat, fuel: nat)
    requires 1 <= c < end <= 0xFFF7 && end - c <= fuel && fatAt + 2 * end <= |vol|
    requires forall d {:trigger Link(d, end)} :: c <= d < end ==> Get(vol, fatAt + 2 * d, 2) == Link(d, end)
    ensures Follow(vol, fatAt, c, fuel) == Some(Consecutive(c, end - c))
    decreases end - c
  {
    hide Get;
    assert Get(vol, fatAt + 2 * c, 2) == Link(c, end);
    if c + 1 < end {
      FollowChain(vol, fatAt, c + 1, end, fuel - 1);
    } else {
      assert Consecutive(c, 1) == [c] + Consecutive(c + 1, 0) == [c];
    }
  }

  /** Consecutive clusters hold consecutive bytes. */
  lemma {:induction false} ReadConsecutive(vol: seq<byte>, dataAt: nat, first: nat, n: nat)
    requires first >= 2 && dataAt + (first - 2 + n) * CLUSTER_BYTES <= |vol|
    ensures var at := dataAt + (first - 2) * CLUSTER_BYTES;
            ReadClusters(vol, dataAt, CLUSTER_BYTES, Consecutive(first, n)) == Some(vol[at..at + n * CLUSTER_BYTES])
    decreases n
  {
    var at := dataAt + (first - 2) * CLUSTER_BYTES;
    if n == 0 {
      assert vol[at..at] == [];
    } else {
      ReadConsecutive(vol, dataAt, first + 1, n - 1);
      var chain := Consecutive(first, n);
      assert chain[1..] == Consecutive(first + 1, n - 1);
      assert vol[at..at + n * CLUSTER_BYTES] == vol[at..at + CLUSTER_BYTES] +
             vol[at + CLUSTER_BYTES..at + n * CLUSTER_BYTES];
    }
  }

  // ---------------------------------------------------------------- the built volume

  ghost function Built(boot: seq<byte>, p: Parts): seq<byte> {
    boot + p.fat + p.fat + p.root + p.data
  }

  /** Places in the volume are places in its parts. */
  lemma InMiddle(a: seq<byte>, b: seq<byte>, c: seq<byte>, from: nat, upto: nat)
    requires from <= upto <= |b|
    ensures (a + b + c)[|a| + from..|a| + upto] == b[from..upto]
  {
  }

  lemma InBoot(boot: seq<byte>, p: Parts)
    ensures |boot| <= |Built(boot, p)| && Built(boot, p)[..|boot|] == boot
  {
  }

  lemma InFat(boot: seq<byte>, p: Parts, from: nat, upto: nat)
    requires from <= upto <= |p.fat|
    ensures |boot| + upto <= |Built(boot, p)| && Built(boot, p)[|boot| + from..|boot| + upto] == p.fat[from..upto]
  {
    var rest := p.fat + p.root + p.data;
    assert Built(boot, p) == boot + p.fat + rest;
    InMiddle(boot, p.fat, rest, from, upto);
  }

  lemma InRoot(boot: seq<byte>, p: Parts, from: nat, upto: nat)
    requires from <= upto <= |p.root|
    ensures var at := |boot| + 2 * |p.fat|;
            at + upto <= |Built(boot, p)| && Built(boot, p)[at + from..at + upto] == p.root[from..upto]
  {
    var front := boot + p.fat + p.fat;
    assert Built(boot, p) == front + p.root + p.data;
    InMiddle(front, p.root, p.data, from, upto);
  }

  lemma InData(boot: seq<byte>, p: Parts, from: nat, upto: nat)
    requires from <= upto <= |p.data|
    ensures var at := |boot| + 2 * |p.fat| + |p.root|;
            at + upto <= |Built(boot, p)| && Built(boot, p)[at + from..at + upto] == p.data[from..upto]
  {
    var front := boot + p.fat + p.fat + p.root;
    assert Built(boot, p) == front + p.data + [];
    InMiddle(front, p.data, [], from, upto);
  }

  /** Reading a stored file through its directory slot and chain gives back its name and content. */
  lemma ReadStored(boot: seq<byte>, p: Parts, i: nat, f: File, first: nat)
    requires Stored(p, i, f, first) && |boot| == SECTOR && first + Span(f.content) <= 0xFFF7 &&
             |f.content| < 0x1_0000_0000
    ensures var rootAt := SECTOR + 2 * |p.fat|;
            ReadFile(Built(boot, p), Layout(SECTOR, rootAt, ROOT_ENTRIES, rootAt + |p.root|, CLUSTER_BYTES), i + 1) ==
              Some(f)
  {
    hide Built, Get, Le, Follow, ReadClusters, Link, Consecutive, DirEntry, Span, Stored;
    var rootAt := SECTOR + 2 * |p.fat|;
    EntryOf(boot, p, i, f, first);
    ChainOf(boot, p, i, f, first);
    var bytes := DataOf(boot, p, i, f, first);
  }

  lemma ChainOf(boot: seq<byte>, p: Parts, i: nat, f: File, first: nat)
    requires Stored(p, i, f, first) && |boot| == SECTOR && first + Span(f.content) <= 0xFFF7
    ensures Follow(Built(boot, p), SECTOR, first, 0x10000) == Some(Consecutive(first, Span(f.content)))
  {
    hide Built, Get, Follow, Consecutive, Span, DirEntry;
    var vol, end := Built(boot, p), first + Span(f.content);
    BuiltSize(boot, p);
    forall c {:trigger Link(c, end)} | first <= c < end ensures Get(vol, SECTOR + 2 * c, 2) == Link(c, end) {
      InFat(boot, p, 2 * c, 2 * c + 2);
      GetAt(vol, p.fat, SECTOR, 2 * c, 2);
    }
    FollowChain(vol, SECTOR, first, end, 0x10000);
  }

  lemma DataOf(boot: seq<byte>, p: Parts, i: nat, f: File, first: nat) returns (bytes: seq<byte>)
    requires Stored(p, i, f, first) && |boot| == SECTOR
    ensures ReadClusters(Built(boot, p), SECTOR + 2 * |p.fat| + |p.root|, CLUSTER_BYTES,
            Consecutive(first, Span(f.content))) == Some(bytes)
    ensures |bytes| >= |f.content| && bytes[..|f.content|] == f.content
  {
    hide Built, ReadClusters, Consecutive, DirEntry, Chained;
    var vol, n := Built(boot, p), Span(f.content);
    var dataAt, at := SECTOR + 2 * |p.fat| + |p.root|, (first - 2) * CLUSTER_BYTES;
    BuiltSize(boot, p);
    ReadConsecutive(vol, dataAt, first, n);
    InData(boot, p, at, at + |f.content|);
    bytes := vol[dataAt + at..dataAt + at + n * CLUSTER_BYTES];
    assert bytes[..|f.content|] == vol[dataAt + at..dataAt + at + |f.content|];
  }

  lemma BuiltSize(boot: seq<byte>, p: Parts)
    ensures |Built(boot, p)| == |boot| + 2 * |p.fat| + |p.root| + |p.data|
  {
  }

  lemma GetAt(vol: seq<byte>, s: seq<byte>, base: nat, at: nat, n: nat)
    requires at + n <= |s| && base + at + n <= |vol| && vol[base + at..base + at + n] == s[at..at + n]
    ensures Get(vol, base + at, n) == Get(s, at, n)
  {
  }

  /** The directory entry of the i-th file, in the volume. */
  lemma EntryOf(boot: seq<byte>, p: Parts, i: nat, f: File, first: nat)
    requires Stored(p, i, f, first) && |boot| == SECTOR && first < 0x10000 && |f.content| < 0x1_0000_0000
    ensures var vol, e := Built(boot, p), SECTOR + 2 * |p.fat| + 32 * (i + 1);
            e + 32 <= |vol| && vol[e..e + 11] == f.name && Get(vol, e + 26, 2) == first &&
            Get(vol, e + 28, 4) == |f.content|
  {
    hide Built, Get, DirEntry, Chained, Span;
    var vol, e := Built(boot, p), SECTOR + 2 * |p.fat| + 32 * (i + 1);
    BuiltSize(boot, p);
    InRoot(boot, p, 32 * i + 32, 32 * i + 64);
    var entry := DirEntry(f.name, 0x20, first, |f.content|);
    assert vol[e..e + 32] == entry;
    EntrySays(entry, f.name, 0x20, first, |f.content|);
    SubSlice(vol, e, entry, 0, 11);
    SubSlice(vol, e, entry, 26, 28);
    SubSlice(vol, e, entry, 28, 32);
    GetAt(vol, entry, e, 26, 2);
    GetAt(vol, entry, e, 28, 4);
  }

  // ---------------------------------------------------------------- the parameter block

  /** The parts of the boot sector, in the volume. */
  lemma BootIn(total: nat, fat: nat, label11: seq<byte>, serial: nat, p: Parts)
    requires |label11| == 11
    ensures var vol := Built(Boot(total, fat, label11, serial), p);
            |vol| == SECTOR + 2 * |p.fat| + |p.root| + |p.data| && vol[..11] == BootHead() &&
            vol[11..36] == ParameterBlock(total, fat) && vol[36..512] == BootTail(label11, serial)
  {
    hide Built, Boot, BootHead, ParameterBlock, BootTail;
    var boot := Boot(total, fat, label11, serial);
    var vol := Built(boot, p);
    BuiltSize(boot, p);
    InBoot(boot, p);
    BootParts(total, fat, label11, serial);
    assert boot[..SECTOR] == boot;
    SamePrefix(vol, boot, SECTOR, 0, 11);
    SamePrefix(vol, boot, SECTOR, 11, 36);
    SamePrefix(vol, boot, SECTOR, 36, 512);
  }

  /** A reader finds the areas where the builder put them. */
  lemma LayoutBuilt(total: nat, fat: nat, label11: seq<byte>, serial: nat, p: Parts)
    requires |label11| == 11 && fat < 0x10000 && |p.fat| == SECTOR * fat && |p.root| == SECTOR * ROOT_SECTORS
    ensures var rootAt := SECTOR + 2 * |p.fat|;
            LayoutOf(Built(Boot(total, fat, label11, serial), p)) ==
              Some(Layout(SECTOR, rootAt, ROOT_ENTRIES, rootAt + |p.root|, CLUSTER_BYTES))
  {
    hide Built, Boot, BootHead, ParameterBlock, BootTail, Get;
    var vol := Built(Boot(total, fat, label11, serial), p);
    BootIn(total, fat, label11, serial, p);
    BlockSays(vol, total, fat);
    TailSays(vol, label11, serial);
  }

  // ---------------------------------------------------------------- everything together

  /** A reader of the volume finds, after the volume label, exactly these files, in this order. */
  ghost predicate Holds(vol: seq<byte>, files: seq<File>) {
    LayoutOf(vol).Some? && ReadDirectory(vol, LayoutOf(vol).value, 1) == Some(files)
  }

  ghost predicate AllNamed(files: seq<File>) {
    forall i :: 0 <= i < |files| ==> |files[i].name| == 11 && files[i].name[0] != 0
  }

  /** After the last file the directory ends, or an entry that starts with a zero byte follows. */
  lemma DirectoryEnd(boot: seq<byte>, p: Parts, i: nat)
    requires i < ROOT_ENTRIES && |boot| == SECTOR && |p.root| == 32 * ROOT_ENTRIES
    requires i + 1 < ROOT_ENTRIES ==> p.root[32 * i + 32] == 0
    ensures var rootAt := SECTOR + 2 * |p.fat|;
            ReadDirectory(Built(boot, p), Layout(SECTOR, rootAt, ROOT_ENTRIES, rootAt + |p.root|, CLUSTER_BYTES),
              i + 1) == Some([])
  {
    hide ReadFile, Built;
    var vol, e := Built(boot, p), SECTOR + 2 * |p.fat| + 32 * (i + 1);
    BuiltSize(boot, p);
    if i + 1 < ROOT_ENTRIES {
      InRoot(boot, p, 32 * i + 32, 32 * i + 33);
      assert vol[e] == vol[e..e + 1][0] == p.root[32 * i + 32..32 * i + 33][0];
    }
  }

  /** The directory from the i-th file on. */
  lemma {:induction false} DirectoryFrom(boot: seq<byte>, p: Parts, files: seq<File>, clusters: nat, i: nat)
    requires i <= |files| < ROOT_ENTRIES && AllNamed(files) && |boot| == SECTOR && clusters <= MAX_CLUSTERS &&
             Room(files, clusters)
    requires |p.root| == 32 * ROOT_ENTRIES && |p.data| < 0x1_0000_0000 && FreeAfter(p, files)
    requires forall j {:trigger FirstCluster(files, j)} :: 0 <= j < |files| ==>
               Stored(p, j, files[j], FirstCluster(files, j))
    ensures var rootAt := SECTOR + 2 * |p.fat|;
            ReadDirectory(Built(boot, p), Layout(SECTOR, rootAt, ROOT_ENTRIES, rootAt + |p.root|, CLUSTER_BYTES),
              i + 1) == Some(files[i..])
    decreases |files| - i
  {
    hide ReadFile, Built, Stored, FirstCluster, Span, Get;
    var rootAt := SECTOR + 2 * |p.fat|;
    var vol, lay := Built(boot, p), Layout(SECTOR, rootAt, ROOT_ENTRIES, rootAt + |p.root|, CLUSTER_BYTES);
    var e := rootAt + 32 * (i + 1);
    BuiltSize(boot, p);
    if i < |files| {
      ChainsDisjoint(files, i, |files|);
      assert Stored(p, i, files[i], FirstCluster(files, i));
      ContentBound(p, i, files[i], FirstCluster(files, i));
      ReadStored(boot, p, i, files[i], FirstCluster(files, i));
      EntryOf(boot, p, i, files[i], FirstCluster(files, i));
      assert vol[e] == vol[e..e + 11][0];
      DirectoryFrom(boot, p, files, clusters, i + 1);
      assert files[i..] == [files[i]] + files[i + 1..];
    } else {
      assert files[i..] == [];
      DirectoryEnd(boot, p, i);
    }
  }

  lemma VolumeHolds(total: nat, fat: nat, label11: seq<byte>, serial: nat, p: Parts, files: seq<File>)
    requires |label11| == 11 && InBand(total, fat) && Room(files, Clusters(total, fat)) && fat < 0x10000 &&
             AllNamed(files)
    requires |p.fat| == SECTOR * fat && |p.root| == SECTOR * ROOT_SECTORS &&
             |p.data| == SECTOR * DataSectors(total, fat)
    requires FreeAfter(p, files) && forall i {:trigger FirstCluster(files, i)} :: 0 <= i < |files| ==>
               Stored(p, i, files[i], FirstCluster(files, i))
    ensures Holds(Built(Boot(total, fat, label11, serial), p), files)
  {
    hide LayoutOf, ReadFile, ReadDirectory, Built, Boot, Stored, FirstCluster, Span, FreeAfter, AllNamed;
    LayoutBuilt(total, fat, label11, serial, p);
    DirectoryFrom(Boot(total, fat, label11, serial), p, files, Clusters(total, fat), 0);
    assert files[0..] == files;
  }

  lemma ContentBound(p: Parts, i: nat, f: File, first: nat)
    requires Stored(p, i, f, first)
    ensures |f.content| <= |p.data|
  {
    hide Chained, DirEntry;
  }

  /** Builds a volume that a reader finds all files in. */
  method BuildVolume(total: int, label11: seq<byte>, serial: nat, files: seq<File>) returns (vol: Option<seq<byte>>)
    requires |label11| == 11 && AllNamed(files)
    ensures vol.Some? <==> Formats(total) && Room(files, Clusters(total, (total + 995) / 1026))
    ensures vol.Some? ==>
              total > 0 && |vol.value| == SECTOR * total && Get(vol.value, 11, 2) == SECTOR &&
              vol.value[510..512] == [0x55, 0xAA]
    ensures vol.Some? ==> Holds(vol.value, files)
    ensures vol.Some? ==>
              var v, fat := vol.value, (total + 995) / 1026;
              v[..11] == [0xEB, 0x3C, 0x90, 0x57, 0x41, 0x53, 0x4D, 0x4F, 0x53, 0x20, 0x20] && Get(v, 11, 2) == 512 &&
              v[13] == 4 && Get(v, 14, 2) == 1 && v[16] == 2 && Get(v, 17, 2) == 512 &&
              Get(v, 19, 2) == (if total > 0xFFFF then 0 else total) && v[21] == 0xF8 && Get(v, 22, 2) == fat &&
              Get(v, 24, 2) == 63 && Get(v, 26, 2) == 255 && Get(v, 28, 4) == 0 &&
              Get(v, 32, 4) == (if total > 0xFFFF then total else 0) && v[36..39] == [0x80, 0, 0x29] &&
              (serial < 0x1_0000_0000 ==> Get(v, 39, 4) == serial) && v[43..54] == label11 &&
              v[54..62] == [0x46, 0x41, 0x54, 0x31, 0x36, 0x20, 0x20, 0x20] && v[62..510] == Zeros(448)
    ensures vol.Some? ==>
              var v, fat := vol.value, (total + 995) / 1026;
              var r := 512 + 1024 * fat;
              0 < fat && r + 16384 <= |v| && |files| < 512 && TablesSay(v, fat) && LabelSays(v[r..r + 32], label11) &&
              forall i {:trigger files[i]} :: 0 <= i < |files| ==>
                FileSays(v[r + 32 * i + 32..r + 32 * i + 64], files[i], FirstCluster(files, i))
  {
    hide Holds, Built, Boot, Stored, Needed, Room, Get, FreeAfter, BootHead, ParameterBlock, BootTail;
    ghost var fat, p;
    vol, fat, p := BuildFat16(total, label11, serial, files);
    if vol.Some? {
      assert vol.value == Built(Boot(total, fat, label11, serial),
             p) by { BuiltIs(Boot(total, fat, label11, serial), p); }
      VolumeHolds(total, fat, label11, serial, p, files);
      BootIn(total, fat, label11, serial, p);
      BlockSays(vol.value, total, fat);
      TailSays(vol.value, label11, serial);
      assert BootHead() == [0xEB, 0x3C, 0x90, 0x57, 0x41, 0x53, 0x4D, 0x4F, 0x53, 0x20, 0x20] by { HeadBytes(); }
      TablesIn(Boot(total, fat, label11, serial), p, fat);
      RootIn(Boot(total, fat, label11, serial), p, label11, files, Clusters(total, fat));
    }
  }

  lemma HeadBytes()
    ensures BootHead() == [0xEB, 0x3C, 0x90, 0x57, 0x41, 0x53, 0x4D, 0x4F, 0x53, 0x20, 0x20]
  {
  }

  /** Two equal tables, which start with the media byte and an end mark. */
  ghost predicate TablesSay(v: seq<byte>, fat: nat) {
    512 + 1024 * fat <= |v| && fat > 0 && Get(v, 512, 2) == 0xFFF8 && Get(v, 514, 2) == 0xFFFF &&
    v[512..512 + 512 * fat] == v[512 + 512 * fat..512 + 1024 * fat]
  }

  /** The first directory entry is the volume label. */
  ghost predicate LabelSays(e: seq<byte>, label11: seq<byte>) {
    |e| == 32 && e[..11] == label11 && e[11] == 0x08 && e[12..] == Zeros(20)
  }

  /** The directory entry of a file: name, archive attribute, no times, first cluster and size. */
  ghost predicate FileSays(e: seq<byte>, f: File, first: nat) {
    |e| == 32 && e[..11] == f.name && e[11] == 0x20 && e[12..26] == Zeros(14) && Get(e, 26, 2) == first &&
    Get(e, 28, 4) == |f.content|
  }

  lemma TablesIn(boot: seq<byte>, p: Parts, fat: nat)
    requires |boot| == 512 && |p.fat| == 512 * fat && fat > 0 && p.fat[..4] == Le(0xFFF8, 2) + Le(0xFFFF, 2)
    ensures TablesSay(Built(boot, p), fat)
  {
    hide Le, Get, Pow256;
    var v := Built(boot, p);
    BuiltSize(boot, p);
    SmallPow256();
    InFat(boot, p, 0, |p.fat|);
    assert v[512..512 + 512 * fat] == p.fat == v[512 + 512 * fat..512 + 1024 * fat];
    assert v[512..516] == p.fat[..4];
    hide Built;
    Halves(v, 512, Le(0xFFF8, 2), Le(0xFFFF, 2));
    NumberAt(v, 512, 0xFFF8, 2);
    NumberAt(v, 514, 0xFFFF, 2);
  }

  lemma LabelIs(e: seq<byte>, label11: seq<byte>)
    requires |label11| == 11 && e == DirEntry(label11, 0x08, 0, 0)
    ensures LabelSays(e, label11)
  {
    assert Le(0, 4) == [0] + Le(0, 3) && Le(0, 3) == [0] + Le(0, 2);
    assert Le(0, 2) == [0, 0] by { LeTwo(0); }
    assert e[12..] == Zeros(14) + (Le(0, 2) + Le(0, 4)) == Zeros(20);
    EntrySays(e, label11, 0x08, 0, 0);
  }

  lemma RootIn(boot: seq<byte>, p: Parts, label11: seq<byte>, files: seq<File>, clusters: nat)
    requires |boot| == 512 && |label11| == 11 && Room(files, clusters) && clusters <= MAX_CLUSTERS
    requires |p.root| == 16384 && p.root[..32] == DirEntry(label11, 0x08, 0, 0) && |p.data| < 0x1_0000_0000
    requires forall i {:trigger FirstCluster(files, i)} :: 0 <= i < |files| ==>
               Stored(p, i, files[i], FirstCluster(files, i))
    ensures var v, r := Built(boot, p), 512 + 2 * |p.fat|;
            r + 16384 <= |v| && |files| < 512 && LabelSays(v[r..r + 32], label11) &&
            forall i {:trigger files[i]} :: 0 <= i < |files| ==>
              FileSays(v[r + 32 * i + 32..r + 32 * i + 64], files[i], FirstCluster(files, i))
  {
    hide Built, DirEntry, Stored, FirstCluster, LabelSays, FileSays, Span;
    var v, r := Built(boot, p), 512 + 2 * |p.fat|;
    BuiltSize(boot, p);
    LabelIn(boot, p, label11);
    forall i {:trigger files[i]} | 0 <= i < |files|
      ensures FileSays(v[r + 32 * i + 32..r + 32 * i + 64], files[i], FirstCluster(files, i))
    {
      ChainsDisjoint(files, i, |files|);
      assert Stored(p, i, files[i], FirstCluster(files, i));
      FileIn(boot, p, i, files[i], FirstCluster(files, i));
    }
  }

  lemma LabelIn(boot: seq<byte>, p: Parts, label11: seq<byte>)
    requires |boot| == 512 && |label11| == 11 && |p.root| == 16384 && p.root[..32] == DirEntry(label11, 0x08, 0, 0)
    ensures var v, r := Built(boot, p), 512 + 2 * |p.fat|;
            r + 32 <= |v| && LabelSays(v[r..r + 32], label11)
  {
    hide Built, DirEntry, LabelSays;
    InRoot(boot, p, 0, 32);
    assert p.root[0..32] == p.root[..32];
    LabelIs(p.root[..32], label11);
  }

  lemma FileIn(boot: seq<byte>, p: Parts, i: nat, f: File, first: nat)
    requires |boot| == 512 && Stored(p, i, f, first) && first < 0x10000 && |p.data| < 0x1_0000_0000
    requires 32 * i + 64 <= |p.root|
    ensures var v, r := Built(boot, p), 512 + 2 * |p.fat|;
            r + 32 * i + 64 <= |v| && FileSays(v[r + 32 * i + 32..r + 32 * i + 64], f, first)
  {
    hide Built, Stored, FileSays;
    InRoot(boot, p, 32 * i + 32, 32 * i + 64);
    FileIs(p, i, f, first);
  }

  lemma FileIs(p: Parts, i: nat, f: File, first: nat)
    requires Stored(p, i, f, first) && first < 0x10000 && |p.data| < 0x1_0000_0000 && 32 * i + 64 <= |p.root|
    ensures FileSays(p.root[32 * i + 32..32 * i + 64], f, first)
  {
    hide DirEntry, Chained, Get;
    ContentBound(p, i, f, first);
    EntrySays(p.root[32 * i + 32..32 * i + 64], f.name, 0x20, first, |f.content|);
  }

  lemma BuiltIs(boot: seq<byte>, p: Parts)
    ensures Built(boot, p) == boot + p.fat + p.fat + p.root + p.data
  {
  }
}
