/**
 * The disk image of scripts/make_gpt_image.py: protective MBR, two copies of a GPT, and one FAT16 volume.
 * Checksums come from an arbitrary function.
 */
module GptImage {
  import opened Bits
  import opened Options
  import opened Sequences
  import opened LittleEndian
  import opened Fat16
  import opened FatReader

  type u32 = x: int | 0 <= x < 0x1_0000_0000

  const ENTRY_LBAS: nat := 32
  const ENTRIES_BYTES: nat := 16384
  const HEADER_SIZE: nat := 92
  const LIMIT: nat := 0x1_0000_0000
  /** The first sector of the partition: the first multiple of one MiB after the primary GPT. */
  const PART_FIRST: nat := 2048

  function Signature(): (s: seq<byte>)
    ensures |s| == 8
  {
    [0x45, 0x46, 0x49, 0x20, 0x50, 0x41, 0x52, 0x54]
  }

  /** The fields before the header checksum, and those after it. */
  function HeaderFront(): (b: seq<byte>)
    ensures |b| == 16 && b[..8] == Signature()
  {
    var b := Signature() + Le(0x10000, 4) + Le(HEADER_SIZE, 4);
    assert b[..8] == Signature();
    b
  }

  function HeaderBack(my: nat, alt: nat, firstUsable: nat, lastUsable: nat, entryLba: nat, guid: seq<byte>,
                      entriesCrc: nat): (b: seq<byte>)
    requires |guid| == 16
    ensures |b| == 72
  {
    (Le(0, 4) + Le(my, 8) + Le(alt, 8) + Le(firstUsable, 8)) +
    (Le(lastUsable, 8) + guid + Le(entryLba, 8) + (Le(128, 4) + Le(128, 4) + Le(entriesCrc, 4)))
  }

  /** Every field after the header checksum, by its place in the header. */
  lemma BackAt(s: seq<byte>, at: nat, my: nat, alt: nat, firstUsable: nat, lastUsable: nat, entryLba: nat,
               guid: seq<byte>, entriesCrc: nat)
    requires |guid| == 16 && at + 92 <= |s|
    requires s[at + 20..at + 92] == HeaderBack(my, alt, firstUsable, lastUsable, entryLba, guid, entriesCrc)
    requires my < LIMIT && alt < LIMIT && firstUsable < LIMIT && lastUsable < LIMIT && entryLba < LIMIT
    requires entriesCrc < LIMIT
    ensures Get(s, at + 20, 4) == 0 && Get(s, at + 24, 8) == my && Get(s, at + 32, 8) == alt
    ensures Get(s, at + 40, 8) == firstUsable && Get(s, at + 48, 8) == lastUsable && s[at + 56..at + 72] == guid
    ensures Get(s, at + 72, 8) == entryLba && Get(s, at + 80, 4) == 128 && Get(s, at + 84, 4) == 128
    ensures Get(s, at + 88, 4) == entriesCrc
  {
    hide Le, Get, Pow256;
    SmallPow256();
    var a := Le(0, 4) + Le(my, 8) + Le(alt, 8) + Le(firstUsable, 8);
    var c := Le(128, 4) + Le(128, 4) + Le(entriesCrc, 4);
    var b := Le(lastUsable, 8) + guid + Le(entryLba, 8) + c;
    Halves(s, at + 20, a, b);
    Quarters(s, at + 20, Le(0, 4), Le(my, 8), Le(alt, 8), Le(firstUsable, 8));
    Quarters(s, at + 48, Le(lastUsable, 8), guid, Le(entryLba, 8), c);
    Halves(s, at + 80, Le(128, 4) + Le(128, 4), Le(entriesCrc, 4));
    Halves(s, at + 80, Le(128, 4), Le(128, 4));
    NumberAt(s, at + 20, 0, 4);
    NumberAt(s, at + 24, my, 8);
    NumberAt(s, at + 32, alt, 8);
    NumberAt(s, at + 40, firstUsable, 8);
    NumberAt(s, at + 48, lastUsable, 8);
    NumberAt(s, at + 72, entryLba, 8);
    NumberAt(s, at + 80, 128, 4);
    NumberAt(s, at + 84, 128, 4);
    NumberAt(s, at + 88, entriesCrc, 4);
  }

  /** A header sector: the checksum is taken with its own field zero. */
  function Header(back: seq<byte>, crc: seq<byte> -> u32): (h: seq<byte>)
    requires |back| == 72
    ensures |h| == SECTOR
  {
    HeaderFront() + Le(crc(HeaderFront() + Zeros(4) + back), 4) + back + Zeros(420)
  }

  // ---------------------------------------------------------------- verifying an image

  datatype Verdict =
    | Ok | NoMbr | NoGpt | BadHeaderCrc | BadEntriesCrc | NoBootSector | BadBlock | EmptyPartition | TooShort

  /** A slice that stops at the end of the buffer. */
  function Slice(s: seq<byte>, from: nat, upto: nat): seq<byte> {
    if from >= |s| || from >= upto then [] else if upto > |s| then s[from..] else s[from..upto]
  }

  /** Re-reads an image as a partition manager would. */
  function Verify(image: seq<byte>, crc: seq<byte> -> u32): Verdict {
    var header := Slice(image, SECTOR, SECTOR + HEADER_SIZE);
    if Slice(image, 510, 512) != [0x55, 0xAA] then NoMbr
    else if Slice(image, SECTOR, SECTOR + 8) != Signature() then NoGpt
    else if |header| < 20 then TooShort
    else if crc(Put(header, 16, Zeros(4))) != Get(header, 16, 4) then BadHeaderCrc
    else if |image| < SECTOR + HEADER_SIZE then TooShort
    else
      var start, size := Get(image, SECTOR + 72, 8) * SECTOR, Get(image, SECTOR + 80, 4) * Get(image, SECTOR + 84, 4);
      if crc(Slice(image, start, start + size)) != Get(image, SECTOR + 88, 4) then BadEntriesCrc
      else if |image| < start + 48 then TooShort
      else VerifyPartition(image, Get(image, start + 32, 8), Get(image, start + 40, 8))
  }

  function VerifyPartition(image: seq<byte>, first: nat, last: nat): Verdict {
    var boot := Slice(image, first * SECTOR, first * SECTOR + SECTOR);
    if Slice(boot, 510, 512) != [0x55, 0xAA] then NoBootSector
    else if |boot| < 13 then TooShort
    else if Get(boot, 11, 2) != SECTOR then BadBlock
    else if last <= first then EmptyPartition
    else Ok
  }

  // ---------------------------------------------------------------- building an image

  /** The partition entry and the empty ones after it. */
  function Entries(typeGuid: seq<byte>, partGuid: seq<byte>, first: nat, last: nat, name72: seq<byte>): (e: seq<byte>)
    requires |typeGuid| == |partGuid| == 16 && |name72| == 72
    ensures |e| == ENTRIES_BYTES
  {
    typeGuid + partGuid + (Le(first, 8) + Le(last, 8)) + (Le(0, 8) + name72 + Zeros(16256))
  }

  /** Every field of the first partition entry, by its place. */
  lemma EntryAt(s: seq<byte>, at: nat, typeGuid: seq<byte>, partGuid: seq<byte>, first: nat, last: nat,
                name72: seq<byte>)
    requires |typeGuid| == |partGuid| == 16 && |name72| == 72 && first < LIMIT && last < LIMIT
    requires at + ENTRIES_BYTES <= |s|
    requires s[at..at + ENTRIES_BYTES] == Entries(typeGuid, partGuid, first, last, name72)
    ensures s[at..at + 16] == typeGuid && s[at + 16..at + 32] == partGuid
    ensures Get(s, at + 32, 8) == first && Get(s, at + 40, 8) == last && Get(s, at + 48, 8) == 0
    ensures s[at + 56..at + 128] == name72 && forall k :: at + 128 <= k < at + 16384 ==> s[k] == 0
  {
    hide Le, Get, Pow256;
    SmallPow256();
    var c, d := Le(first, 8) + Le(last, 8), Le(0, 8) + name72 + Zeros(16256);
    Quarters(s, at, typeGuid, partGuid, c, d);
    Halves(s, at + 32, Le(first, 8), Le(last, 8));
    Halves(s, at + 48, Le(0, 8) + name72, Zeros(16256));
    Halves(s, at + 48, Le(0, 8), name72);
    NumberAt(s, at + 32, first, 8);
    NumberAt(s, at + 40, last, 8);
    NumberAt(s, at + 48, 0, 8);
    forall k | at + 128 <= k < at + 16384 ensures s[k] == 0 {
      assert s[k] == s[at + 128..at + 16384][k - at - 128];
    }
  }

  /** One entry of type 0xEE that covers the disk. */
  function Mbr(total: nat): (b: seq<byte>)
    requires total > 0
    ensures |b| == SECTOR && b[510..512] == [0x55, 0xAA]
  {
    var sectors := if total - 1 > 0xFFFF_FFFF then 0xFFFF_FFFF else total - 1;
    var b := Zeros(446) + [0, 0, 2, 0, 0xEE, 0xFF, 0xFF, 0xFF] + (Le(1, 4) + Le(sectors, 4)) +
        (Zeros(48) + [0x55, 0xAA]);
    assert b[510..512] == [0x55, 0xAA];
    b
  }

  /** The fields of the protective entry, by their places. */
  lemma MbrAt(s: seq<byte>, total: nat)
    requires 0 < total < LIMIT && |s| >= SECTOR && s[..512] == Mbr(total)
    ensures s[446..454] == [0, 0, 2, 0, 0xEE, 0xFF, 0xFF, 0xFF] && Get(s, 454, 4) == 1 && Get(s, 458, 4) == total - 1
    ensures forall k :: 0 <= k < 446 || 462 <= k < 510 ==> s[k] == 0
  {
    hide Le, Get, Pow256;
    SmallPow256();
    var entry: seq<byte>, numbers := [0, 0, 2, 0, 0xEE, 0xFF, 0xFF, 0xFF], Le(1, 4) + Le(total - 1, 4);
    assert s[0..512] == s[..512];
    Quarters(s, 0, Zeros(446), entry, numbers, Zeros(48) + [0x55, 0xAA]);
    Halves(s, 454, Le(1, 4), Le(total - 1, 4));
    Halves(s, 462, Zeros(48), [0x55, 0xAA]);
    NumberAt(s, 454, 1, 4);
    NumberAt(s, 458, total - 1, 4);
    forall k | 0 <= k < 446 || 462 <= k < 510 ensures s[k] == 0 {
      assert s[k] == if k < 446 then s[0..446][k] else s[462..510][k - 462];
    }
  }

  /** Where everything lies in an image of total sectors. */
  ghost predicate Laid(image: seq<byte>, total: nat, mbr: seq<byte>, primary: seq<byte>, entries: seq<byte>,
                       vol: seq<byte>, backup: seq<byte>) {
    total > 2081 && |image| == total * SECTOR && |mbr| == |primary| == |backup| == SECTOR &&
    |entries| == ENTRIES_BYTES &&
    |vol| == (total - 2081) * SECTOR &&
    image[..512] == mbr && image[512..1024] == primary && image[1024..17408] == entries &&
    image[PART_FIRST * SECTOR..(total - 33) * SECTOR] == vol &&
    image[(total - 33) * SECTOR..(total - 1) * SECTOR] == entries && image[(total - 1) * SECTOR..] == backup
  }

  method Assemble(total: nat, mbr: seq<byte>, primary: seq<byte>, entries: seq<byte>, vol: seq<byte>, backup: seq<byte>)
    returns (image: seq<byte>)
    requires total > 2081 && |mbr| == |primary| == |backup| == SECTOR && |entries| == ENTRIES_BYTES &&
             |vol| == (total - 2081) * SECTOR
    ensures Laid(image, total, mbr, primary, entries, vol, backup)
  {
    hide Put;
    image := Zeros(total * SECTOR);
    PutAfter(image, 0, mbr);
    image := Put(image, 0, mbr);
    PutAfter(image, SECTOR, primary);
    image := Put(image, SECTOR, primary);
    PutAfter(image, 2 * SECTOR, entries);
    image := Put(image, 2 * SECTOR, entries);
    PutAfter(image, PART_FIRST * SECTOR, vol);
    image := Put(image, PART_FIRST * SECTOR, vol);
    PutAfter(image, (total - 33) * SECTOR, entries);
    image := Put(image, (total - 33) * SECTOR, entries);
    PutAfter(image, (total - 1) * SECTOR, backup);
    image := Put(image, (total - 1) * SECTOR, backup);
    assert image[..512] == image[0..512] &&
           image[(total - 1) * SECTOR..] == image[(total - 1) * SECTOR..total * SECTOR];
  }

  ghost predicate Texts(label11: seq<byte>, name72: seq<byte>, typeGuid: seq<byte>, partGuid: seq<byte>,
                        diskGuid: seq<byte>) {
    |label11| == 11 && |name72| == 72 && |typeGuid| == |partGuid| == |diskGuid| == 16
  }

  /** Builds all parts of an image of size MiB; it fails just if the volume cannot be built. */
  method BuildParts(size: int, label11: seq<byte>, serial: nat, name72: seq<byte>, typeGuid: seq<byte>,
                    partGuid: seq<byte>, diskGuid: seq<byte>, files: seq<File>, crc: seq<byte> -> u32)
    returns (image: Option<seq<byte>>, ghost vol: seq<byte>)
    requires Texts(label11, name72, typeGuid, partGuid, diskGuid) && AllNamed(files)
    ensures image.Some? <==>
            Formats(2048 * size - 2081) && Room(files, Clusters(2048 * size - 2081, (2048 * size - 1086) / 1026))
    ensures image.Some? ==>
              var total := 2048 * size;
              2082 < total < 400000 && |vol| >= SECTOR && Get(vol, 11, 2) == SECTOR && vol[510..512] == [0x55, 0xAA] &&
              vol[43..54] == label11 && Holds(vol, files) &&
              var entries := Entries(typeGuid, partGuid, PART_FIRST, total - 34, name72);
              Laid(image.value, total, Mbr(total),
                Header(HeaderBack(1, total - 1, 34, total - 34, 2, diskGuid, crc(entries)), crc), entries, vol,
                   Header(HeaderBack(total - 1, 1, 34, total - 34, total - 33, diskGuid, crc(entries)), crc))
  {
    hide Holds, Laid, Entries, Mbr, Header, HeaderBack, Room, Formats, Get;
    var total := 2048 * size;
    var lastUsable := total - 34;
    var volume := BuildVolume(lastUsable - PART_FIRST + 1, label11, serial, files);
    vol := [];
    if volume.None? {
      return None, vol;
    }
    vol := volume.value;
    var entries := Entries(typeGuid, partGuid, PART_FIRST, lastUsable, name72);
    var entriesCrc := crc(entries);
    var primary := Header(HeaderBack(1, total - 1, 34, lastUsable, 2, diskGuid, entriesCrc), crc);
    var backup := Header(HeaderBack(total - 1, 1, 34, lastUsable, total - 33, diskGuid, entriesCrc), crc);
    BandTotal(total - 2081);
    var whole := Assemble(total, Mbr(total), primary, entries, volume.value, backup);
    image := Some(whole);
  }

  /** Builds an image of size MiB; what its sectors say is stated by the places of the fields. */
  method BuildImage(size: int, label11: seq<byte>, serial: nat, name72: seq<byte>, typeGuid: seq<byte>,
                    partGuid: seq<byte>, diskGuid: seq<byte>, files: seq<File>, crc: seq<byte> -> u32)
    returns (image: Option<seq<byte>>, ghost vol: seq<byte>)
    requires Texts(label11, name72, typeGuid, partGuid, diskGuid) && AllNamed(files)
    ensures image.Some? <==>
            Formats(2048 * size - 2081) && Room(files, Clusters(2048 * size - 2081, (2048 * size - 1086) / 1026))
    ensures image.Some? ==> 2048 * size > 2081 && |image.value| == 1048576 * size
    ensures image.Some? ==>
              var mbr := image.value[..512];
              mbr[446..454] == [0, 0, 2, 0, 0xEE, 0xFF, 0xFF, 0xFF] && Get(mbr, 454, 4) == 1 &&
              Get(mbr, 458, 4) == 2048 * size - 1 && mbr[510..512] == [0x55, 0xAA] &&
              forall k :: 0 <= k < 446 || 462 <= k < 510 ==> mbr[k] == 0
    ensures image.Some? ==>
              var h, total, entries := image.value[512..1024], 2048 * size, image.value[1024..17408];
              h[..8] == [0x45, 0x46, 0x49, 0x20, 0x50, 0x41, 0x52, 0x54] && Get(h, 8, 4) == 0x10000 &&
              Get(h, 12, 4) == 92 && Get(h, 20, 4) == 0 && Get(h, 24, 8) == 1 && Get(h, 32, 8) == total - 1 &&
              Get(h, 40, 8) == 34 && Get(h, 48, 8) == total - 34 && h[56..72] == diskGuid && Get(h, 72, 8) == 2 &&
              Get(h, 80, 4) == 128 && Get(h, 84, 4) == 128 && Get(h, 88, 4) == crc(entries) &&
              Get(h, 16, 4) == crc(Put(h[..92], 16, Zeros(4))) && h[92..] == Zeros(420)
    ensures image.Some? ==>
              var h, total, entries := image.value[|image.value| - 512..], 2048 * size, image.value[1024..17408];
              h[..8] == [0x45, 0x46, 0x49, 0x20, 0x50, 0x41, 0x52, 0x54] && Get(h, 8, 4) == 0x10000 &&
              Get(h, 12, 4) == 92 && Get(h, 20, 4) == 0 && Get(h, 24, 8) == total - 1 && Get(h, 32, 8) == 1 &&
              Get(h, 40, 8) == 34 && Get(h, 48, 8) == total - 34 && h[56..72] == diskGuid &&
              Get(h, 72, 8) == total - 33 && Get(h, 80, 4) == 128 && Get(h, 84, 4) == 128 &&
              Get(h, 88, 4) == crc(entries) && Get(h, 16, 4) == crc(Put(h[..92], 16, Zeros(4))) &&
              h[92..] == Zeros(420)
    ensures image.Some? ==>
              var e, total := image.value[1024..17408], 2048 * size;
              e[..16] == typeGuid && e[16..32] == partGuid && Get(e, 32, 8) == 2048 && Get(e, 40, 8) == total - 34 &&
              Get(e, 48, 8) == 0 && e[56..128] == name72 && (forall k :: 128 <= k < 16384 ==> e[k] == 0) &&
              image.value[512 * (total - 33)..512 * (total - 1)] == e &&
              image.value[512 * 2048..512 * (total - 33)] == vol
    ensures image.Some? ==>
              |vol| >= 512 && vol[43..54] == label11 && Holds(vol, files) && Verify(image.value, crc) == Ok
  {
    hide Holds, Verify, Entries, Mbr, Header, HeaderBack, Room, Formats, Get, Put, Signature;
    image, vol := BuildParts(size, label11, serial, name72, typeGuid, partGuid, diskGuid, files, crc);
    if image.Some? {
      ghost var s, total := image.value, 2048 * size;
      ghost var entries := Entries(typeGuid, partGuid, PART_FIRST, total - 34, name72);
      ghost var backup := Header(HeaderBack(total - 1, 1, 34, total - 34, total - 33, diskGuid, crc(entries)), crc);
      Verifies(s, total, entries, vol, backup, typeGuid, partGuid, name72, diskGuid, crc);
      MbrSays(s[..512], total);
      HeaderSays(s[512..1024], 1, total - 1, total - 34, 2, diskGuid, crc(entries), crc);
      HeaderSays(s[|s| - 512..], total - 1, 1, total - 34, total - 33, diskGuid, crc(entries), crc);
      EntriesSay(s[1024..17408], typeGuid, partGuid, total - 34, name72);
    }
  }

  /** The sizes, in MiB, for which an image can be built. */
  lemma ImageSizes(size: int)
    ensures Formats(2048 * size - 2081) <==> 10 <= size <= 129
  {
    var total := 2048 * size - 2081;
    var k, r := (total + 995) / 1026, (total + 995) % 1026;
    assert 2048 * size - 1086 == 1026 * k + r;
    if 10 <= size <= 129 {
      Floor(2048 * size - 1086, 1026, 2 * size - 2, 966 - 4 * size);
    }
  }

  lemma SliceIs(s: seq<byte>, from: nat, upto: nat)
    requires from < upto <= |s|
    ensures Slice(s, from, upto) == s[from..upto]
  {
  }

  /** A header sector in place: its signature, revision, size and checksum. */
  lemma HeaderVerifies(image: seq<byte>, at: nat, back: seq<byte>, crc: seq<byte> -> u32)
    requires |back| == 72 && at + 512 <= |image| && image[at..at + 512] == Header(back, crc)
    ensures image[at..at + 8] == Signature() && Get(image, at + 8, 4) == 0x10000 && Get(image, at + 12, 4) == 92
    ensures crc(Put(image[at..at + 92], 16, Zeros(4))) == Get(image[at..at + 92], 16, 4) == Get(image, at + 16, 4)
    ensures image[at + 20..at + 92] == back && image[at + 92..at + 512] == Zeros(420)
  {
    hide Le, LeValue, Get, Pow256, Signature;
    var front, c := HeaderFront(), crc(HeaderFront() + Zeros(4) + back);
    var h := front + Le(c, 4) + back;
    assert Header(back, crc) == h + Zeros(420);
    SmallPow256();
    Halves(image, at, h, Zeros(420));
    Halves(image, at, front + Le(c, 4), back);
    Halves(image, at, front, Le(c, 4));
    Halves(image, at, Signature() + Le(0x10000, 4), Le(HEADER_SIZE, 4));
    Halves(image, at, Signature(), Le(0x10000, 4));
    assert Put(h, 16, Zeros(4)) == front + Zeros(4) + back;
    NumberAt(image, at + 8, 0x10000, 4);
    NumberAt(image, at + 12, HEADER_SIZE, 4);
    NumberAt(image, at + 16, c, 4);
    GetField(h, 0, h, 16, c, 4);
  }

  lemma PartitionVerifies(image: seq<byte>, total: nat, vol: seq<byte>)
    requires total > 2082 && |image| == total * SECTOR && |vol| == (total - 2081) * SECTOR &&
             image[PART_FIRST * SECTOR..(total - 33) * SECTOR] == vol
    requires Get(vol, 11, 2) == SECTOR && vol[510..512] == [0x55, 0xAA]
    ensures VerifyPartition(image, PART_FIRST, total - 34) == Ok
  {
    hide LeValue;
    var at := PART_FIRST * SECTOR;
    SliceIs(image, at, at + SECTOR);
    SubSlice(image, at, vol, 0, SECTOR);
    var boot := image[at..at + SECTOR];
    SliceIs(boot, 510, 512);
    assert boot[510..512] == vol[510..512] && boot[11..13] == vol[11..13];
  }

  /** The image verifies: its signatures, both checksums and the partition's boot sector. */
  lemma Verifies(image: seq<byte>, total: nat, entries: seq<byte>, vol: seq<byte>, backup: seq<byte>,
                 typeGuid: seq<byte>, partGuid: seq<byte>, name72: seq<byte>, diskGuid: seq<byte>,
                 crc: seq<byte> -> u32)
    requires |typeGuid| == |partGuid| == |diskGuid| == 16 && |name72| == 72 && 2082 < total < 400000
    requires entries == Entries(typeGuid, partGuid, PART_FIRST, total - 34, name72)
    requires var back := HeaderBack(1, total - 1, 34, total - 34, 2, diskGuid, crc(entries));
             Laid(image, total, Mbr(total), Header(back, crc), entries, vol, backup)
    requires |vol| >= SECTOR && Get(vol, 11, 2) == SECTOR && vol[510..512] == [0x55, 0xAA]
    ensures Verify(image, crc) == Ok
  {
    hide HeaderBack, Entries, Mbr, Header, Get, Put, HeaderFront, VerifyPartition, Signature;
    var back := HeaderBack(1, total - 1, 34, total - 34, 2, diskGuid, crc(entries));
    SliceIs(image, 510, 512);
    assert image[510..512] == image[..512][510..512];
    SliceIs(image, 512, 520);
    SliceIs(image, 512, 604);
    HeaderVerifies(image, 512, back, crc);
    BackAt(image, 512, 1, total - 1, 34, total - 34, 2, diskGuid, crc(entries));
    SliceIs(image, 1024, 17408);
    EntryAt(image, 1024, typeGuid, partGuid, PART_FIRST, total - 34, name72);
    PartitionVerifies(image, total, vol);
  }

  /** What a header sector says, by the places of its fields. */
  lemma HeaderSays(h: seq<byte>, my: nat, alt: nat, lastUsable: nat, entryLba: nat, diskGuid: seq<byte>,
                   entriesCrc: u32, crc: seq<byte> -> u32)
    requires |diskGuid| == 16 && my < LIMIT && alt < LIMIT && lastUsable < LIMIT && entryLba < LIMIT
    requires h == Header(HeaderBack(my, alt, 34, lastUsable, entryLba, diskGuid, entriesCrc), crc)
    ensures h[..8] == [0x45, 0x46, 0x49, 0x20, 0x50, 0x41, 0x52, 0x54] && Get(h, 8, 4) == 0x10000
    ensures Get(h, 12, 4) == 92 && Get(h, 20, 4) == 0 && Get(h, 24, 8) == my && Get(h, 32, 8) == alt
    ensures Get(h, 40, 8) == 34 && Get(h, 48, 8) == lastUsable && h[56..72] == diskGuid && Get(h, 72, 8) == entryLba
    ensures Get(h, 80, 4) == 128 && Get(h, 84, 4) == 128 && Get(h, 88, 4) == entriesCrc
    ensures Get(h, 16, 4) == crc(Put(h[..92], 16, Zeros(4))) && h[92..] == Zeros(420)
  {
    hide HeaderBack, Header, Get, Put;
    assert h[0..512] == h && h[0..92] == h[..92] && h[0..8] == h[..8] && h[92..512] == h[92..];
    HeaderVerifies(h, 0, HeaderBack(my, alt, 34, lastUsable, entryLba, diskGuid, entriesCrc), crc);
    BackAt(h, 0, my, alt, 34, lastUsable, entryLba, diskGuid, entriesCrc);
  }

  /** What the partition entries say. */
  lemma EntriesSay(e: seq<byte>, typeGuid: seq<byte>, partGuid: seq<byte>, last: nat, name72: seq<byte>)
    requires |typeGuid| == |partGuid| == 16 && |name72| == 72 && last < LIMIT
    requires e == Entries(typeGuid, partGuid, PART_FIRST, last, name72)
    ensures e[..16] == typeGuid && e[16..32] == partGuid && Get(e, 32, 8) == 2048 && Get(e, 40, 8) == last
    ensures Get(e, 48, 8) == 0 && e[56..128] == name72 && forall k :: 128 <= k < 16384 ==> e[k] == 0
  {
    hide Entries, Get;
    assert e[0..16384] == e && e[0..16] == e[..16];
    EntryAt(e, 0, typeGuid, partGuid, PART_FIRST, last, name72);
  }

  lemma MbrSays(m: seq<byte>, total: nat)
    requires 0 < total < LIMIT && m == Mbr(total)
    ensures m[446..454] == [0, 0, 2, 0, 0xEE, 0xFF, 0xFF, 0xFF] && Get(m, 454, 4) == 1 && Get(m, 458, 4) == total - 1
    ensures forall k :: 0 <= k < 446 || 462 <= k < 510 ==> m[k] == 0
  {
    hide Mbr, Get;
    assert m[..512] == m;
    MbrAt(m, total);
  }
}
