/**
 * What the sectors of a FAT16 volume from scripts/make_gpt_image.py say, by the places of the fields.
 */
module FatFields {
  import opened Bits
  import opened LittleEndian
  import opened Sequences
  import opened Fat16

  const LIMIT: nat := 0x1_0000_0000

  /** The parameter block, which starts at byte 11 of the boot sector. */
  lemma BlockSays(s: seq<byte>, total: nat, fat: nat)
    requires |s| >= 36 && s[11..36] == ParameterBlock(total, fat)
    ensures Get(s, 11, 2) == 512 && s[13] == 4 && Get(s, 14, 2) == 1 && s[16] == 2 && Get(s, 17, 2) == 512
    ensures Get(s, 19, 2) == (if total > 0xFFFF then 0 else total) && s[21] == 0xF8 && (fat < 0x10000 ==>
              Get(s, 22, 2) == fat)
    ensures Get(s, 24, 2) == 63 && Get(s, 26, 2) == 255 && Get(s, 28, 4) == 0
    ensures total < LIMIT ==> Get(s, 32, 4) == if total > 0xFFFF then total else 0
  {
    hide Le, Get, Pow256;
    SmallPow256();
    var low, high := if total > 0xFFFF then 0 else total, if total > 0xFFFF then total else 0;
    var a := Le(SECTOR, 2) + [SECTORS_PER_CLUSTER] + Le(RESERVED_SECTORS, 2) + [FAT_COUNT];
    var b := Le(ROOT_ENTRIES, 2) + Le(low, 2) + [0xF8] + Le(fat, 2);
    var c := Le(63, 2) + Le(255, 2) + Le(0, 4) + Le(high, 4);
    Halves(s, 11, a + b, c);
    Halves(s, 11, a, b);
    Quarters(s, 11, Le(SECTOR, 2), [SECTORS_PER_CLUSTER], Le(RESERVED_SECTORS, 2), [FAT_COUNT]);
    Quarters(s, 17, Le(ROOT_ENTRIES, 2), Le(low, 2), [0xF8], Le(fat, 2));
    Quarters(s, 24, Le(63, 2), Le(255, 2), Le(0, 4), Le(high, 4));
    assert s[13] == s[13..14][0] && s[16] == s[16..17][0] && s[21] == s[21..22][0];
    NumberAt(s, 11, SECTOR, 2);
    NumberAt(s, 14, RESERVED_SECTORS, 2);
    NumberAt(s, 17, ROOT_ENTRIES, 2);
    NumberAt(s, 19, low, 2);
    if fat < 0x10000 {
      NumberAt(s, 22, fat, 2);
    }
    NumberAt(s, 24, 63, 2);
    NumberAt(s, 26, 255, 2);
    NumberAt(s, 28, 0, 4);
    if total < LIMIT {
      NumberAt(s, 32, high, 4);
    }
  }

  /** What follows the parameter block. */
  lemma TailSays(s: seq<byte>, label11: seq<byte>, serial: nat)
    requires |s| >= 512 && |label11| == 11 && s[36..512] == BootTail(label11, serial)
    ensures s[36..39] == [0x80, 0, 0x29] && (serial < LIMIT ==> Get(s, 39, 4) == serial) && s[43..54] == label11
    ensures s[54..62] == [0x46, 0x41, 0x54, 0x31, 0x36, 0x20, 0x20, 0x20]
    ensures s[62..510] == Zeros(448) && s[510..512] == [0x55, 0xAA]
  {
    hide Le, Get, Pow256;
    SmallPow256();
    var kind: seq<byte> := [0x46, 0x41, 0x54, 0x31, 0x36, 0x20, 0x20, 0x20];
    Quarters(s, 36, [0x80, 0, 0x29], Le(serial, 4), label11, kind + Zeros(448) + [0x55, 0xAA]);
    Halves(s, 54, kind + Zeros(448), [0x55, 0xAA]);
    Halves(s, 54, kind, Zeros(448));
    if serial < LIMIT {
      NumberAt(s, 39, serial, 4);
    }
  }

  /** The parts of a boot sector. */
  lemma BootParts(total: nat, fat: nat, label11: seq<byte>, serial: nat)
    requires |label11| == 11
    ensures var b := Boot(total, fat, label11, serial);
            b[..11] == BootHead() && b[11..36] == ParameterBlock(total, fat) && b[36..512] == BootTail(label11, serial)
  {
    hide BootHead, ParameterBlock, BootTail;
    var b := Boot(total, fat, label11, serial);
    assert b[0..512] == b && b[0..11] == b[..11];
    Halves(b, 0, BootHead() + ParameterBlock(total, fat), BootTail(label11, serial));
    Halves(b, 0, BootHead(), ParameterBlock(total, fat));
  }

  /** A directory entry. */
  lemma EntrySays(e: seq<byte>, name: seq<byte>, attr: byte, first: nat, size: nat)
    requires |name| == 11 && e == DirEntry(name, attr, first, size) && first < 0x10000 && size < LIMIT
    ensures e[..11] == name && e[11] == attr && e[12..26] == Zeros(14)
    ensures Get(e, 26, 2) == first && Get(e, 28, 4) == size
  {
    hide Le, Get, Pow256;
    SmallPow256();
    assert e[0..32] == e && e[0..11] == e[..11];
    Quarters(e, 0, name, [attr], Zeros(14), Le(first, 2) + Le(size, 4));
    Halves(e, 26, Le(first, 2), Le(size, 4));
    assert e[11] == e[11..12][0];
    NumberAt(e, 26, first, 2);
    NumberAt(e, 28, size, 4);
  }
}
