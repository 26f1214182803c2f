/**
 * The package parser of scripts/wasm_inspect.py. It accepts a file if and only if the file is laid out as a package.
 */
module WapParser {
  import opened Bits
  import opened Options
  import opened Sequences
  import opened LittleEndian
  import opened WapFormat

  datatype Parsed =
    | NotApp
    | Bad
    | App(version: nat, flags: nat, name: seq<byte>, entry: seq<byte>, wasmOffset: nat, wasmSize: nat)

  // ---------------------------------------------------------------- records with trailing names

  /** The position after one record with a trailing name, if it is all there. */
  function SkipOne(data: seq<byte>, off: nat): Option<nat> {
    if off + 8 > |data| then None
    else
      var end := off + 8 + Get(data, off, 4);
      if end > |data| then None else Some(end)
  }

  function SkipNamed(data: seq<byte>, off: nat, count: nat): Option<nat> {
    if count == 0 then Some(off)
    else
      match SkipNamed(data, off, count - 1)
      case None => None
      case Some(at) => SkipOne(data, at)
  }

  lemma {:induction false} SkipFails(data: seq<byte>, off: nat, i: nat, count: nat)
    requires i <= count && SkipNamed(data, off, i) == None
    ensures SkipNamed(data, off, count) == None
    decreases count
  {
    if i < count {
      SkipFails(data, off, i, count - 1);
    }
  }

  method SkipLoop(data: seq<byte>, off0: nat, count: nat) returns (off: Option<nat>)
    ensures off == SkipNamed(data, off0, count)
  {
    hide Get;
    var at := off0;
    for i := 0 to count
      invariant SkipNamed(data, off0, i) == Some(at)
    {
      if at + 8 > |data| {
        SkipFails(data, off0, i + 1, count);
        return None;
      }
      var len := Get(data, at, 4);
      at := at + 8;
      if at + len > |data| {
        SkipFails(data, off0, i + 1, count);
        return None;
      }
      at := at + len;
    }
    off := Some(at);
  }

  /** The record in place between two positions. */
  function RecordAt(data: seq<byte>, at: nat, end: nat): Named
    requires at + 8 <= end <= |data|
  {
    Named(data[at + 8..end], Get(data, at + 4, 4))
  }

  /** A record is skipped exactly if its bytes are in place. */
  lemma RecordSkipped(data: seq<byte>, at: nat, end: nat)
    requires at + 8 <= end <= |data|
    ensures SkipOne(data, at) == Some(end) ==>
              var n := RecordAt(data, at, end);
              |n.name| < LIMIT && n.value < LIMIT && data[at..end] == NamedBytes(n)
    ensures forall n: Named | |n.name| < LIMIT && n.value < LIMIT && data[at..end] == NamedBytes(n) ::
              SkipOne(data, at) == Some(end) && RecordAt(data, at, end) == n
  {
    hide Get, NamedBytes;
    SmallPow256();
    GetBack(data, at, 4);
    GetBack(data, at + 4, 4);
    if SkipOne(data, at) == Some(end) {
      NamedAt(data, at, RecordAt(data, at, end));
    }
    forall n: Named | |n.name| < LIMIT && n.value < LIMIT && data[at..end] == NamedBytes(n)
      ensures SkipOne(data, at) == Some(end) && RecordAt(data, at, end) == n
    {
      assert |data[at..end]| == end - at;
      NamedAt(data, at, n);
    }
  }

  /** The records read by skipping count of them. */
  function ReadNamed(data: seq<byte>, off: nat, count: nat): (ns: seq<Named>)
    requires off <= |data| && SkipNamed(data, off, count).Some?
    ensures |ns| == count && off <= SkipNamed(data, off, count).value <= |data|
  {
    if count == 0 then []
    else
      var before := ReadNamed(data, off, count - 1);
      before + [RecordAt(data, SkipNamed(data, off, count - 1).value, SkipNamed(data, off, count).value)]
  }

  lemma {:induction false} SkipLast(data: seq<byte>, off: nat, count: nat)
    requires off <= |data| && count > 0 && SkipNamed(data, off, count).Some?
    ensures SkipNamed(data, off, count - 1).Some?
    ensures var at, end := SkipNamed(data, off, count - 1).value, SkipNamed(data, off, count).value;
            SkipOne(data, at) == Some(end) && off <= at && at + 8 <= end <= |data| &&
            ReadNamed(data, off, count) == ReadNamed(data, off, count - 1) + [RecordAt(data, at, end)]
  {
    hide Get, RecordAt;
    assert |ReadNamed(data, off, count - 1)| == count - 1;
  }

  /** What was skipped is a section. */
  lemma {:induction false} SkippedIsSection(data: seq<byte>, off: nat, count: nat)
    requires off <= |data| && SkipNamed(data, off, count).Some? && count < LIMIT
    ensures var ns := ReadNamed(data, off, count);
            AllShort(ns) && data[off..SkipNamed(data, off, count).value] == NamedSection(ns)
    decreases count
  {
    hide Get, NamedBytes, NamedSection, SkipOne, SkipNamed, ReadNamed, RecordAt;
    if count == 0 {
      NoneSkipped(data, off);
    } else {
      SkipLast(data, off, count);
      SkippedIsSection(data, off, count - 1);
      var before := ReadNamed(data, off, count - 1);
      var at, end := SkipNamed(data, off, count - 1).value, SkipNamed(data, off, count).value;
      RecordSkipped(data, at, end);
      var n := RecordAt(data, at, end);
      assert (before + [n])[..count - 1] == before;
      NamedSnoc(before + [n]);
      Together(data, off, NamedSection(before), NamedBytes(n));
    }
  }

  lemma {:induction false} SkipNext(data: seq<byte>, off: nat, ns: seq<Named>, at: nat, end: nat)
    requires off <= |data| && SkipNamed(data, off, |ns|) == Some(at) && ReadNamed(data, off, |ns|) == ns
    requires SkipOne(data, at) == Some(end) && at + 8 <= end <= |data|
    ensures SkipNamed(data, off, |ns| + 1) == Some(end)
    ensures ReadNamed(data, off, |ns| + 1) == ns + [RecordAt(data, at, end)]
  {
    hide Get, SkipOne;
  }

  /** A section is skipped exactly, and its records are read. */
  lemma {:induction false} SkipSection(data: seq<byte>, off: nat, ns: seq<Named>)
    requires AllShort(ns) && off + |NamedSection(ns)| <= |data|
    requires data[off..off + |NamedSection(ns)|] == NamedSection(ns)
    ensures SkipNamed(data, off, |ns|) == Some(off + |NamedSection(ns)|) && ReadNamed(data, off, |ns|) == ns
    decreases |ns|
  {
    hide Get, NamedBytes, NamedSection, SkipOne, SkipNamed, ReadNamed, RecordAt;
    if ns == [] {
      NoneSkipped(data, off);
    } else {
      var m := |ns| - 1;
      NamedSnoc(ns);
      var at := off + |NamedSection(ns[..m])|;
      var end := at + |NamedBytes(ns[m])|;
      Halves(data, off, NamedSection(ns[..m]), NamedBytes(ns[m]));
      SkipSection(data, off, ns[..m]);
      RecordSkipped(data, at, end);
      SkipNext(data, off, ns[..m], at, end);
      assert ns == ns[..m] + [ns[m]];
    }
  }

  lemma NoneSkipped(data: seq<byte>, off: nat)
    requires off <= |data|
    ensures SkipNamed(data, off, 0) == Some(off) && ReadNamed(data, off, 0) == [] && NamedSection([]) == []
  {
  }

  // ---------------------------------------------------------------- the parser

  /** The position after endpoints, capabilities, regions and memory hints. */
  function Sections(data: seq<byte>, off: nat): Option<nat>
    requires |data| >= HEADER_SIZE
  {
    match SkipNamed(data, off, Get(data, 28, 4))
    case None => None
    case Some(a) =>
      match SkipNamed(data, a, Get(data, 32, 4))
      case None => None
      case Some(b) =>
        var c := b + 6 * Get(data, 52, 4);
        var d := c + 12 * Get(data, 36, 4);
        if Get(data, 36, 4) > 0 && d > |data| then None else Some(d)
  }

  function Parse(data: seq<byte>): Parsed {
    if |data| < 8 then Bad
    else if data[..8] != Magic() then NotApp
    else if |data| < HEADER_SIZE || Get(data, 8, 2) != VERSION || Get(data, 10, 2) != HEADER_SIZE then Bad
    else
      var nameEnd := HEADER_SIZE + Get(data, 16, 4);
      var entryEnd := nameEnd + Get(data, 20, 4);
      if entryEnd > |data| then Bad
      else
        match Sections(data, entryEnd)
        case None => Bad
        case Some(off) =>
          if off + Get(data, 24, 4) > |data| then Bad
          else App(VERSION, Get(data, 12, 4), data[HEADER_SIZE..nameEnd], data[nameEnd..entryEnd], off,
            Get(data, 24, 4))
  }

  /** What the sections of a file hold; regions, hints and everything after the payload may be any bytes. */
  datatype Layout =
    Layout(name: seq<byte>, entry: seq<byte>, endpoints: seq<Named>, caps: seq<Named>, wasm: seq<byte>)

  /** The counts and lengths in the header are those of s. */
  ghost predicate Counted(data: seq<byte>, s: Layout)
    requires |data| >= HEADER_SIZE
  {
    Get(data, 16, 4) == |s.name| && Get(data, 20, 4) == |s.entry| && Get(data, 24, 4) == |s.wasm| &&
    Get(data, 28, 4) == |s.endpoints| && Get(data, 32, 4) == |s.caps|
  }

  /** Where the payload starts: after name, entry, both lists, 6 bytes a region and 12 bytes a hint. */
  function WasmAt(data: seq<byte>, s: Layout): nat
    requires |data| >= HEADER_SIZE
  {
    HEADER_SIZE + |s.name| + |s.entry| + |NamedSection(s.endpoints)| + |NamedSection(s.caps)| +
    6 * Get(data, 52, 4) + 12 * Get(data, 36, 4)
  }

  /** A file with the sections s inside it, in order and without gaps. */
  ghost predicate LaidOut(data: seq<byte>, s: Layout) {
    Marked(data) && Counted(data, s) && AllShort(s.endpoints) && AllShort(s.caps) &&
    var a := HEADER_SIZE + |s.name|;
    var b := a + |s.entry|;
    var c := b + |NamedSection(s.endpoints)|;
    var d := c + |NamedSection(s.caps)|;
    var e := WasmAt(data, s);
    e + |s.wasm| <= |data| && data[HEADER_SIZE..a] == s.name && data[a..b] == s.entry &&
    data[b..c] == NamedSection(s.endpoints) && data[c..d] == NamedSection(s.caps) && data[e..e + |s.wasm|] == s.wasm
  }

  /** The parser accepts every file that is laid out as a package, and finds its parts. */
  lemma Accepts(data: seq<byte>, s: Layout)
    requires LaidOut(data, s)
    ensures Parse(data) == App(VERSION, Get(data, 12, 4), s.name, s.entry, WasmAt(data, s), |s.wasm|)
  {
    hide Get, Magic, SkipNamed, ReadNamed, NamedSection;
    var b := HEADER_SIZE + |s.name| + |s.entry|;
    SkipSection(data, b, s.endpoints);
    SkipSection(data, b + |NamedSection(s.endpoints)|, s.caps);
  }

  /** Whatever the parser accepts is laid out as a package. */
  lemma Accepted(data: seq<byte>) returns (s: Layout)
    requires Parse(data).App?
    ensures LaidOut(data, s)
  {
    hide Get, Magic, SkipNamed, ReadNamed, NamedSection, AllShort;
    var r := Parse(data);
    var b, m, n := HEADER_SIZE + |r.name| + |r.entry|, Get(data, 28, 4), Get(data, 32, 4);
    SmallPow256();
    GetBack(data, 28, 4);
    GetBack(data, 32, 4);
    SkippedIsSection(data, b, m);
    var c := SkipNamed(data, b, m).value;
    SkippedIsSection(data, c, n);
    s := Layout(r.name, r.entry, ReadNamed(data, b, m), ReadNamed(data, c, n),
        data[r.wasmOffset..r.wasmOffset + r.wasmSize]);
  }

  /** The parser: header checks, then section after section. */
  method ParseApp(data: seq<byte>) returns (r: Parsed)
    ensures r == Parse(data)
    ensures r.App? <==> exists s :: LaidOut(data, s)
    ensures forall s :: LaidOut(data, s) ==>
              r == App(VERSION, Get(data, 12, 4), s.name, s.entry, WasmAt(data, s), |s.wasm|)
    ensures r.NotApp? <==> |data| >= 8 && data[..8] != [0x57, 0x41, 0x53, 0x4D, 0x4F, 0x53, 0x41, 0x50]
    ensures r.App? ==> |data| >= 56 && data[..8] == [0x57, 0x41, 0x53, 0x4D, 0x4F, 0x53, 0x41, 0x50] &&
                       Get(data, 8, 2) == 9 && Get(data, 10, 2) == 56
  {
    r := Walk(data);
    if r.App? {
      var s := Accepted(data);
    }
    forall s | LaidOut(data, s)
      ensures Parse(data) == App(VERSION, Get(data, 12, 4), s.name, s.entry, WasmAt(data, s), |s.wasm|)
    {
      Accepts(data, s);
    }
  }

  method Walk(data: seq<byte>) returns (r: Parsed)
    ensures r == Parse(data)
  {
    hide SkipNamed, Get;
    if |data| < 8 {
      return Bad;
    }
    if data[..8] != Magic() {
      return NotApp;
    }
    if |data| < HEADER_SIZE || Get(data, 8, 2) != VERSION || Get(data, 10, 2) != HEADER_SIZE {
      return Bad;
    }
    var nameLen, entryLen, wasmSize := Get(data, 16, 4), Get(data, 20, 4), Get(data, 24, 4);
    var off := HEADER_SIZE;
    if off + nameLen + entryLen > |data| {
      return Bad;
    }
    var name, entry := data[off..off + nameLen], data[off + nameLen..off + nameLen + entryLen];
    off := off + nameLen + entryLen;
    var next := SkipLoop(data, off, Get(data, 28, 4));
    if next.None? {
      return Bad;
    }
    next := SkipLoop(data, next.value, Get(data, 32, 4));
    if next.None? {
      return Bad;
    }
    off := next.value + 6 * Get(data, 52, 4);
    for i := 0 to Get(data, 36, 4)
      invariant off == next.value + 6 * Get(data, 52, 4) + 12 * i && (i > 0 ==> off <= |data|)
    {
      if off + 12 > |data| {
        return Bad;
      }
      off := off + 12;
    }
    if off + wasmSize > |data| {
      return Bad;
    }
    r := App(VERSION, Get(data, 12, 4), name, entry, off, wasmSize);
  }
}
