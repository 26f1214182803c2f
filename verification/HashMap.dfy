/**
  The hash map: a dense array of entries with an open-addressing index over it.
  Puts grow the index, deletes leave tombstones, fill the hole with the last
  entry, and shrink or purge the index; lookups always agree with a finite map.
 */
module HashMap {
  import opened Counting
  import opened Arith
  import opened ProbeOrder
  import opened HashTable

  function UsedLimit(n: nat): nat { n - n / 4 }
  function TombLimit(n: nat): nat { n / 8 + n / 16 }
  function ShrinkLimit(n: nat): nat { if n <= 8 then 0 else n / 4 }

  /** The two limits together leave at least one slot empty. */
  lemma LimitsLeaveRoom(n: nat)
    requires SlotCount(n)
    ensures n >= 8 && n % 8 == 0 && UsedLimit(n) + TombLimit(n) < n
    ensures n > 8 ==> n % 16 == 0 && SlotCount(n / 2)
    ensures SlotCount(2 * n)
  {
    var k: nat :| n == 8 * Pow2(k);
    hide UsedLimit, TombLimit;
    assert SlotCount(2 * n) by { assert 2 * n == 8 * Pow2(k + 1); }
    if k > 0 {
      HalfCount(n, k);
    }
    LimitsSum(n);
  }

  lemma HalfCount(n: nat, k: nat)
    requires k > 0 && n == 8 * Pow2(k)
    ensures n % 16 == 0 && SlotCount(n / 2)
  {
    assert Pow2(k) == 2 * Pow2(k - 1);
    Sixteens(n, Pow2(k - 1));
  }

  lemma Sixteens(n: nat, m: nat)
    requires n == 16 * m
    ensures n % 16 == 0 && n / 2 == 8 * m
  {
  }

  lemma LimitsSum(n: nat)
    requires n >= 8 && n % 8 == 0
    ensures UsedLimit(n) + TombLimit(n) < n
  {
  }

  lemma SmallestTable()
    ensures SlotCount(8)
  {
    assert 8 == 8 * Pow2(0);
  }

  /** The index structure: slot arrays and counters. */
  class Table {
    const n: nat
    const hash: array<nat>
    const index: array<int>
    var usedCount: nat
    var tombCount: nat

    constructor (n: nat)
      requires SlotCount(n)
      ensures this.n == n && fresh(hash) && fresh(index) && hash as object != index
      ensures usedCount == 0 && tombCount == 0
      ensures hash.Length == n && index.Length == n
      ensures forall s :: 0 <= s < n ==> hash[s] == 0 && index[s] == EMPTY
    {
      var h := new nat[n](_ => 0);
      var x := new int[n](_ => EMPTY);
      this.n, hash, index, usedCount, tombCount := n, h, x, 0, 0;
    }
  }

  ghost predicate Separate(t: Table) {
    t.hash as object != t.index && t.hash.Length == t.n && t.index.Length == t.n
  }

  /** The table indexes exactly the entries in P, and its counters are right. */
  ghost predicate Indexes(t: Table, eh: seq<nat>, P: set<nat>)
    reads t, t.hash, t.index
  {
    && Separate(t) && SlotCount(t.n)
    && IndexOK(t.hash[..], t.index[..], t.n, eh, P)
    && t.usedCount == |InUse(t.index[..])| && t.tombCount == |Tombs(t.index[..])|
  }

  lemma EmptyIndexes(hs: seq<nat>, ix: seq<int>, n: nat, eh: seq<nat>)
    requires SlotCount(n) && |hs| == n && |ix| == n && forall s :: 0 <= s < n ==> hs[s] == 0 && ix[s] == EMPTY
    ensures IndexOK(hs, ix, n, eh, {}) && InUse(ix) == {} && Tombs(ix) == {}
  {
    LimitsLeaveRoom(n);
    forall s | 0 <= s < n ensures SlotOK(hs, ix, eh, {}, s) {}
  }

  lemma HasEmptySlot(hs: seq<nat>, ix: seq<int>, n: nat, eh: seq<nat>, P: set<nat>)
    requires IndexOK(hs, ix, n, eh, P) && |InUse(ix)| + |Tombs(ix)| < n
    ensures exists s :: 0 <= s < n && hs[s] == 0
  {
    forall s | 0 <= s < n ensures ix[s] >= DELETED && (ix[s] == EMPTY ==> hs[s] == 0) {
      assert SlotOK(hs, ix, eh, P, s);
    }
    hide IndexOK;
    SomeEmpty(ix);
    var s :| 0 <= s < |ix| && ix[s] == EMPTY;
    assert hs[s] == 0;
  }

  /** Entries that the first m slots of an old index refer to. */
  ghost function Listed(ix: seq<int>, m: nat): set<nat> {
    set s: nat | s < m && s < |ix| && ix[s] >= 0 :: ix[s]
  }

  /** Puts entry i with hash h into the first empty slot of its probe order. */
  method Reinsert(t: Table, h: nat, i: nat, ghost eh: seq<nat>, ghost P: set<nat>)
    requires Separate(t) && SlotCount(t.n) && IndexOK(t.hash[..], t.index[..], t.n, eh, P)
    requires |InUse(t.index[..])| < t.n && Tombs(t.index[..]) == {}
    requires h >= 2 && i < |eh| && eh[i] == h && i !in P
    modifies t.hash, t.index
    ensures IndexOK(t.hash[..], t.index[..], t.n, eh, P + {i})
    ensures |InUse(t.index[..])| == old(|InUse(t.index[..])|) + 1 && Tombs(t.index[..]) == {}
  {
    ghost var hs, ix := t.hash[..], t.index[..];
    IndexShape(hs, ix, t.n, eh, P);
    HasEmptySlot(hs, ix, t.n, eh, P);
    hide IndexOK, SlotCount;
    var slot;
    ghost var probe;
    slot, probe := FindFree(t.hash, t.n, h);
    FreeSlotIndex(hs, ix, t.n, eh, P, slot);
    FillSlot(hs, ix, t.n, eh, P, slot, h, i, probe);
    CountsAfterUse(ix, slot, i);
    t.hash[slot] := h;
    t.index[slot] := i;
    assert t.hash[..] == hs[slot := h] && t.index[..] == ix[slot := i];
  }

  lemma ListedNext(hs: seq<nat>, ix: seq<int>, n: nat, eh: seq<nat>, P: set<nat>, s: nat)
    requires IndexOK(hs, ix, n, eh, P) && s < n
    ensures ix[s] >= 0 ==> ix[s] !in Listed(ix, s) && Listed(ix, s + 1) == Listed(ix, s) + {ix[s]}
    ensures ix[s] >= 0 ==> ix[s] < |eh| && eh[ix[s]] == hs[s] >= 2 && |InUse(ix[..s + 1])| == |InUse(ix[..s])| + 1
    ensures ix[s] < 0 ==> Listed(ix, s + 1) == Listed(ix, s) && InUse(ix[..s + 1]) == InUse(ix[..s])
  {
    assert SlotOK(hs, ix, eh, P, s);
    if ix[s] >= 0 {
      assert ix[s] in P;
      assert InUse(ix[..s + 1]) == InUse(ix[..s]) + {s};
    }
  }

  lemma ListedAll(hs: seq<nat>, ix: seq<int>, n: nat, eh: seq<nat>, P: set<nat>)
    requires IndexOK(hs, ix, n, eh, P)
    ensures Listed(ix, n) == P
  {
    forall i | i in Listed(ix, n) ensures i in P {
      var s: nat :| s < n && ix[s] >= 0 && ix[s] == i;
      assert SlotOK(hs, ix, eh, P, s);
    }
    forall i | i in P ensures i in Listed(ix, n) {
      assert Placed(hs, ix, n, eh[i], i);
      var t: nat :| PlacedAt(hs, ix, n, eh[i], i, t);
      assert ix[Probe(eh[i], n, t)] == i;
    }
  }

  lemma InUsePrefix(ix: seq<int>, s: nat)
    requires s <= |ix|
    ensures |InUse(ix[..s])| <= |InUse(ix)|
  {
    SubsetCount(InUse(ix[..s]), InUse(ix));
  }

  /** The new index holds the entries of the first s slots of the old one. */
  ghost predicate CopiedTo(t: Table, oix: seq<int>, eh: seq<nat>, s: nat)
    requires s <= |oix|
    reads t.hash, t.index
  {
    && IndexOK(t.hash[..], t.index[..], t.n, eh, Listed(oix, s))
    && |InUse(t.index[..])| == |InUse(oix[..s])| && Tombs(t.index[..]) == {}
  }

  /** Copies slot s of the old index into the new one when it is in use. */
  method CopySlot(ot: Table, t: Table, s: nat, ghost eh: seq<nat>, ghost P: set<nat>)
    requires Separate(ot) && IndexOK(ot.hash[..], ot.index[..], ot.n, eh, P) && s < ot.n
    requires Separate(t) && SlotCount(t.n) && {t.hash as object, t.index} !! {ot.hash as object, ot.index}
    requires |InUse(ot.index[..])| < t.n && CopiedTo(t, ot.index[..], eh, s)
    modifies t.hash, t.index
    ensures CopiedTo(t, ot.index[..], eh, s + 1)
  {
    ghost var ohs, oix := ot.hash[..], ot.index[..];
    ListedNext(ohs, oix, ot.n, eh, P, s);
    InUsePrefix(oix, s + 1);
    hide IndexOK, SlotCount, Listed, InUse, Tombs;
    if ot.index[s] >= 0 {
      Reinsert(t, ot.hash[s], ot.index[s], eh, Listed(oix, s));
    }
  }

  /** Copies bucket i of the old index. */
  method CopyBucket(ot: Table, t: Table, i: nat, ghost eh: seq<nat>, ghost P: set<nat>)
    requires Separate(ot) && IndexOK(ot.hash[..], ot.index[..], ot.n, eh, P) && 8 * i + 8 <= ot.n
    requires Separate(t) && SlotCount(t.n) && {t.hash as object, t.index} !! {ot.hash as object, ot.index}
    requires |InUse(ot.index[..])| < t.n && CopiedTo(t, ot.index[..], eh, 8 * i)
    modifies t.hash, t.index
    ensures CopiedTo(t, ot.index[..], eh, 8 * i + 8)
  {
    hide IndexOK, SlotCount, InUse, CopiedTo;
    ghost var ohs, oix := ot.hash[..], ot.index[..];
    for j := 0 to 8
      invariant ot.hash[..] == ohs && ot.index[..] == oix && CopiedTo(t, oix, eh, 8 * i + j)
    {
      CopySlot(ot, t, 8 * i + j, eh, P);
    }
  }

  /** A new index of n slots for the same entries, without tombstones; no lookup changes. */
  method Rebuild(n: nat, ot: Table, ghost eh: seq<nat>, ghost P: set<nat>) returns (t: Table)
    requires Indexes(ot, eh, P) && SlotCount(n) && ot.usedCount < n
    ensures fresh(t) && fresh(t.hash) && fresh(t.index) && t.n == n
    ensures Indexes(t, eh, P) && t.usedCount == ot.usedCount && t.tombCount == 0
  {
    ghost var ohs, oix := ot.hash[..], ot.index[..];
    assert ot.n % 8 == 0 by { LimitsLeaveRoom(ot.n); }
    t := new Table(n);
    EmptyIndexes(t.hash[..], t.index[..], n, eh);
    assert Listed(oix, 0) == {} && InUse(oix[..0]) == {};
    assert CopiedTo(t, oix, eh, 0);
    t.usedCount := ot.usedCount;
    ListedAll(ohs, oix, ot.n, eh, P);
    hide IndexOK, SlotCount, Listed, InUse, Tombs, CopiedTo;
    for i := 0 to ot.n / 8
      invariant ot.hash[..] == ohs && ot.index[..] == oix && CopiedTo(t, oix, eh, 8 * i)
      invariant t.usedCount == ot.usedCount && t.tombCount == 0
    {
      CopyBucket(ot, t, i, eh, P);
    }
    assert oix[..ot.n] == oix;
    CopiedMeans(t, oix, eh, ot.n);
  }

  lemma CopiedMeans(t: Table, oix: seq<int>, eh: seq<nat>, s: nat)
    requires s <= |oix| && CopiedTo(t, oix, eh, s)
    ensures IndexOK(t.hash[..], t.index[..], t.n, eh, Listed(oix, s))
    ensures |InUse(t.index[..])| == |InUse(oix[..s])| && |Tombs(t.index[..])| == 0
  {
  }

  // ---------------------------------------------------------------- dense entries

  /** The numbers of the first m entries. */
  ghost function EntryNumbers(m: nat): (r: set<nat>)
    ensures forall i: nat {:trigger i in r} :: i in r <==> i < m
  {
    if m == 0 then {} else EntryNumbers(m - 1) + {m - 1}
  }

  function Keys<K, V>(dense: seq<(K, V)>): (r: seq<K>)
    ensures |r| == |dense|
  {
    seq(|dense|, i requires 0 <= i < |dense| => dense[i].0)
  }

  /** Stored hashes avoid the two values that mark empty and deleted slots. */
  function StoredHash(h: nat): nat { if h < 2 then h + 2 else h }

  ghost function Hashes<K, V>(hashOf: K -> nat, dense: seq<(K, V)>): (r: seq<nat>)
    ensures |r| == |dense|
  {
    seq<nat>(|dense|, i requires 0 <= i < |dense| => StoredHash(hashOf(dense[i].0)))
  }

  /** The finite map the entries stand for. */
  ghost function Contents<K, V>(dense: seq<(K, V)>): map<K, V> {
    if dense == [] then map[]
    else
      var e := dense[|dense| - 1];
      Contents(dense[..|dense| - 1])[e.0 := e.1]
  }

  lemma {:induction false} ContentsAt<K(!new), V(!new)>(dense: seq<(K, V)>, k: K)
    requires Distinct(Keys(dense))
    ensures k in Contents(dense) <==> k in Keys(dense)
    ensures forall i :: 0 <= i < |dense| && dense[i].0 == k ==> k in Contents(dense) && Contents(dense)[k] == dense[i].1
  {
    if dense != [] {
      var last := |dense| - 1;
      var rest := dense[..last];
      assert Keys(rest) == Keys(dense)[..last] && Keys(dense) == Keys(rest) + [dense[last].0];
      ContentsAt(rest, k);
      forall i | 0 <= i < |dense| && dense[i].0 == k ensures Contents(dense)[k] == dense[i].1 {
        assert Keys(dense)[i] == k && Keys(dense)[last] == dense[last].0;
        if i < last {
          assert rest[i] == dense[i];
        }
      }
    }
  }

  lemma SameContents<K(!new), V(!new)>(m: map<K, V>, m': map<K, V>)
    requires m.Keys == m'.Keys && forall k :: k in m ==> m[k] == m'[k]
    ensures m == m'
  {
  }

  /** Overwriting, appending and swap-deleting an entry update the map at one key. */
  lemma ContentsOverwrite<K(!new), V(!new)>(dense: seq<(K, V)>, i: nat, v: V)
    requires Distinct(Keys(dense)) && i < |dense|
    ensures var dense' := dense[i := (dense[i].0, v)];
      Keys(dense') == Keys(dense) && Contents(dense') == Contents(dense)[dense[i].0 := v]
  {
    var dense' := dense[i := (dense[i].0, v)];
    assert Keys(dense') == Keys(dense);
    forall k ensures k in Contents(dense') <==> k in Contents(dense)[dense[i].0 := v] {
      ContentsAt(dense, k);
      ContentsAt(dense', k);
      assert Keys(dense)[i] == dense[i].0;
    }
    forall k | k in Contents(dense') ensures Contents(dense')[k] == Contents(dense)[dense[i].0 := v][k] {
      ContentsAt(dense, k);
      ContentsAt(dense', k);
      var j :| 0 <= j < |dense| && Keys(dense)[j] == k;
      assert dense'[j].0 == k && dense[j].0 == k;
      assert Keys(dense)[i] == dense[i].0;
    }
    SameContents(Contents(dense'), Contents(dense)[dense[i].0 := v]);
  }

  lemma ContentsAppend<K(!new), V(!new)>(dense: seq<(K, V)>, k: K, v: V)
    requires Distinct(Keys(dense)) && k !in Keys(dense)
    ensures Keys(dense + [(k, v)]) == Keys(dense) + [k] && Distinct(Keys(dense + [(k, v)]))
    ensures Contents(dense + [(k, v)]) == Contents(dense)[k := v]
  {
    var dense' := dense + [(k, v)];
    assert Keys(dense') == Keys(dense) + [k];
    forall j ensures j in Contents(dense') <==> j in Contents(dense)[k := v] {
      ContentsAt(dense, j);
      ContentsAt(dense', j);
    }
    forall j | j in Contents(dense') ensures Contents(dense')[j] == Contents(dense)[k := v][j] {
      ContentsAt(dense, j);
      ContentsAt(dense', j);
      var i :| 0 <= i < |dense'| && Keys(dense')[i] == j;
      assert dense'[i].0 == j;
      if i < |dense| {
        assert Keys(dense)[i] == j && dense[i].0 == j;
      }
    }
    SameContents(Contents(dense'), Contents(dense)[k := v]);
  }

  function SwapDeleted<T>(s: seq<T>, i: nat): seq<T>
    requires i < |s|
  {
    s[i := s[|s| - 1]][..|s| - 1]
  }

  lemma {:induction false} ContentsSwapDelete<K(!new), V(!new)>(dense: seq<(K, V)>, i: nat)
    requires Distinct(Keys(dense)) && i < |dense|
    ensures Distinct(Keys(SwapDeleted(dense, i)))
    ensures Contents(SwapDeleted(dense, i)) == Contents(dense) - {dense[i].0}
  {
    var dense', K0 := SwapDeleted(dense, i), Keys(dense);
    var last := |dense| - 1;
    forall a, b | 0 <= a < b < last ensures Keys(dense')[a] != Keys(dense')[b] {
      assert Keys(dense')[a] == K0[if a == i then last else a] && Keys(dense')[b] == K0[if b == i then last else b];
    }
    forall k ensures k in Contents(dense') <==> k in Contents(dense) - {dense[i].0} {
      ContentsAt(dense, k);
      ContentsAt(dense', k);
      SwapDeletedKeys(dense, i, k);
    }
    forall k | k in Contents(dense') ensures Contents(dense')[k] == (Contents(dense) - {dense[i].0})[k] {
      ContentsAt(dense, k);
      ContentsAt(dense', k);
      var a :| 0 <= a < |dense'| && Keys(dense')[a] == k;
      assert dense'[a] == dense[if a == i then last else a];
    }
    SameContents(Contents(dense'), Contents(dense) - {dense[i].0});
  }

  lemma SwapDeletedKeys<K(!new), V(!new)>(dense: seq<(K, V)>, i: nat, k: K)
    requires Distinct(Keys(dense)) && i < |dense|
    ensures k in Keys(SwapDeleted(dense, i)) <==> k in Keys(dense) && k != dense[i].0
  {
    var K0, K1, last := Keys(dense), Keys(SwapDeleted(dense, i)), |dense| - 1;
    assert K0[i] == dense[i].0;
    if k in K1 {
      var a :| 0 <= a < |K1| && K1[a] == k;
      var b := if a == i then last else a;
      assert K0[b] == k && b != i;
    }
    if k in K0 && k != dense[i].0 {
      var b :| 0 <= b < |K0| && K0[b] == k;
      assert K1[if b == last then i else b] == k;
    }
  }

  /** An index only depends on the hashes of the entries it refers to. */
  lemma IndexAgree(hs: seq<nat>, ix: seq<int>, n: nat, eh: seq<nat>, P: set<nat>, eh': seq<nat>)
    requires IndexOK(hs, ix, n, eh, P) && forall i {:trigger i in P} :: i in P ==>
               i < |eh'| && i < |eh| && eh'[i] == eh[i]
    ensures IndexOK(hs, ix, n, eh', P)
  {
    hide Placed;
    forall s | 0 <= s < n ensures SlotOK(hs, ix, eh', P, s) {
      assert SlotOK(hs, ix, eh, P, s);
      assert ix[s] >= 0 ==> ix[s] in P;
    }
    forall i | i in P ensures i < |eh'| && eh'[i] >= 2 && Placed(hs, ix, n, eh'[i], i) {
      assert eh'[i] == eh[i];
    }
  }

  // ---------------------------------------------------------------- the map object

  /** The table indexes every entry, keys are distinct, and both counts are within their limits. */
  ghost predicate Consistent<K(!new), V(!new)>(t: Table, hashOf: K -> nat, dense: seq<(K, V)>)
    reads t, t.hash, t.index
  {
    && Indexes(t, Hashes(hashOf, dense), EntryNumbers(|dense|)) && Distinct(Keys(dense))
    && t.usedCount == |dense| <= UsedLimit(t.n) && t.tombCount <= TombLimit(t.n)
  }

  lemma ConsistentReady<K(!new), V(!new)>(t: Table, hashOf: K -> nat, dense: seq<(K, V)>, key: K)
    requires Consistent(t, hashOf, dense)
    ensures exists s :: 0 <= s < t.n && t.hash[..][s] == 0
    ensures SameHash(Hashes(hashOf, dense), Keys(dense), EntryNumbers(|dense|), key, StoredHash(hashOf(key)))
  {
    LimitsLeaveRoom(t.n);
    HasEmptySlot(t.hash[..], t.index[..], t.n, Hashes(hashOf, dense), EntryNumbers(|dense|));
  }

  lemma {:induction false} KeyAbsent<K(!new), V(!new)>(dense: seq<(K, V)>, key: K)
    requires Distinct(Keys(dense)) && forall i {:trigger i in EntryNumbers(|dense|)} :: i in EntryNumbers(|dense|) ==>
               i < |Keys(dense)| && Keys(dense)[i] != key
    ensures key !in Contents(dense) && key !in Keys(dense)
  {
    ContentsAt(dense, key);
    forall i: nat | i < |dense| ensures Keys(dense)[i] != key {
      assert i in EntryNumbers(|dense|);
    }
  }

  lemma KeyPresent<K(!new), V(!new)>(dense: seq<(K, V)>, key: K, i: nat)
    requires Distinct(Keys(dense)) && i < |dense| && Keys(dense)[i] == key
    ensures key in Contents(dense) && dense[i] == (key, Contents(dense)[key])
  {
    ContentsAt(dense, key);
  }

  /** The slot of the key's entry, or -1. */
  method Lookup<K(!new, ==), V(!new)>(t: Table, ghost hashOf: K -> nat, dense: seq<(K, V)>, key: K, h: nat)
    returns (slot: int)
    requires Consistent(t, hashOf, dense) && h == StoredHash(hashOf(key))
    ensures slot >= 0 ==> slot < t.index.Length && 0 <= t.index[slot] < |dense| && dense[t.index[slot]].0 == key
    ensures slot >= 0 ==> key in Contents(dense) && dense[t.index[slot]] == (key, Contents(dense)[key])
    ensures slot < 0 ==> slot == -1 && key !in Contents(dense)
  {
    ConsistentReady(t, hashOf, dense, key);
    hide IndexOK, SlotCount, Contents, SameHash, Distinct;
    slot := FindSlot(t.hash, t.index, t.n, Keys(dense), key, h, Hashes(hashOf, dense), EntryNumbers(|dense|));
    if slot < 0 {
      KeyAbsent(dense, key);
    } else {
      KeyPresent(dense, key, t.index[slot]);
    }
  }

  /** The index after entry |dense| went into the free slot s. */
  lemma {:induction false} AppendedIndex<K(!new), V(!new)>(hashOf: K -> nat, dense: seq<(K, V)>, key: K, value: V,
                                           hs: seq<nat>, ix: seq<int>, n: nat, s: nat, t: nat)
    requires IndexOK(hs, ix, n, Hashes(hashOf, dense), EntryNumbers(|dense|)) && s < n && ix[s] < 0
    requires Probe(StoredHash(hashOf(key)), n, t) == s && AllBusy(hs, n, StoredHash(hashOf(key)), t)
    ensures IndexOK(hs[s := StoredHash(hashOf(key))], ix[s := |dense|], n, Hashes(hashOf, dense + [(key, value)]),
            EntryNumbers(|dense| + 1))
  {
    hide IndexOK, Probe, AllBusy, EntryNumbers, StoredHash;
    var h, dense' := StoredHash(hashOf(key)), dense + [(key, value)];
    assert h >= 2 by { StoredAtLeastTwo(hashOf(key)); }
    var eh' := Hashes(hashOf, dense');
    assert eh' == Hashes(hashOf, dense) + [h];
    hide Hashes;
    IndexAgree(hs, ix, n, Hashes(hashOf, dense), EntryNumbers(|dense|), eh');
    FillSlot(hs, ix, n, eh', EntryNumbers(|dense|), s, h, |dense|, t);
    assert EntryNumbers(|dense|) + {|dense|} == EntryNumbers(|dense| + 1);
  }

  lemma StoredAtLeastTwo(h: nat)
    ensures StoredHash(h) >= 2
  {
  }

  /** Appends a new entry and lets the free slot refer to it. */
  method Append<K(!new, ==), V(!new)>(t: Table, ghost hashOf: K -> nat, dense: seq<(K, V)>, key: K, value: V, h: nat,
                  slot: nat, ghost probe: nat)
    returns (dense': seq<(K, V)>)
    requires Consistent(t, hashOf, dense) && t.usedCount < UsedLimit(t.n) && h == StoredHash(hashOf(key))
    requires key !in Keys(dense) && slot < t.index.Length && t.index[slot] < 0
    requires Probe(h, t.n, probe) == slot && AllBusy(t.hash[..], t.n, h, probe)
    modifies t, t.hash, t.index
    ensures Consistent(t, hashOf, dense') && Contents(dense') == Contents(dense)[key := value]
  {
    hide IndexOK, SlotCount, Contents, Distinct, Probe, AllBusy, InUse, Tombs, EntryNumbers, Keys, Hashes, StoredHash,
        UsedLimit, TombLimit;
    ghost var hs, ix := t.hash[..], t.index[..];
    ContentsAppend(dense, key, value);
    AppendedIndex(hashOf, dense, key, value, hs, ix, t.n, slot, probe);
    CountsAfterUse(ix, slot, |dense|);
    if t.index[slot] == DELETED {
      TombPresent(ix, slot);
      t.tombCount := t.tombCount - 1;
    }
    t.usedCount := t.usedCount + 1;
    dense' := dense + [(key, value)];
    t.hash[slot] := h;
    t.index[slot] := |dense|;
    assert t.hash[..] == hs[slot := h] && t.index[..] == ix[slot := |dense|];
  }

  /** Puts the key into a table with room: overwrites its entry or appends a new one. */
  method Insert<K(!new, ==), V(!new)>(t: Table, ghost hashOf: K -> nat, dense: seq<(K, V)>, key: K, value: V, h: nat)
    returns (dense': seq<(K, V)>)
    requires Consistent(t, hashOf, dense) && t.usedCount < UsedLimit(t.n) && h == StoredHash(hashOf(key))
    modifies t, t.hash, t.index
    ensures Consistent(t, hashOf, dense') && Contents(dense') == Contents(dense)[key := value]
  {
    ConsistentReady(t, hashOf, dense, key);
    hide IndexOK, SlotCount, Contents, SameHash, Distinct, Probe, AllBusy, InUse, Tombs, EntryNumbers;
    StoredAtLeastTwo(hashOf(key));
    var found, slot;
    ghost var probe;
    found, slot, probe :=
        FindPlace(t.hash, t.index, t.n, Keys(dense), key, h, Hashes(hashOf, dense), EntryNumbers(|dense|));
    if found {
      var i := t.index[slot];
      dense' := dense[i := (key, value)];
      ContentsOverwrite(dense, i, value);
      assert Hashes(hashOf, dense') == Hashes(hashOf, dense);
    } else {
      KeyAbsent(dense, key);
      dense' := Append(t, hashOf, dense, key, value, h, slot, probe);
    }
  }

  lemma TombPresent(ix: seq<int>, s: nat)
    requires s < |ix| && ix[s] == DELETED
    ensures |Tombs(ix)| > 0
  {
    assert s in Tombs(ix);
  }

  lemma StillRoom(n: nat, ix: seq<int>, s: nat)
    requires SlotCount(n) && |ix| == n && s < n && ix[s] >= 0 && |InUse(ix)| <= UsedLimit(n) &&
             |Tombs(ix)| <= TombLimit(n)
    ensures |InUse(ix[s := DELETED])| + |Tombs(ix[s := DELETED])| < n
    ensures |InUse(ix)| > 0
  {
    LimitsLeaveRoom(n);
    CountsAfterDelete(ix, s);
    assert s in InUse(ix);
  }

  /** Among the entries other than old, only the last one has the last entry's key. */
  lemma {:induction false} OnlyLast<K(!new), V(!new)>(hashOf: K -> nat, dense: seq<(K, V)>, old_: nat)
    requires Distinct(Keys(dense)) && old_ < |dense| - 1
    ensures var last := |dense| - 1; var dense1 := dense[old_ := dense[last]]; var P := EntryNumbers(|dense|) - {old_};
      && SameHash(Hashes(hashOf, dense1), Keys(dense1), P, dense[last].0, StoredHash(hashOf(dense[last].0)))
      && (forall i {:trigger i in P} :: i in P ==> Hashes(hashOf, dense1)[i] == Hashes(hashOf, dense)[i])
      && (forall i {:trigger i in P} :: i in P ==> (Keys(dense1)[i] == dense[last].0 <==> i == last))
      && last in P
  {
    hide StoredHash;
    var last := |dense| - 1;
    var dense1, P := dense[old_ := dense[last]], EntryNumbers(|dense|) - {old_};
    forall i | i in P
      ensures dense1[i] == dense[i] && (Keys(dense1)[i] == dense[last].0 <==> i == last)
    {
      assert Keys(dense)[i] == dense[i].0 && Keys(dense)[last] == dense[last].0;
    }
  }

  /** Finds the slot of the last entry once the hole at old was filled with it, and points that slot at the hole. */
  method RepairMoved<K(!new, ==), V(!new)>(t: Table, hashOf: K -> nat, dense: seq<(K, V)>, old_: nat)
    requires Separate(t) && SlotCount(t.n) && Distinct(Keys(dense)) && old_ < |dense| - 1
    requires IndexOK(t.hash[..], t.index[..], t.n, Hashes(hashOf, dense), EntryNumbers(|dense|) - {old_})
    requires |InUse(t.index[..])| + |Tombs(t.index[..])| < t.n
    modifies t.index
    ensures IndexOK(t.hash[..], t.index[..], t.n, Hashes(hashOf, SwapDeleted(dense, old_)), EntryNumbers(|dense| - 1))
    ensures |InUse(t.index[..])| == old(|InUse(t.index[..])|) && |Tombs(t.index[..])| == old(|Tombs(t.index[..])|)
  {
    hide IndexOK, SlotCount, Distinct, InUse, Tombs, EntryNumbers, StoredHash, SameHash;
    ghost var hs, ix := t.hash[..], t.index[..];
    var last := |dense| - 1;
    var dense1 := dense[old_ := dense[last]];
    ghost var P := EntryNumbers(|dense|) - {old_};
    ghost var eh1 := Hashes(hashOf, dense1);
    OnlyLast(hashOf, dense, old_);
    IndexAgree(hs, ix, t.n, Hashes(hashOf, dense), P, eh1);
    HasEmptySlot(hs, ix, t.n, eh1, P);
    StoredAtLeastTwo(hashOf(dense1[old_].0));
    var slot := FindSlot(t.hash, t.index, t.n, Keys(dense1), dense1[old_].0, StoredHash(hashOf(dense1[old_].0)), eh1,
        P);
    assert slot >= 0 && t.index[slot] == last;
    RenameBack(hashOf, dense, old_, hs, ix, t.n, slot);
    CountsAfterRename(ix, slot, old_);
    t.index[slot] := old_;
    assert t.index[..] == ix[slot := old_];
  }

  lemma {:induction false} RenameBack<K(!new), V(!new)>(hashOf: K -> nat, dense: seq<(K, V)>, old_: nat, hs: seq<nat>,
                                        ix: seq<int>, n: nat, s: nat)
    requires old_ < |dense| - 1 && s < n && |ix| == n && ix[s] == |dense| - 1
    requires IndexOK(hs, ix, n, Hashes(hashOf, dense[old_ := dense[|dense| - 1]]), EntryNumbers(|dense|) - {old_})
    ensures IndexOK(hs, ix[s := old_], n, Hashes(hashOf, SwapDeleted(dense, old_)), EntryNumbers(|dense| - 1))
  {
    hide IndexOK, EntryNumbers, Hashes, SwapDeleted;
    var eh := Hashes(hashOf, dense[old_ := dense[|dense| - 1]]);
    HashesSwap(hashOf, dense, old_);
    RenameLast(hs, ix, n, eh, |dense|, s, old_);
  }

  lemma {:induction false} RenameLast(hs: seq<nat>, ix: seq<int>, n: nat, eh: seq<nat>, m: nat, s: nat, j: nat)
    requires j < m - 1 && |eh| == m && eh[j] == eh[m - 1] && s < n && |ix| == n && ix[s] == m - 1
    requires IndexOK(hs, ix, n, eh, EntryNumbers(m) - {j})
    ensures IndexOK(hs, ix[s := j], n, eh[..m - 1], EntryNumbers(m - 1))
  {
    hide IndexOK, EntryNumbers;
    UptoSwap(m, j);
    RenameSlot(hs, ix, n, eh, EntryNumbers(m) - {j}, s, eh[..m - 1], j);
  }

  lemma UptoSwap(m: nat, j: nat)
    requires j < m - 1
    ensures EntryNumbers(m) - {j} - {m - 1} + {j} == EntryNumbers(m - 1)
  {
    hide EntryNumbers;
  }

  lemma HashesSwap<K(!new), V(!new)>(hashOf: K -> nat, dense: seq<(K, V)>, old_: nat)
    requires old_ < |dense| - 1
    ensures Hashes(hashOf, SwapDeleted(dense, old_)) == Hashes(hashOf, dense[old_ := dense[|dense| - 1]])[..|dense| - 1]
    ensures Hashes(hashOf, dense[old_ := dense[|dense| - 1]])[old_] ==
            Hashes(hashOf, dense[old_ := dense[|dense| - 1]])[|dense| - 1]
  {
    hide StoredHash;
  }

  lemma {:induction false} DropLast<K(!new), V(!new)>(hashOf: K -> nat, dense: seq<(K, V)>, hs: seq<nat>, ix: seq<int>,
                                      n: nat)
    requires dense != [] && IndexOK(hs, ix, n, Hashes(hashOf, dense), EntryNumbers(|dense|) - {|dense| - 1})
    ensures IndexOK(hs, ix, n, Hashes(hashOf, SwapDeleted(dense, |dense| - 1)), EntryNumbers(|dense| - 1))
  {
    hide IndexOK, EntryNumbers, StoredHash;
    var last := |dense| - 1;
    assert EntryNumbers(|dense|) - {last} == EntryNumbers(last);
    IndexAgree(hs, ix, n, Hashes(hashOf, dense), EntryNumbers(last), Hashes(hashOf, SwapDeleted(dense, last)));
  }

  /** Deletes the entry of a slot: a tombstone, the last entry moved into the hole, its back pointer repaired. */
  method Unlink<K(!new, ==), V(!new)>(t: Table, hashOf: K -> nat, dense: seq<(K, V)>, slot: nat)
    returns (dense': seq<(K, V)>)
    requires Consistent(t, hashOf, dense) && slot < t.index.Length && 0 <= t.index[slot] < |dense|
    modifies t, t.hash, t.index
    ensures dense' == SwapDeleted(dense, old(t.index[slot]))
    ensures Indexes(t, Hashes(hashOf, dense'), EntryNumbers(|dense'|)) && t.usedCount == |dense'| &&
            t.tombCount == old(t.tombCount) + 1
  {
    hide IndexOK, SlotCount, Distinct, InUse, Tombs, EntryNumbers, Hashes, Keys, StoredHash, UsedLimit, TombLimit;
    ghost var hs, ix, eh := t.hash[..], t.index[..], Hashes(hashOf, dense);
    var oldIndex, last := t.index[slot], |dense| - 1;
    StillRoom(t.n, ix, slot);
    DeleteSlot(hs, ix, t.n, eh, EntryNumbers(|dense|), slot);
    CountsAfterDelete(ix, slot);
    t.usedCount := t.usedCount - 1;
    t.tombCount := t.tombCount + 1;
    t.hash[slot] := 1;
    t.index[slot] := DELETED;
    assert t.hash[..] == hs[slot := 1] && t.index[..] == ix[slot := DELETED];
    dense' := dense;
    if oldIndex != last {
      dense' := dense[oldIndex := dense[last]];
      RepairMoved(t, hashOf, dense, oldIndex);
    } else {
      DropLast(hashOf, dense, t.hash[..], t.index[..], t.n);
    }
    dense' := dense'[..last];
  }

  /** The rebuild that may follow a delete: half the slots when few are used, the same number when tombstones abound. */
  method Trim<K(!new, ==), V(!new)>(t: Table, ghost hashOf: K -> nat, ghost dense: seq<(K, V)>) returns (t': Table)
    requires Indexes(t, Hashes(hashOf, dense), EntryNumbers(|dense|)) && Distinct(Keys(dense))
    requires t.usedCount == |dense| < UsedLimit(t.n)
    ensures Consistent(t', hashOf, dense) && (t' == t || (fresh(t') && fresh(t'.hash) && fresh(t'.index)))
    ensures t'.n == if t.usedCount < t.n / 4 && t.n > 8 then t.n / 2 else t.n
    ensures t' == t <==> (t.usedCount >= t.n / 4 || t.n == 8) && t.tombCount <= t.n / 8 + t.n / 16
  {
    LimitsLeaveRoom(t.n);
    hide IndexOK, SlotCount, Distinct, InUse, Tombs, EntryNumbers, Hashes, Keys;
    t' := t;
    if t.usedCount < ShrinkLimit(t.n) && t.n > 8 {
      t' := Rebuild(t.n / 2, t, Hashes(hashOf, dense), EntryNumbers(|dense|));
    } else if t.tombCount > TombLimit(t.n) {
      t' := Rebuild(t.n, t, Hashes(hashOf, dense), EntryNumbers(|dense|));
    }
  }

  /** The rebuild that may precede a put: the first table, or twice the slots. */
  method Grow<K(!new, ==), V(!new)>(t: Table?, ghost hashOf: K -> nat, ghost dense: seq<(K, V)>) returns (t': Table)
    requires if t == null then dense == [] else Consistent(t, hashOf, dense)
    ensures Consistent(t', hashOf, dense) && t'.usedCount < UsedLimit(t'.n)
    ensures t == null ==> t'.n == 8
    ensures t != null ==> t'.n == if t.usedCount >= t.n - t.n / 4 then 2 * t.n else t.n
    ensures t' == t || (fresh(t') && fresh(t'.hash) && fresh(t'.index))
  {
    if t == null {
      SmallestTable();
      t' := new Table(8);
      EmptyIndexes(t'.hash[..], t'.index[..], 8, Hashes(hashOf, dense));
      return;
    }
    t' := t;
    if t.usedCount >= UsedLimit(t.n) {
      LimitsLeaveRoom(t.n);
      hide IndexOK, SlotCount, Distinct, InUse, Tombs, EntryNumbers, Hashes, Keys;
      t' := Rebuild(2 * t.n, t, Hashes(hashOf, dense), EntryNumbers(|dense|));
    }
  }

  datatype MapOp<K, V> = PutOp(key: K, value: V) | DeleteOp(key: K)

  /** What a run of puts and deletes does to a finite map. */
  ghost function Outcome<K, V>(m: map<K, V>, ops: seq<MapOp<K, V>>): map<K, V> {
    if ops == [] then m
    else
      var before := Outcome(m, ops[..|ops| - 1]);
      match ops[|ops| - 1]
      case PutOp(k, v) => before[k := v]
      case DeleteOp(k) => before - {k}
  }

  /** Call i is the last one on key k. */
  ghost predicate LastOn<K, V>(ops: seq<MapOp<K, V>>, k: K, i: int) {
    0 <= i < |ops| && ops[i].key == k && forall j :: i < j < |ops| ==> ops[j].key != k
  }

  ghost predicate Untouched<K, V>(ops: seq<MapOp<K, V>>, k: K) {
    forall j :: 0 <= j < |ops| ==> ops[j].key != k
  }

  /** A key is there with the value of its last call if that was a put, or as before if no call was on it. */
  ghost predicate AsLastSaid<K, V>(before: map<K, V>, ops: seq<MapOp<K, V>>, after: map<K, V>, k: K) {
    (forall i :: LastOn(ops, k, i) ==>
       if ops[i].PutOp? then k in after && after[k] == ops[i].value else k !in after) &&
    (Untouched(ops, k) ==> (k in after <==> k in before) && (k in before ==> after[k] == before[k]))
  }

  lemma {:induction false} LastCallDecides<K(!new), V>(m: map<K, V>, ops: seq<MapOp<K, V>>, k: K)
    ensures AsLastSaid(m, ops, Outcome(m, ops), k)
    decreases |ops|
  {
    if ops != [] {
      var n := |ops| - 1;
      var before := ops[..n];
      LastCallDecides(m, before, k);
      if ops[n].key == k {
        assert forall i :: LastOn(ops, k, i) ==> i == n;
      } else {
        OutcomeElsewhere(m, ops, k);
        hide Outcome;
        forall i | LastOn(ops, k, i) ensures LastOn(before, k, i) && ops[i] == before[i] {
        }
        assert Untouched(ops, k) ==> Untouched(before, k);
      }
    }
  }

  lemma {:induction false} OutcomeElsewhere<K(!new), V>(m: map<K, V>, ops: seq<MapOp<K, V>>, k: K)
    requires ops != [] && ops[|ops| - 1].key != k
    ensures var was, now := Outcome(m, ops[..|ops| - 1]), Outcome(m, ops);
            (k in now <==> k in was) && (k in was ==> now[k] == was[k])
  {
  }

  class Map<K(!new, ==), V(!new)> {
    const hashOf: K -> nat
    var table: Table?
    var dense: seq<(K, V)>

    ghost function Repr(): set<object>
      reads this
    {
      if table == null then {this} else {this, table, table.hash, table.index}
    }

    ghost predicate Valid()
      reads this, Repr()
    {
      if table == null then dense == [] else Consistent(table, hashOf, dense)
    }

    /** The finite map this object stands for. */
    ghost function Model(): map<K, V>
      reads this
    {
      Contents(dense)
    }

    constructor (hashOf: K -> nat)
      ensures Valid() && Model() == map[] && fresh(Repr()) && this.hashOf == hashOf
    {
      this.hashOf, table, dense := hashOf, null, [];
    }

    /** Index of the key's entry, or -1. */
    method GetIndex(key: K) returns (i: int)
      requires Valid()
      ensures key in Model() ==> 0 <= i < |dense| && dense[i] == (key, Model()[key])
      ensures key !in Model() ==> i == -1
    {
      if table == null {
        return -1;
      }
      hide Consistent, Contents;
      var slot := Lookup(table, hashOf, dense, key, StoredHash(hashOf(key)));
      if slot < 0 {
        return -1;
      }
      i := table.index[slot];
    }

    /** Maps the key to the value. */
    method Put(key: K, value: V)
      requires Valid()
      modifies Repr()
      ensures Valid() && fresh(Repr() - old(Repr())) && Model() == old(Model())[key := value]
    {
      hide Consistent, Contents;
      table := Grow(table, hashOf, dense);
      dense := Insert(table, hashOf, dense, key, value, StoredHash(hashOf(key)));
    }

    /** Any run of puts and deletes, whatever the hash function, leaves the finite map it should. */
    method Run(ops: seq<MapOp<K, V>>)
      requires Valid()
      modifies Repr()
      ensures Valid() && fresh(Repr() - old(Repr())) && Model() == Outcome(old(Model()), ops)
      ensures forall k :: AsLastSaid(old(Model()), ops, Model(), k)
    {
      hide Consistent, Contents;
      for i := 0 to |ops|
        invariant Valid() && fresh(Repr() - old(Repr())) && Model() == Outcome(old(Model()), ops[..i])
      {
        assert ops[..i + 1][..i] == ops[..i] && ops[..i + 1][i] == ops[i];
        match ops[i]
        case PutOp(k, v) => Put(k, v);
        case DeleteOp(k) => var _ := Delete(k);
      }
      assert ops[..|ops|] == ops;
      forall k ensures AsLastSaid(old(Model()), ops, Model(), k) {
        LastCallDecides(old(Model()), ops, k);
      }
    }

    /** Removes the key; answers whether it was there. */
    method Delete(key: K) returns (removed: bool)
      requires Valid()
      modifies Repr()
      ensures Valid() && fresh(Repr() - old(Repr()))
      ensures removed == (key in old(Model())) && Model() == old(Model()) - {key}
    {
      hide Consistent, Indexes, UsedLimit, Distinct, StoredHash, EntryNumbers;
      if table == null {
        assert Model() == Model() - {key};
        return false;
      }
      hide Contents;
      var slot := Lookup(table, hashOf, dense, key, StoredHash(hashOf(key)));
      if slot < 0 {
        return false;
      }
      SwapDeleteKeeps(table, hashOf, dense, table.index[slot]);
      dense := Unlink(table, hashOf, dense, slot);
      table := Trim(table, hashOf, dense);
      return true;
    }
  }

  lemma {:induction false} SwapDeleteKeeps<K(!new), V(!new)>(t: Table, hashOf: K -> nat, dense: seq<(K, V)>, i: nat)
    requires Consistent(t, hashOf, dense) && i < |dense|
    ensures Distinct(Keys(SwapDeleted(dense, i))) && t.usedCount <= UsedLimit(t.n) && t.usedCount == |dense|
    ensures Contents(SwapDeleted(dense, i)) == Contents(dense) - {dense[i].0}
  {
    hide Indexes;
    ContentsSwapDelete(dense, i);
  }
}
