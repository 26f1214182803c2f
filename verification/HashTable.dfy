/**
  The open-addressing index behind the hash map: what its two slot arrays say
  about the entries of the dense array, and the probe loops over them.
 */
module HashTable {
  import opened Counting
  import opened ProbeOrder

  const EMPTY: int := -1
  const DELETED: int := -2

  /** Slot s is empty, a tombstone, or refers to an entry in P whose hash it repeats. */
  ghost predicate SlotOK(hs: seq<nat>, ix: seq<int>, eh: seq<nat>, P: set<nat>, s: int)
    requires 0 <= s < |hs| && |ix| == |hs|
  {
    && ix[s] >= DELETED
    && (ix[s] == EMPTY <==> hs[s] == 0)
    && (ix[s] == DELETED <==> hs[s] == 1)
    && (ix[s] >= 0 ==> ix[s] in P && ix[s] < |eh| && hs[s] == eh[ix[s]])
  }

  /** The u-th probe for h meets a slot that is not empty. */
  ghost predicate Busy(hs: seq<nat>, n: nat, h: nat, u: nat)
    requires n > 0
  {
    0 <= Probe(h, n, u) < |hs| && hs[Probe(h, n, u)] != 0
  }

  /** The first t probes for h meet no empty slot. */
  ghost predicate AllBusy(hs: seq<nat>, n: nat, h: nat, t: nat)
    requires n > 0
  {
    forall u: nat {:trigger Busy(hs, n, h, u)} :: u < t ==> Busy(hs, n, h, u)
  }

  /** Entry i is met by probe t for h, and no probe before it stops the search. */
  ghost predicate PlacedAt(hs: seq<nat>, ix: seq<int>, n: nat, h: nat, i: nat, t: nat)
    requires n > 0
  {
    && 0 <= Probe(h, n, t) < |ix| && ix[Probe(h, n, t)] == i
    && AllBusy(hs, n, h, t)
  }

  ghost predicate Placed(hs: seq<nat>, ix: seq<int>, n: nat, h: nat, i: nat)
    requires n > 0
  {
    exists t: nat :: PlacedAt(hs, ix, n, h, i, t)
  }

  /** The slots in use and the entries in P correspond one to one, and every such entry can be found by probing. */
  ghost predicate IndexOK(hs: seq<nat>, ix: seq<int>, n: nat, eh: seq<nat>, P: set<nat>) {
    && n > 0 && n % 8 == 0 && |hs| == n && |ix| == n
    && (forall s {:trigger SlotOK(hs, ix, eh, P, s)} :: 0 <= s < n ==> SlotOK(hs, ix, eh, P, s))
    && (forall s, s' {:trigger ix[s], ix[s']} :: 0 <= s < s' < n && ix[s] >= 0 ==> ix[s] != ix[s'])
    && (forall i {:trigger i in P} :: i in P ==> i < |eh| && eh[i] >= 2 && Placed(hs, ix, n, eh[i], i))
  }

  ghost function InUse(ix: seq<int>): set<int> { set s | 0 <= s < |ix| && ix[s] >= 0 }
  ghost function Tombs(ix: seq<int>): set<int> { set s | 0 <= s < |ix| && ix[s] == DELETED }

  /** With fewer used and deleted slots than slots, some slot is empty. */
  lemma SomeEmpty(ix: seq<int>)
    requires |InUse(ix)| + |Tombs(ix)| < |ix| && forall s :: 0 <= s < |ix| ==> ix[s] >= DELETED
    ensures exists s :: 0 <= s < |ix| && ix[s] == EMPTY
  {
    var all, taken := Counting.Below(|ix|), InUse(ix) + Tombs(ix);
    assert all * taken == taken && |taken| <= |InUse(ix)| + |Tombs(ix)|;
    assert |all - taken| == |all| - |taken| > 0;
    var s :| s in all - taken;
    assert ix[s] == EMPTY;
  }

  lemma CountsAfterUse(ix: seq<int>, s: nat, i: nat)
    requires s < |ix| && ix[s] < 0
    ensures |InUse(ix[s := i])| == |InUse(ix)| + 1
    ensures ix[s] == DELETED ==> |Tombs(ix[s := i])| == |Tombs(ix)| - 1
    ensures ix[s] != DELETED ==> |Tombs(ix[s := i])| == |Tombs(ix)|
  {
    var ix' := ix[s := i];
    assert InUse(ix') == InUse(ix) + {s};
    if ix[s] == DELETED {
      assert Tombs(ix') == Tombs(ix) - {s};
    } else {
      assert Tombs(ix') == Tombs(ix);
    }
  }

  lemma CountsAfterDelete(ix: seq<int>, s: nat)
    requires s < |ix| && ix[s] >= 0
    ensures |InUse(ix[s := DELETED])| == |InUse(ix)| - 1 && |Tombs(ix[s := DELETED])| == |Tombs(ix)| + 1
  {
    var ix' := ix[s := DELETED];
    assert InUse(ix') == InUse(ix) - {s};
    assert Tombs(ix') == Tombs(ix) + {s};
  }

  lemma CountsAfterRename(ix: seq<int>, s: nat, i: nat)
    requires s < |ix| && ix[s] >= 0
    ensures |InUse(ix[s := i])| == |InUse(ix)| && |Tombs(ix[s := i])| == |Tombs(ix)|
  {
    assert InUse(ix[s := i]) == InUse(ix);
    assert Tombs(ix[s := i]) == Tombs(ix);
  }

  // ---------------------------------------------------------------- changes to the index

  lemma BusyKept(hs: seq<nat>, hs': seq<nat>, n: nat, h: nat, t: nat)
    requires n > 0 && |hs'| == |hs| && forall s :: 0 <= s < |hs| && hs[s] != 0 ==> hs'[s] != 0
    requires AllBusy(hs, n, h, t)
    ensures AllBusy(hs', n, h, t)
  {
    hide Probe;
    forall u: nat | u < t ensures Busy(hs', n, h, u) {
      assert Busy(hs, n, h, u);
    }
  }

  /** Filling a slot that a probe for h reaches without passing an empty one adds entry i to the index. */
  lemma FillSlot(hs: seq<nat>, ix: seq<int>, n: nat, eh: seq<nat>, P: set<nat>, s: nat, h: nat, i: nat, t: nat)
    requires IndexOK(hs, ix, n, eh, P) && s < n && ix[s] < 0 && h >= 2 && i !in P && i < |eh| && eh[i] == h
    requires Probe(h, n, t) == s && AllBusy(hs, n, h, t)
    ensures IndexOK(hs[s := h], ix[s := i], n, eh, P + {i})
  {
    hide Probe;
    var hs', ix', P' := hs[s := h], ix[s := i], P + {i};
    forall s' | 0 <= s' < n ensures SlotOK(hs', ix', eh, P', s') {
      assert SlotOK(hs, ix, eh, P, s');
    }
    forall a, b | 0 <= a < b < n && ix'[a] >= 0 ensures ix'[a] != ix'[b] {
      assert SlotOK(hs, ix, eh, P, a) && SlotOK(hs, ix, eh, P, b);
    }
    forall j | j in P' ensures j < |eh| && eh[j] >= 2 && Placed(hs', ix', n, eh[j], j) {
      if j == i {
        BusyKept(hs, hs', n, h, t);
        assert PlacedAt(hs', ix', n, h, i, t);
      } else {
        assert Placed(hs, ix, n, eh[j], j);
        var t' :| PlacedAt(hs, ix, n, eh[j], j, t');
        BusyKept(hs, hs', n, eh[j], t');
        assert PlacedAt(hs', ix', n, eh[j], j, t');
      }
    }
  }

  /** A tombstone in place of entry i removes it and keeps every other entry reachable. */
  lemma DeleteSlot(hs: seq<nat>, ix: seq<int>, n: nat, eh: seq<nat>, P: set<nat>, s: nat)
    requires IndexOK(hs, ix, n, eh, P) && s < n && ix[s] >= 0
    ensures IndexOK(hs[s := 1], ix[s := DELETED], n, eh, P - {ix[s]})
  {
    hide Probe;
    var hs', ix', P' := hs[s := 1], ix[s := DELETED], P - {ix[s]};
    forall s' | 0 <= s' < n ensures SlotOK(hs', ix', eh, P', s') {
      assert SlotOK(hs, ix, eh, P, s');
    }
    forall j | j in P' ensures j < |eh| && eh[j] >= 2 && Placed(hs', ix', n, eh[j], j) {
      assert j in P && Placed(hs, ix, n, eh[j], j);
      var t' :| PlacedAt(hs, ix, n, eh[j], j, t');
      BusyKept(hs, hs', n, eh[j], t');
      assert PlacedAt(hs', ix', n, eh[j], j, t');
    }
  }

  /** Renaming entry i to the unused number j, with the same hash, only touches its back pointer. */
  lemma RenameSlot(hs: seq<nat>, ix: seq<int>, n: nat, eh: seq<nat>, P: set<nat>, s: nat, eh': seq<nat>, j: nat)
    requires IndexOK(hs, ix, n, eh, P) && s < n && ix[s] >= 0 && j !in P && j < |eh'| && ix[s] < |eh| &&
             eh'[j] == eh[ix[s]]
    requires forall i {:trigger i in P} :: i in P && i != ix[s] ==> i < |eh'| && i < |eh| && eh'[i] == eh[i]
    ensures IndexOK(hs, ix[s := j], n, eh', P - {ix[s]} + {j})
  {
    hide Probe;
    var ix', P' := ix[s := j], P - {ix[s]} + {j};
    assert SlotOK(hs, ix, eh, P, s);
    forall s' | 0 <= s' < n ensures SlotOK(hs, ix', eh', P', s') {
      assert SlotOK(hs, ix, eh, P, s');
      if s' != s && ix[s'] >= 0 {
        assert ix[s'] != ix[s];
        assert eh'[ix[s']] == eh[ix[s']];
      }
    }
    forall a, b | 0 <= a < b < n && ix'[a] >= 0 ensures ix'[a] != ix'[b] {
      assert SlotOK(hs, ix, eh, P, a) && SlotOK(hs, ix, eh, P, b);
    }
    forall i | i in P' ensures i < |eh'| && eh'[i] >= 2 && Placed(hs, ix', n, eh'[i], i) {
      var i0 := if i == j then ix[s] else i;
      assert i0 in P && Placed(hs, ix, n, eh[i0], i0) && eh'[i] == eh[i0];
      var t' :| PlacedAt(hs, ix, n, eh[i0], i0, t');
      assert PlacedAt(hs, ix', n, eh'[i], i, t');
    }
  }

  // ---------------------------------------------------------------- probing

  /** Probe u meets a slot that neither is empty nor holds the key. */
  ghost predicate Passed<K(!new)>(hs: seq<nat>, ix: seq<int>, keys: seq<K>, n: nat, h: nat, key: K, u: nat)
    requires n > 0
  {
    var p := Probe(h, n, u);
    0 <= p < |hs| && p < |ix| && hs[p] != 0 && (hs[p] == h ==> 0 <= ix[p] < |keys| && keys[ix[p]] != key)
  }

  ghost predicate AllPassed<K(!new)>(hs: seq<nat>, ix: seq<int>, keys: seq<K>, n: nat, h: nat, key: K, t: nat)
    requires n > 0
  {
    forall u: nat {:trigger Passed(hs, ix, keys, n, h, key, u)} :: u < t ==> Passed(hs, ix, keys, n, h, key, u)
  }

  ghost predicate RunAt(h: nat, n: nat, base: nat, lo: nat, t: nat, i: nat)
    requires n > 0
  {
    lo <= i && Probe(h, n, t + (i - lo)) == base + i
  }

  /** Slots base+lo to base+hi-1 are the probes from t on. */
  ghost predicate Run(h: nat, n: nat, base: nat, lo: nat, hi: nat, t: nat)
    requires n > 0
  {
    forall i: nat {:trigger RunAt(h, n, base, lo, t, i)} :: lo <= i < hi ==> RunAt(h, n, base, lo, t, i)
  }

  datatype Scan = Hit(slot: nat) | Free(slot: nat) | On

  /** Entries in P with the same key have the same hash. */
  ghost predicate SameHash<K(!new)>(eh: seq<nat>, keys: seq<K>, P: set<nat>, key: K, h: nat) {
    |keys| == |eh| && forall i {:trigger i in P} :: i in P && i < |eh| && keys[i] == key ==> eh[i] == h
  }

  /** An empty slot at probe t, with nothing found before it, means the key has no entry. */
  lemma NotPresent<K(!new)>(hs: seq<nat>, ix: seq<int>, n: nat, eh: seq<nat>, P: set<nat>, keys: seq<K>, key: K, h: nat,
                     t: nat)
    requires IndexOK(hs, ix, n, eh, P) && SameHash(eh, keys, P, key, h)
    requires AllPassed(hs, ix, keys, n, h, key, t) && 0 <= Probe(h, n, t) < n && hs[Probe(h, n, t)] == 0
    ensures forall i {:trigger i in P} :: i in P ==> i < |keys| && keys[i] != key
  {
    hide Probe;
    forall i | i in P ensures i < |keys| && keys[i] != key {
      assert Placed(hs, ix, n, eh[i], i);
      var t': nat :| PlacedAt(hs, ix, n, eh[i], i, t');
      assert SlotOK(hs, ix, eh, P, Probe(eh[i], n, t'));
      assert t' < t ==> Passed(hs, ix, keys, n, h, key, t');
      assert t < t' && eh[i] == h ==> Busy(hs, n, h, t);
    }
  }

  /** Within the first n probes an empty slot comes up. */
  lemma ProbesEnd(hs: seq<nat>, n: nat, h: nat, t: nat)
    requires SlotCount(n) && |hs| == n && (exists s :: 0 <= s < n && hs[s] == 0)
    requires AllBusy(hs, n, h, t)
    ensures t < n
  {
    var s :| 0 <= s < n && hs[s] == 0;
    var u := ProbeReaches(h, n, s);
    assert u < t ==> Busy(hs, n, h, u);
  }

  lemma PassedBusy<K(!new)>(hs: seq<nat>, ix: seq<int>, keys: seq<K>, n: nat, h: nat, key: K, t: nat)
    requires n > 0 && AllPassed(hs, ix, keys, n, h, key, t)
    ensures AllBusy(hs, n, h, t)
  {
    hide Probe;
    forall u: nat | u < t ensures Busy(hs, n, h, u) {
      assert Passed(hs, ix, keys, n, h, key, u);
    }
  }

  /** One part of a bucket on behalf of a lookup. */
  method ScanFind<K(!new, ==)>(hash: array<nat>, index: array<int>, keys: seq<K>, key: K, h: nat, base: nat, lo: nat,
                    hi: nat, ghost n: nat, ghost eh: seq<nat>, ghost P: set<nat>, ghost t: nat)
    returns (r: Scan, ghost t': nat)
    requires IndexOK(hash[..], index[..], n, eh, P) && |keys| == |eh| && h >= 2 && lo <= hi && base + hi <= n
    requires Run(h, n, base, lo, hi, t) && AllPassed(hash[..], index[..], keys, n, h, key, t)
    ensures r.On? ==> t' == t + (hi - lo) && AllPassed(hash[..], index[..], keys, n, h, key, t')
    ensures r.Hit? ==> r.slot < n && 0 <= index[r.slot] < |keys| && index[r.slot] in P && keys[index[r.slot]] == key
    ensures r.Free? ==>
              AllPassed(hash[..], index[..], keys, n, h, key, t') && Probe(h, n, t') == r.slot < n && hash[r.slot] == 0
  {
    ghost var hs, ix := hash[..], index[..];
    hide Probe, Placed, PlacedAt;
    t' := t;
    for i := lo to hi
      invariant t' == t + (i - lo) && AllPassed(hs, ix, keys, n, h, key, t')
    {
      assert RunAt(h, n, base, lo, t, i);
      assert SlotOK(hs, ix, eh, P, base + i);
      if hash[base + i] == h {
        if keys[index[base + i]] == key {
          return Hit(base + i), t';
        }
      } else if hash[base + i] == 0 {
        return Free(base + i), t';
      }
      assert Passed(hs, ix, keys, n, h, key, t');
      t' := t' + 1;
    }
    return On, t';
  }

  lemma RoundRuns(h: nat, n: nat, r: nat)
    requires n > 0
    ensures var p := Pos(h, n, r);
            Run(h, n, p - p % 8, p % 8, 8, 8 * r) && Run(h, n, p - p % 8, 0, p % 8, 8 * r + (8 - p % 8))
  {
    hide Probe, Pos;
    var p := Pos(h, n, r);
    var base, lo, t: nat, t': nat := p - p % 8, p % 8, 8 * r, 8 * r + (8 - p % 8);
    forall i: nat | lo <= i < 8 ensures RunAt(h, n, base, lo, t, i) {
      ProbeInRound(h, n, r, i);
    }
    forall i: nat | i < lo ensures RunAt(h, n, base, 0, t', i) {
      ProbeInRound(h, n, r, i);
    }
  }

  lemma NextRound(h: nat, n: nat, r: nat)
    requires n > 0
    ensures Pos(h, n, r + 1) == Wrap(Pos(h, n, r) + 8 * (r + 1), n)
  {
  }

  /** Looks the key up: the slot that refers to its entry, or -1 when it has none. */
  method FindSlot<K(!new, ==)>(hash: array<nat>, index: array<int>, n: nat, keys: seq<K>, key: K, h: nat,
                               ghost eh: seq<nat>, ghost P: set<nat>)
    returns (slot: int)
    requires IndexOK(hash[..], index[..], n, eh, P) && SlotCount(n) && SameHash(eh, keys, P, key, h) && h >= 2
    requires exists s :: 0 <= s < n && hash[..][s] == 0
    ensures slot >= 0 ==> slot < n && 0 <= index[slot] < |keys| && index[slot] in P && keys[index[slot]] == key
    ensures slot < 0 ==> slot == -1 && forall i {:trigger i in P} :: i in P ==> i < |keys| && keys[i] != key
  {
    ghost var hs, ix := hash[..], index[..];
    hide IndexOK, AllPassed, Run, Probe, SlotCount;
    assert n > 0 && n % 8 == 0 && |hs| == n by { IndexShape(hs, ix, n, eh, P); }
    var pos, step := Wrap(h, n), 8;
    ghost var r: nat := 0;
    assert Pos(h, n, 0) == pos;
    assert AllPassed(hs, ix, keys, n, h, key, 0) by { NothingPassed(hs, ix, keys, n, h, key); }
    hide Pos, Wrap;
    while true
      invariant 0 <= pos < n && pos == Pos(h, n, r) && step == 8 * (r + 1)
      invariant AllPassed(hs, ix, keys, n, h, key, 8 * r)
      decreases n - 8 * r
    {
      PassedBusy(hs, ix, keys, n, h, key, 8 * r);
      ProbesEnd(hs, n, h, 8 * r);
      RoundRuns(h, n, r);
      BucketFits(pos, n);
      var base, lo := pos - pos % 8, pos % 8;
      var res;
      ghost var t;
      res, t := ScanFind(hash, index, keys, key, h, base, lo, 8, n, eh, P, 8 * r);
      if res.On? {
        res, t := ScanFind(hash, index, keys, key, h, base, 0, lo, n, eh, P, 8 * r + (8 - lo));
      }
      if res.Hit? {
        return res.slot;
      } else if res.Free? {
        NotPresent(hs, ix, n, eh, P, keys, key, h, t);
        return -1;
      }
      NextRound(h, n, r);
      pos := Wrap(pos + step, n);
      step := step + 8;
      r := r + 1;
    }
  }

  lemma IndexShape(hs: seq<nat>, ix: seq<int>, n: nat, eh: seq<nat>, P: set<nat>)
    requires IndexOK(hs, ix, n, eh, P)
    ensures n > 0 && n % 8 == 0 && |hs| == n && |ix| == n
  {
  }

  lemma NothingPassed<K(!new)>(hs: seq<nat>, ix: seq<int>, keys: seq<K>, n: nat, h: nat, key: K)
    requires n > 0
    ensures AllPassed(hs, ix, keys, n, h, key, 0)
  {
  }

  /** Probe u meets a slot that refers to an entry. */
  ghost predicate Taken(ix: seq<int>, n: nat, h: nat, u: nat)
    requires n > 0
  {
    var p := Probe(h, n, u);
    0 <= p < |ix| && ix[p] >= 0
  }

  /** Neither an empty slot nor a tombstone comes before probe t. */
  ghost predicate AllTaken(ix: seq<int>, n: nat, h: nat, t: nat)
    requires n > 0
  {
    forall u: nat {:trigger Taken(ix, n, h, u)} :: u < t ==> Taken(ix, n, h, u)
  }

  lemma TakenNext(ix: seq<int>, n: nat, h: nat, t: nat)
    requires n > 0 && AllTaken(ix, n, h, t) && Taken(ix, n, h, t)
    ensures AllTaken(ix, n, h, t + 1)
  {
    hide Taken;
  }

  /** The first tombstone met before probe t, if any was. */
  ghost predicate TombMet(ix: seq<int>, n: nat, h: nat, tomb: int, tt: nat, t: nat)
    requires n > 0
  {
    if tomb < 0 then AllTaken(ix, n, h, t)
    else tomb < |ix| && ix[tomb] == DELETED && Probe(h, n, tt) == tomb && tt < t && AllTaken(ix, n, h, tt)
  }

  lemma NothingTaken(ix: seq<int>, n: nat, h: nat)
    requires n > 0
    ensures AllTaken(ix, n, h, 0)
  {
  }

  /** One part of a bucket on behalf of an insertion, which also remembers the first tombstone. */
  method ScanPut<K(!new, ==)>(hash: array<nat>, index: array<int>, keys: seq<K>, key: K, h: nat, base: nat, lo: nat,
                   hi: nat, tomb: int, ghost n: nat, ghost eh: seq<nat>, ghost P: set<nat>, ghost t: nat, ghost tt: nat)
    returns (r: Scan, tomb': int, ghost t': nat, ghost tt': nat)
    requires IndexOK(hash[..], index[..], n, eh, P) && |keys| == |eh| && h >= 2 && lo <= hi && base + hi <= n
    requires Run(h, n, base, lo, hi, t) && AllPassed(hash[..], index[..], keys, n, h, key, t) &&
             TombMet(index[..], n, h, tomb, tt, t)
    ensures r.On? ==>
              t' == t + (hi - lo) && AllPassed(hash[..], index[..], keys, n, h, key, t') &&
              TombMet(index[..], n, h, tomb', tt', t')
    ensures r.Hit? ==> r.slot < n && 0 <= index[r.slot] < |keys| && index[r.slot] in P && keys[index[r.slot]] == key
    ensures r.Free? ==>
              AllPassed(hash[..], index[..], keys, n, h, key, t') && Probe(h, n, t') == r.slot < n && hash[r.slot] == 0
    ensures r.Free? ==> TombMet(index[..], n, h, tomb', tt', t')
  {
    ghost var hs, ix := hash[..], index[..];
    hide Probe, Placed, PlacedAt, AllTaken;
    tomb', t', tt' := tomb, t, tt;
    for i := lo to hi
      invariant t' == t + (i - lo)
      invariant AllPassed(hs, ix, keys, n, h, key, t') && TombMet(ix, n, h, tomb', tt', t')
    {
      assert RunAt(h, n, base, lo, t, i);
      assert SlotOK(hs, ix, eh, P, base + i);
      if hash[base + i] == h {
        if keys[index[base + i]] == key {
          return Hit(base + i), tomb', t', tt';
        }
      } else if hash[base + i] == 0 {
        return Free(base + i), tomb', t', tt';
      } else if tomb' < 0 {
        if index[base + i] == DELETED {
          tomb', tt' := base + i, t';
        }
      }
      assert Passed(hs, ix, keys, n, h, key, t');
      if tomb' < 0 {
        TakenNext(ix, n, h, t');
      }
      t' := t' + 1;
    }
    return On, tomb', t', tt';
  }

  /** The slot an insertion ends at: one that refers to the key, or the first that is a tombstone or empty. */
  method FindPlace<K(!new, ==)>(hash: array<nat>, index: array<int>, n: nat, keys: seq<K>, key: K, h: nat,
                                ghost eh: seq<nat>, ghost P: set<nat>)
    returns (found: bool, slot: nat, ghost t: nat)
    requires IndexOK(hash[..], index[..], n, eh, P) && SlotCount(n) && SameHash(eh, keys, P, key, h) && h >= 2
    requires exists s :: 0 <= s < n && hash[..][s] == 0
    ensures slot < n
    ensures found ==> 0 <= index[slot] < |keys| && index[slot] in P && keys[index[slot]] == key
    ensures !found ==> (forall i {:trigger i in P} :: i in P ==> i < |keys| && keys[i] != key)
    ensures !found ==> index[slot] < 0 && Probe(h, n, t) == slot
                       && AllBusy(hash[..], n, h, t) && AllTaken(index[..], n, h, t)
  {
    ghost var hs, ix := hash[..], index[..];
    hide IndexOK, AllPassed, Run, Probe, SlotCount, AllBusy, AllTaken;
    IndexShape(hs, ix, n, eh, P);
    var pos, step := Wrap(h, n), 8;
    ghost var r: nat := 0;
    assert Pos(h, n, 0) == pos;
    NothingPassed(hs, ix, keys, n, h, key);
    hide Pos, Wrap;
    assert AllTaken(ix, n, h, 0) by { NothingTaken(ix, n, h); }
    var tomb := -1;
    ghost var tt: nat := 0;
    while true
      invariant 0 <= pos < n && pos == Pos(h, n, r) && step == 8 * (r + 1)
      invariant AllPassed(hs, ix, keys, n, h, key, 8 * r) && TombMet(ix, n, h, tomb, tt, 8 * r)
      decreases n - 8 * r
    {
      PassedBusy(hs, ix, keys, n, h, key, 8 * r);
      ProbesEnd(hs, n, h, 8 * r);
      RoundRuns(h, n, r);
      BucketFits(pos, n);
      var base, lo := pos - pos % 8, pos % 8;
      var res;
      res, tomb, t, tt := ScanPut(hash, index, keys, key, h, base, lo, 8, tomb, n, eh, P, 8 * r, tt);
      if res.On? {
        res, tomb, t, tt := ScanPut(hash, index, keys, key, h, base, 0, lo, tomb, n, eh, P, 8 * r + (8 - lo), tt);
      }
      if res.Hit? {
        return true, res.slot, t;
      } else if res.Free? {
        NotPresent(hs, ix, n, eh, P, keys, key, h, t);
        PassedBusy(hs, ix, keys, n, h, key, t);
        if tomb >= 0 {
          return false, tomb, tt;
        }
        FreeSlotIndex(hs, ix, n, eh, P, res.slot);
        return false, res.slot, t;
      }
      NextRound(h, n, r);
      pos := Wrap(pos + step, n);
      step := step + 8;
      r := r + 1;
    }
  }

  lemma FreeSlotIndex(hs: seq<nat>, ix: seq<int>, n: nat, eh: seq<nat>, P: set<nat>, s: nat)
    requires IndexOK(hs, ix, n, eh, P) && s < n && hs[s] == 0
    ensures ix[s] == EMPTY
  {
    assert SlotOK(hs, ix, eh, P, s);
  }

  /** One part of a bucket on behalf of a rebuild: the first empty slot. */
  method ScanFree(hash: array<nat>, h: nat, base: nat, lo: nat, hi: nat, ghost n: nat, ghost t: nat)
    returns (r: Scan, ghost t': nat)
    requires n > 0 && hash.Length == n && lo <= hi && base + hi <= n && Run(h, n, base, lo, hi, t)
    requires AllBusy(hash[..], n, h, t)
    ensures !r.Hit? && AllBusy(hash[..], n, h, t')
    ensures r.On? ==> t' == t + (hi - lo)
    ensures r.Free? ==> Probe(h, n, t') == r.slot < n && hash[r.slot] == 0
  {
    ghost var hs := hash[..];
    hide Probe;
    t' := t;
    for i := lo to hi
      invariant t' == t + (i - lo) && AllBusy(hs, n, h, t')
    {
      assert RunAt(h, n, base, lo, t, i);
      if hash[base + i] == 0 {
        return Free(base + i), t';
      }
      assert Busy(hs, n, h, t');
      t' := t' + 1;
    }
    return On, t';
  }

  /** The first empty slot in the probe order of h. */
  method FindFree(hash: array<nat>, n: nat, h: nat) returns (slot: nat, ghost t: nat)
    requires SlotCount(n) && hash.Length == n && n % 8 == 0 && exists s :: 0 <= s < n && hash[..][s] == 0
    ensures slot < n && hash[slot] == 0 && Probe(h, n, t) == slot
    ensures AllBusy(hash[..], n, h, t)
  {
    ghost var hs := hash[..];
    assert n > 0;
    assert AllBusy(hs, n, h, 0);
    hide Run, Probe, SlotCount, AllBusy;
    var pos, step := Wrap(h, n), 8;
    ghost var r: nat := 0;
    assert Pos(h, n, 0) == pos;
    hide Pos, Wrap;
    while true
      invariant 0 <= pos < n && pos == Pos(h, n, r) && step == 8 * (r + 1)
      invariant AllBusy(hs, n, h, 8 * r)
      decreases n - 8 * r
    {
      ProbesEnd(hs, n, h, 8 * r);
      RoundRuns(h, n, r);
      BucketFits(pos, n);
      var base, lo := pos - pos % 8, pos % 8;
      var res;
      res, t := ScanFree(hash, h, base, lo, 8, n, 8 * r);
      if res.On? {
        res, t := ScanFree(hash, h, base, 0, lo, n, 8 * r + (8 - lo));
      }
      if res.Free? {
        return res.slot, t;
      }
      NextRound(h, n, r);
      pos := Wrap(pos + step, n);
      step := step + 8;
      r := r + 1;
    }
  }
}
