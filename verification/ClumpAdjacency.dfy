/**
  Adjacency lists between clumps of neighbouring clusters. Every cluster keeps
  one bounded block of storage that is cut into one slice per edge clump; lists
  are edited in place and the whole block is laid out again when a slice is full.
 */
module ClumpAdjacency {
  import opened GridPaths
  import opened Counting

  /** Clump idx of the cluster that lies (dx, dy) clusters away. */
  datatype Rel = Rel(idx: nat, dx: int, dy: int)

  /** Slice [start, start + maxAdj) of the storage, of which the first numAdj entries are in use. */
  datatype Clump = Clump(start: nat, numAdj: nat, maxAdj: nat)

  datatype Cluster = Cluster(numClumps: nat, numEdge: nat, rebuild: bool, clump: seq<Clump>, storage: seq<Rel>)

  const EAST := Pt(1, 0)
  const WEST := Pt(-1, 0)
  const NORTH := Pt(0, -1)
  const SOUTH := Pt(0, 1)

  predicate IsDir(d: Pt) {
    d == EAST || d == WEST || d == NORTH || d == SOUTH
  }

  /** Square k of the side of the box that faces direction d. */
  function SideCell(o: Pt, n: nat, d: Pt, k: int): Pt {
    if d.x == 1 then Pt(o.x + n - 1, o.y + k)
    else if d.x == -1 then Pt(o.x, o.y + k)
    else if d.y == -1 then Pt(o.x + k, o.y)
    else Pt(o.x + k, o.y + n - 1)
  }

  function Across(p: Pt, d: Pt): Pt { Pt(p.x + d.x, p.y + d.y) }

  /** Square k of side d and the square beyond it are both open. */
  predicate Hit(open: set<Pt>, o: Pt, n: nat, d: Pt, k: int) {
    SideCell(o, n, d, k) in open && Across(SideCell(o, n, d, k), d) in open
  }

  function SrcAt(mark: map<Pt, nat>, o: Pt, n: nat, d: Pt, k: int): nat
    requires SideCell(o, n, d, k) in mark
  {
    mark[SideCell(o, n, d, k)]
  }

  function RelAt(mark: map<Pt, nat>, o: Pt, n: nat, d: Pt, k: int): Rel
    requires Across(SideCell(o, n, d, k), d) in mark
  {
    Rel(mark[Across(SideCell(o, n, d, k), d)], d.x, d.y)
  }

  /** What clump src touches across the first m squares of side d. */
  ghost function Touches(open: set<Pt>, mark: map<Pt, nat>, o: Pt, n: nat, d: Pt, m: nat, src: nat): (r: set<Rel>)
    requires open <= mark.Keys
    ensures forall e :: e in r ==> e.dx == d.x && e.dy == d.y
  {
    if m == 0 then {}
    else
      var rest := Touches(open, mark, o, n, d, m - 1, src);
      if Hit(open, o, n, d, m - 1) && SrcAt(mark, o, n, d, m - 1) == src then rest + {RelAt(mark, o, n, d, m - 1)}
          else rest
  }

  lemma {:induction false} TouchesGrow(open: set<Pt>, mark: map<Pt, nat>, o: Pt, n: nat, d: Pt, l: nat, m: nat,
                                       src: nat)
    requires open <= mark.Keys && l <= m
    ensures Touches(open, mark, o, n, d, l, src) <= Touches(open, mark, o, n, d, m, src)
    decreases m
  {
    if l < m {
      TouchesGrow(open, mark, o, n, d, l, m - 1, src);
    }
  }

  /** Membership in Touches is exactly: some square of the side carries src and faces the clump. */
  lemma {:induction false} TouchesWitness(open: set<Pt>, mark: map<Pt, nat>, o: Pt, n: nat, d: Pt, m: nat, src: nat,
                                          e: Rel)
    returns (k: int)
    requires open <= mark.Keys && e in Touches(open, mark, o, n, d, m, src)
    ensures 0 <= k < m && Hit(open, o, n, d, k) && SrcAt(mark, o, n, d, k) == src && RelAt(mark, o, n, d, k) == e
    decreases m
  {
    if Hit(open, o, n, d, m - 1) && SrcAt(mark, o, n, d, m - 1) == src && RelAt(mark, o, n, d, m - 1) == e {
      k := m - 1;
    } else {
      k := TouchesWitness(open, mark, o, n, d, m - 1, src, e);
    }
  }

  lemma TouchesMember(open: set<Pt>, mark: map<Pt, nat>, o: Pt, n: nat, d: Pt, m: nat, k: int)
    requires open <= mark.Keys && 0 <= k < m && Hit(open, o, n, d, k)
    ensures RelAt(mark, o, n, d, k) in Touches(open, mark, o, n, d, m, SrcAt(mark, o, n, d, k))
  {
    TouchesGrow(open, mark, o, n, d, k + 1, m, SrcAt(mark, o, n, d, k));
  }

  /** Only the side and the squares beyond it matter. */
  lemma {:induction false} TouchesFrame(open: set<Pt>, mark: map<Pt, nat>, open': set<Pt>, mark': map<Pt, nat>,
                                        o: Pt, n: nat, d: Pt, m: nat, src: nat)
    requires open <= mark.Keys && open' <= mark'.Keys && m <= n
    requires forall k {:trigger SideCell(o, n, d, k)} :: 0 <= k < n ==>
               SameAt(open, mark, open', mark', SideCell(o, n, d, k)) &&
               SameAt(open, mark, open', mark', Across(SideCell(o, n, d, k), d))
    ensures Touches(open, mark, o, n, d, m, src) == Touches(open', mark', o, n, d, m, src)
    decreases m
  {
    if m > 0 {
      TouchesFrame(open, mark, open', mark', o, n, d, m - 1, src);
      assert SameAt(open, mark, open', mark', SideCell(o, n, d, m - 1));
    }
  }

  ghost predicate SameAt(open: set<Pt>, mark: map<Pt, nat>, open': set<Pt>, mark': map<Pt, nat>, p: Pt)
    requires open <= mark.Keys && open' <= mark'.Keys
  {
    (p in open <==> p in open') && (p in open && p in open' ==> mark[p] == mark'[p])
  }

  /** Everything clump src touches on the four sides of its cluster. */
  ghost function Neighbours(open: set<Pt>, mark: map<Pt, nat>, o: Pt, n: nat, src: nat): set<Rel>
    requires open <= mark.Keys
  {
    Touches(open, mark, o, n, EAST, n, src) + Touches(open, mark, o, n, WEST, n, src)
    + Touches(open, mark, o, n, NORTH, n, src) + Touches(open, mark, o, n, SOUTH, n, src)
  }

  // ---------------------------------------------------------------- slices

  ghost predicate SliceOK(n: nat, cl: Cluster, k: int)
    requires 0 <= k < |cl.clump|
  {
    var c := cl.clump[k];
    c.numAdj <= c.maxAdj <= 2 * n && c.start < 4 * n && c.start + c.maxAdj <= 4 * n
  }

  /** Slices of the edge clumps lie in order and do not overlap; every offset fits a byte when 4n <= 256. */
  ghost predicate Layout(n: nat, cl: Cluster) {
    && |cl.storage| == 4 * n && cl.numEdge <= |cl.clump|
    && (forall k {:trigger SliceOK(n, cl, k)} :: 0 <= k < cl.numEdge ==> SliceOK(n, cl, k))
    && (forall j, k {:trigger cl.clump[j], cl.clump[k]} :: 0 <= j < k < cl.numEdge ==>
          cl.clump[j].start + cl.clump[j].maxAdj <= cl.clump[k].start)
  }

  /** The adjacency list of edge clump k. */
  ghost function List(n: nat, cl: Cluster, k: int): seq<Rel>
    requires 0 <= k < |cl.clump| && SliceOK(n, cl, k) && |cl.storage| == 4 * n
  {
    cl.storage[cl.clump[k].start .. cl.clump[k].start + cl.clump[k].numAdj]
  }

  /** Clump k lists the clumps in want, each once. */
  ghost predicate Lists(n: nat, cl: Cluster, want: seq<set<Rel>>, k: int) {
    && 0 <= k < |cl.clump| && k < |want| && SliceOK(n, cl, k) && |cl.storage| == 4 * n
    && Distinct(List(n, cl, k)) && Elems(List(n, cl, k)) == want[k]
  }

  ghost predicate Holds(n: nat, cl: Cluster, want: seq<set<Rel>>) {
    && Layout(n, cl) && |want| == cl.numEdge
    && forall k {:trigger Lists(n, cl, want, k)} :: 0 <= k < cl.numEdge ==> Lists(n, cl, want, k)
  }

  /** Appends rel to the list of src, or flags the cluster for a rebuild when the slice is full. */
  method AddConnection(n: nat, cl: Cluster, src: nat, rel: Rel, ghost want: seq<set<Rel>>) returns (cl': Cluster)
    requires Holds(n, cl, want) && src < cl.numEdge && rel !in want[src] && !cl.rebuild
    ensures cl'.rebuild ==> cl' == cl.(rebuild := true) && |want[src]| == cl.clump[src].maxAdj
    ensures !cl'.rebuild ==> Holds(n, cl', want[src := want[src] + {rel}])
    ensures SameShape(cl, cl')
  {
    assert Lists(n, cl, want, src);
    var c := cl.clump[src];
    if c.numAdj == c.maxAdj {
      cl' := cl.(rebuild := true);
      DistinctCount(List(n, cl, src));
    } else {
      cl' := cl.(storage := cl.storage[c.start + c.numAdj := rel], clump :=
          cl.clump[src := c.(numAdj := c.numAdj + 1)]);
      ghost var want' := want[src := want[src] + {rel}];
      forall k | 0 <= k < cl.numEdge ensures Lists(n, cl', want', k) {
        AddKeeps(n, cl, cl', src, rel, want, k);
      }
      forall k | 0 <= k < cl.numEdge ensures SliceOK(n, cl', k) {
        assert Lists(n, cl', want', k);
      }
    }
  }

  ghost predicate SameSlices(a: Cluster, b: Cluster) {
    && |a.clump| == |b.clump|
    && forall k {:trigger b.clump[k]} :: 0 <= k < |a.clump| ==>
      a.clump[k].start == b.clump[k].start && a.clump[k].maxAdj == b.clump[k].maxAdj
  }

  /** Same clumps and slices; only list contents and the rebuild flag may differ. */
  ghost predicate SameShape(a: Cluster, b: Cluster) {
    a.numEdge == b.numEdge && a.numClumps == b.numClumps && SameSlices(a, b) && |a.storage| == |b.storage|
  }

  lemma AddKeeps(n: nat, cl: Cluster, cl': Cluster, src: nat, rel: Rel, want: seq<set<Rel>>, k: int)
    requires Holds(n, cl, want) && src < cl.numEdge && rel !in want[src] && 0 <= k < cl.numEdge
    requires var c := cl.clump[src];
      c.numAdj < c.maxAdj && c.start + c.numAdj < |cl.storage| &&
      cl' == cl.(storage := cl.storage[c.start + c.numAdj := rel], clump := cl.clump[src := c.(numAdj := c.numAdj + 1)])
    ensures Lists(n, cl', want[src := want[src] + {rel}], k)
  {
    assert Lists(n, cl, want, k);
    assert SliceOK(n, cl', k);
    if k == src {
      assert List(n, cl', k) == List(n, cl, k) + [rel];
      assert rel !in Elems(List(n, cl, k));
    } else {
      assert SliceOK(n, cl, src);
      assert cl.clump[k].start + cl.clump[k].maxAdj <= cl.clump[src].start ||
             cl.clump[src].start + cl.clump[src].maxAdj <= cl.clump[k].start;
      assert List(n, cl', k) == List(n, cl, k);
    }
  }

  /** Drops rel from the list of src by moving the last entry into its place; the search always finds it. */
  method RemoveConnection(n: nat, cl: Cluster, src: nat, rel: Rel, ghost want: seq<set<Rel>>) returns (cl': Cluster)
    requires Holds(n, cl, want) && src < cl.numEdge && rel in want[src]
    ensures Holds(n, cl', want[src := want[src] - {rel}])
    ensures cl'.rebuild == cl.rebuild && SameShape(cl, cl')
  {
    assert Lists(n, cl, want, src);
    var c := cl.clump[src];
    var i := 0;
    while i < c.numAdj && cl.storage[c.start + i] != rel
      invariant 0 <= i <= c.numAdj
      invariant forall h :: 0 <= h < i ==> List(n, cl, src)[h] != rel
    {
      i := i + 1;
    }
    assert i < c.numAdj by {
      assert rel in Elems(List(n, cl, src));
    }
    cl' := cl.(storage := cl.storage[c.start + i := cl.storage[c.start + c.numAdj - 1]],
               clump := cl.clump[src := c.(numAdj := c.numAdj - 1)]);
    ghost var want' := want[src := want[src] - {rel}];
    forall k | 0 <= k < cl.numEdge ensures Lists(n, cl', want', k) {
      RemoveKeeps(n, cl, cl', src, rel, want, i, k);
    }
    forall k | 0 <= k < cl.numEdge ensures SliceOK(n, cl', k) {
      assert Lists(n, cl', want', k);
    }
  }

  /** cl with the entry at place i of the list of src overwritten by the last one. */
  function Dropped(cl: Cluster, src: nat, i: nat): Cluster
    requires src < |cl.clump| && i < cl.clump[src].numAdj && cl.clump[src].start + cl.clump[src].numAdj <= |cl.storage|
  {
    var c := cl.clump[src];
    cl.(storage := cl.storage[c.start + i := cl.storage[c.start + c.numAdj - 1]],
        clump := cl.clump[src := c.(numAdj := c.numAdj - 1)])
  }

  lemma RemoveHere(n: nat, cl: Cluster, src: nat, rel: Rel, want: seq<set<Rel>>, i: nat)
    requires src < |want| && Lists(n, cl, want, src)
    requires var c := cl.clump[src];
      i < c.numAdj && c.start + c.numAdj <= |cl.storage| && cl.storage[c.start + i] == rel
    ensures Lists(n, Dropped(cl, src, i), want[src := want[src] - {rel}], src)
  {
    hide Distinct, Elems;
    var cl' := Dropped(cl, src, i);
    assert SliceOK(n, cl', src);
    var L := List(n, cl, src);
    ShorterSlice(cl.storage, cl.clump[src].start, cl.clump[src].numAdj, i);
    assert List(n, cl', src) == L[i := L[|L| - 1]][..|L| - 1];
    SwapRemove(L, i);
  }

  lemma ShorterSlice<T>(s: seq<T>, start: nat, len: nat, i: nat)
    requires start + len <= |s| && i < len
    ensures var L := s[start..start + len];
            s[start + i := s[start + len - 1]][start..start + len - 1] == L[i := L[len - 1]][..len - 1]
  {
  }

  lemma RemoveElsewhere(n: nat, cl: Cluster, src: nat, rel: Rel, want: seq<set<Rel>>, i: nat, k: nat)
    requires Holds(n, cl, want) && src < cl.numEdge && k < cl.numEdge && k != src
    requires var c := cl.clump[src]; i < c.numAdj && c.start + c.numAdj <= |cl.storage|
    ensures Lists(n, Dropped(cl, src, i), want[src := want[src] - {rel}], k)
  {
    assert Lists(n, cl, want, k);
    var cl' := Dropped(cl, src, i);
    assert SliceOK(n, cl, k) && SliceOK(n, cl, src);
    var a, b := cl.clump[k], cl.clump[src];
    assert a.start + a.maxAdj <= b.start || b.start + b.maxAdj <= a.start;
    assert List(n, cl', k) == List(n, cl, k);
  }

  lemma RemoveKeeps(n: nat, cl: Cluster, cl': Cluster, src: nat, rel: Rel, want: seq<set<Rel>>, i: nat, k: int)
    requires Holds(n, cl, want) && src < cl.numEdge && 0 <= k < cl.numEdge
    requires var c := cl.clump[src];
      i < c.numAdj && c.start + c.numAdj <= |cl.storage| && cl.storage[c.start + i] == rel && cl' == Dropped(cl, src, i)
    ensures Lists(n, cl', want[src := want[src] - {rel}], k)
  {
    assert Lists(n, cl, want, src);
    hide Lists;
    if k == src {
      RemoveHere(n, cl, src, rel, want, i);
    } else {
      RemoveElsewhere(n, cl, src, rel, want, i, k);
    }
  }

  lemma SwapRemove<T(!new)>(L: seq<T>, i: nat)
    requires Distinct(L) && i < |L|
    ensures Distinct(L[i := L[|L| - 1]][..|L| - 1])
    ensures Elems(L[i := L[|L| - 1]][..|L| - 1]) == Elems(L) - {L[i]}
  {
    var M := L[i := L[|L| - 1]][..|L| - 1];
    forall x | x in Elems(L) - {L[i]} ensures x in Elems(M) {
      var j :| 0 <= j < |L| && L[j] == x;
      assert x == if j == |L| - 1 then M[i] else M[j];
    }
  }

  // ---------------------------------------------------------------- one side of a cluster

  /** base with what the first m squares of side d touch added to it. */
  ghost function Plus(base: seq<set<Rel>>, open: set<Pt>, mark: map<Pt, nat>, o: Pt, n: nat, d: Pt,
                      m: nat): (r: seq<set<Rel>>)
    requires open <= mark.Keys
    ensures |r| == |base|
  {
    seq(|base|, k requires 0 <= k < |base| => base[k] + Touches(open, mark, o, n, d, m, k))
  }

  /** base without what the first m squares of side d touch. */
  ghost function Minus(base: seq<set<Rel>>, open: set<Pt>, mark: map<Pt, nat>, o: Pt, n: nat, d: Pt,
                       m: nat): (r: seq<set<Rel>>)
    requires open <= mark.Keys
    ensures |r| == |base|
  {
    seq(|base|, k requires 0 <= k < |base| => base[k] - Touches(open, mark, o, n, d, m, k))
  }

  /** Squares on side d carry edge ids and the clumps beyond have ids below 2n. */
  ghost predicate SideIds(open: set<Pt>, mark: map<Pt, nat>, o: Pt, n: nat, d: Pt, numEdge: nat)
    requires open <= mark.Keys
  {
    numEdge <= 2 * n &&
    forall k {:trigger Hit(open, o, n, d, k)} :: 0 <= k < n && Hit(open, o, n, d, k) ==>
      SrcAt(mark, o, n, d, k) < numEdge && RelAt(mark, o, n, d, k).idx < 2 * n
  }

  /** No entry of base points in direction d. */
  ghost predicate Free(base: seq<set<Rel>>, d: Pt) {
    forall k, e {:trigger e in base[k]} :: 0 <= k < |base| && e in base[k] ==> !(e.dx == d.x && e.dy == d.y)
  }

  lemma PlusMiss(base: seq<set<Rel>>, open: set<Pt>, mark: map<Pt, nat>, o: Pt, n: nat, d: Pt, m: nat)
    requires open <= mark.Keys
    requires Hit(open, o, n, d, m) ==>
               RelAt(mark, o, n, d, m) in Touches(open, mark, o, n, d, m, SrcAt(mark, o, n, d, m))
    ensures Plus(base, open, mark, o, n, d, m + 1) == Plus(base, open, mark, o, n, d, m)
    ensures Minus(base, open, mark, o, n, d, m + 1) == Minus(base, open, mark, o, n, d, m)
  {
    forall k | 0 <= k < |base| ensures Touches(open, mark, o, n, d, m + 1, k) == Touches(open, mark, o, n, d, m, k) {}
  }

  lemma PlusHit(base: seq<set<Rel>>, open: set<Pt>, mark: map<Pt, nat>, o: Pt, n: nat, d: Pt, m: nat)
    requires open <= mark.Keys && Hit(open, o, n, d, m) && SrcAt(mark, o, n, d, m) < |base|
    ensures var src, rel := SrcAt(mark, o, n, d, m), RelAt(mark, o, n, d, m);
      && Plus(base, open, mark, o, n, d, m + 1) ==
           Plus(base, open, mark, o, n, d, m)[src := Plus(base, open, mark, o, n, d, m)[src] + {rel}]
      && Minus(base, open, mark, o, n, d, m + 1) ==
           Minus(base, open, mark, o, n, d, m)[src := Minus(base, open, mark, o, n, d, m)[src] - {rel}]
  {
    var src, rel := SrcAt(mark, o, n, d, m), RelAt(mark, o, n, d, m);
    var P, P', M, M' := Plus(base, open, mark, o, n, d, m), Plus(base, open, mark, o, n, d, m + 1),
                        Minus(base, open, mark, o, n, d, m), Minus(base, open, mark, o, n, d, m + 1);
    forall k | 0 <= k < |base| ensures P'[k] == P[src := P[src] + {rel}][k] && M'[k] == M[src := M[src] - {rel}][k] {
      if k == src {
        assert Touches(open, mark, o, n, d, m + 1, k) == Touches(open, mark, o, n, d, m, k) + {rel};
      } else {
        assert Touches(open, mark, o, n, d, m + 1, k) == Touches(open, mark, o, n, d, m, k);
      }
    }
  }

  lemma PlusNone(base: seq<set<Rel>>, open: set<Pt>, mark: map<Pt, nat>, o: Pt, n: nat, d: Pt)
    requires open <= mark.Keys
    ensures Plus(base, open, mark, o, n, d, 0) == base && Minus(base, open, mark, o, n, d, 0) == base
  {
    forall k | 0 <= k < |base|
      ensures Plus(base, open, mark, o, n, d, 0)[k] == base[k] && Minus(base, open, mark, o, n, d, 0)[k] == base[k]
    {
      assert Touches(open, mark, o, n, d, 0, k) == {};
    }
  }

  /** The pairs found so far: exactly those the first m squares of the side touch. */
  ghost predicate Seen(pairs: set<(nat, nat)>, open: set<Pt>, mark: map<Pt, nat>, o: Pt, n: nat, d: Pt, m: nat)
    requires open <= mark.Keys
  {
    forall src: nat, dest: nat {:trigger (src, dest) in pairs} ::
      (src, dest) in pairs <==> Rel(dest, d.x, d.y) in Touches(open, mark, o, n, d, m, src)
  }

  lemma SeenNext(pairs: set<(nat, nat)>, open: set<Pt>, mark: map<Pt, nat>, o: Pt, n: nat, d: Pt, m: nat)
    requires open <= mark.Keys && Seen(pairs, open, mark, o, n, d, m)
    ensures Hit(open, o, n, d, m) ==>
              Seen(pairs + {(SrcAt(mark, o, n, d, m), RelAt(mark, o, n, d, m).idx)}, open, mark, o, n, d, m + 1)
    ensures Hit(open, o, n, d, m) && (SrcAt(mark, o, n, d, m), RelAt(mark, o, n, d, m).idx) in pairs ==>
              Seen(pairs, open, mark, o, n, d, m + 1)
    ensures !Hit(open, o, n, d, m) ==> Seen(pairs, open, mark, o, n, d, m + 1)
  {
    if Hit(open, o, n, d, m) {
      var pair := (SrcAt(mark, o, n, d, m), RelAt(mark, o, n, d, m).idx);
      assert pair in pairs ==> pairs + {pair} == pairs;
    }
  }

  lemma FreeMember(base: seq<set<Rel>>, d: Pt, k: nat, e: Rel)
    requires Free(base, d) && k < |base| && e.dx == d.x && e.dy == d.y
    ensures e !in base[k]
  {
  }

  /** Some finished list is longer than the slice it has to go into. */
  ghost predicate TooLong(cl: Cluster, want: seq<set<Rel>>) {
    exists k :: 0 <= k < |want| && k < |cl.clump| && |want[k]| > cl.clump[k].maxAdj
  }

  lemma Overflow(base: seq<set<Rel>>, open: set<Pt>, mark: map<Pt, nat>, o: Pt, n: nat, d: Pt, m: nat, cl: Cluster,
                 cl': Cluster)
    requires open <= mark.Keys && m < n && Hit(open, o, n, d, m) && SrcAt(mark, o, n, d, m) < |base| <= |cl.clump|
    requires SameSlices(cl, cl')
    requires var src, rel := SrcAt(mark, o, n, d, m), RelAt(mark, o, n, d, m);
      rel !in Plus(base, open, mark, o, n, d, m)[src] &&
      |Plus(base, open, mark, o, n, d, m)[src]| == cl'.clump[src].maxAdj
    ensures TooLong(cl, Plus(base, open, mark, o, n, d, n))
  {
    var src, rel := SrcAt(mark, o, n, d, m), RelAt(mark, o, n, d, m);
    var s := Plus(base, open, mark, o, n, d, m)[src] + {rel};
    PlusHit(base, open, mark, o, n, d, m);
    TouchesGrow(open, mark, o, n, d, m + 1, n, src);
    SubsetCount(s, Plus(base, open, mark, o, n, d, n)[src]);
    assert |Plus(base, open, mark, o, n, d, n)[src]| > cl.clump[src].maxAdj;
  }

  /** Adds the connection at square k of side d, unless the same two clumps already met. */
  method AddSquare(n: nat, cl: Cluster, connected: set<(nat, nat)>, open: set<Pt>, mark: map<Pt, nat>, o: Pt, d: Pt,
                   k: nat, ghost base: seq<set<Rel>>)
    returns (cl': Cluster, connected': set<(nat, nat)>)
    requires open <= mark.Keys && Free(base, d) && k < n && SideIds(open, mark, o, n, d, cl.numEdge)
    requires Holds(n, cl, Plus(base, open, mark, o, n, d, k)) && !cl.rebuild && Seen(connected, open, mark, o, n, d, k)
    ensures SameShape(cl, cl')
    ensures !cl'.rebuild ==> Holds(n, cl', Plus(base, open, mark, o, n, d, k + 1))
    ensures !cl'.rebuild ==> Seen(connected', open, mark, o, n, d, k + 1)
    ensures cl'.rebuild ==> TooLong(cl, Plus(base, open, mark, o, n, d, n))
  {
    assert |base| == cl.numEdge <= |cl.clump|;
    hide Holds, TooLong, Free;
    cl', connected' := cl, connected;
    if Hit(open, o, n, d, k) {
      var src, rel := SrcAt(mark, o, n, d, k), RelAt(mark, o, n, d, k);
      assert src < 2 * n && rel.idx < 2 * n;
      if (src, rel.idx) !in connected {
        ghost var want := Plus(base, open, mark, o, n, d, k);
        assert rel !in want[src] by {
          FreeMember(base, d, src, rel);
        }
        connected' := connected + {(src, rel.idx)};
        PlusHit(base, open, mark, o, n, d, k);
        cl' := AddConnection(n, cl, src, rel, want);
        if cl'.rebuild {
          Overflow(base, open, mark, o, n, d, k, cl, cl);
        }
      } else {
        PlusMiss(base, open, mark, o, n, d, k);
      }
    } else {
      PlusMiss(base, open, mark, o, n, d, k);
    }
  }

  lemma TooLongShape(a: Cluster, b: Cluster, want: seq<set<Rel>>)
    requires SameShape(a, b) && TooLong(b, want)
    ensures TooLong(a, want)
  {
    var k :| 0 <= k < |want| && k < |b.clump| && |want[k]| > b.clump[k].maxAdj;
    assert |want[k]| > a.clump[k].maxAdj;
  }

  /**
    Adds the connections across side d to lists that hold none in that direction.
    It stops with the rebuild flag set only if the finished lists would not fit.
   */
  method AddSide(n: nat, cl: Cluster, open: set<Pt>, mark: map<Pt, nat>, o: Pt, d: Pt, ghost base: seq<set<Rel>>)
    returns (cl': Cluster)
    requires open <= mark.Keys && Holds(n, cl, base) && !cl.rebuild && Free(base, d)
    requires SideIds(open, mark, o, n, d, cl.numEdge)
    ensures SameShape(cl, cl')
    ensures !cl'.rebuild ==> Holds(n, cl', Plus(base, open, mark, o, n, d, n))
    ensures cl'.rebuild ==> TooLong(cl, Plus(base, open, mark, o, n, d, n))
  {
    hide Holds, TooLong, Free, SideIds;
    cl' := cl;
    var connected: set<(nat, nat)> := {};
    PlusNone(base, open, mark, o, n, d);
    assert Seen(connected, open, mark, o, n, d, 0);
    hide Seen;
    for k := 0 to n
      invariant !cl'.rebuild && Holds(n, cl', Plus(base, open, mark, o, n, d, k)) && SameShape(cl, cl')
      invariant Seen(connected, open, mark, o, n, d, k)
    {
      ghost var before := cl';
      cl', connected := AddSquare(n, cl', connected, open, mark, o, d, k, base);
      if cl'.rebuild {
        TooLongShape(cl, before, Plus(base, open, mark, o, n, d, n));
        return;
      }
    }
  }

  /** Drops the connections across side d from lists that hold all of them. */
  method RemoveSide(n: nat, cl: Cluster, open: set<Pt>, mark: map<Pt, nat>, o: Pt, d: Pt, ghost base: seq<set<Rel>>)
    returns (cl': Cluster)
    requires open <= mark.Keys && Holds(n, cl, base) && SideIds(open, mark, o, n, d, cl.numEdge)
    requires forall k {:trigger base[k]} :: 0 <= k < |base| ==> Touches(open, mark, o, n, d, n, k) <= base[k]
    ensures Holds(n, cl', Minus(base, open, mark, o, n, d, n))
    ensures cl'.rebuild == cl.rebuild && SameShape(cl, cl')
  {
    assert |base| == cl.numEdge;
    hide Holds;
    cl' := cl;
    var disconnected: set<(nat, nat)> := {};
    PlusNone(base, open, mark, o, n, d);
    for k := 0 to n
      invariant Holds(n, cl', Minus(base, open, mark, o, n, d, k))
      invariant cl'.rebuild == cl.rebuild && SameShape(cl, cl')
      invariant Seen(disconnected, open, mark, o, n, d, k)
    {
      if Hit(open, o, n, d, k) {
        var src, rel := SrcAt(mark, o, n, d, k), RelAt(mark, o, n, d, k);
        assert src < 2 * n && rel.idx < 2 * n;
        if (src, rel.idx) !in disconnected {
          disconnected := disconnected + {(src, rel.idx)};
          PlusHit(base, open, mark, o, n, d, k);
          TouchesMember(open, mark, o, n, d, n, k);
          cl' := RemoveConnection(n, cl', src, rel, Minus(base, open, mark, o, n, d, k));
        } else {
          PlusMiss(base, open, mark, o, n, d, k);
        }
      } else {
        PlusMiss(base, open, mark, o, n, d, k);
      }
    }
  }

  // ---------------------------------------------------------------- laying out a whole cluster

  predicate InGrid(cw: nat, ch: nat, c: Pt) {
    0 <= c.x < cw && 0 <= c.y < ch
  }

  /** Neighbouring squares that are open on both sides of a border lie in the same two clumps. */
  ghost predicate SideRuns(open: set<Pt>, mark: map<Pt, nat>, o: Pt, n: nat, d: Pt)
    requires open <= mark.Keys
  {
    forall k {:trigger Hit(open, o, n, d, k)} :: 0 < k < n && Hit(open, o, n, d, k) && Hit(open, o, n, d, k - 1) ==>
      SrcAt(mark, o, n, d, k) == SrcAt(mark, o, n, d, k - 1) && RelAt(mark, o, n, d, k) == RelAt(mark, o, n, d, k - 1)
  }

  /** What the map guarantees about side d of cluster c; there is nothing open beyond the rim of the grid. */
  ghost predicate SideOK(open: set<Pt>, mark: map<Pt, nat>, o: Pt, n: nat, cw: nat, ch: nat, c: Pt, d: Pt,
                         numEdge: nat) {
    && open <= mark.Keys
    && SideIds(open, mark, o, n, d, numEdge) && SideRuns(open, mark, o, n, d)
    && (!InGrid(cw, ch, Across(c, d)) ==> forall k {:trigger Hit(open, o, n, d, k)} :: 0 <= k < n ==>
      !Hit(open, o, n, d, k))
  }

  ghost predicate Border(open: set<Pt>, mark: map<Pt, nat>, o: Pt, n: nat, cw: nat, ch: nat, c: Pt, numEdge: nat) {
    && SideOK(open, mark, o, n, cw, ch, c, EAST, numEdge) && SideOK(open, mark, o, n, cw, ch, c, WEST, numEdge)
    && SideOK(open, mark, o, n, cw, ch, c, NORTH, numEdge) && SideOK(open, mark, o, n, cw, ch, c, SOUTH, numEdge)
  }

  lemma {:induction false} NoHits(open: set<Pt>, mark: map<Pt, nat>, o: Pt, n: nat, d: Pt, m: nat, src: nat)
    requires open <= mark.Keys && forall k {:trigger Hit(open, o, n, d, k)} :: 0 <= k < m ==> !Hit(open, o, n, d, k)
    ensures Touches(open, mark, o, n, d, m, src) == {}
    decreases m
  {
    if m > 0 {
      NoHits(open, mark, o, n, d, m - 1, src);
    }
  }

  lemma PlusOffGrid(base: seq<set<Rel>>, open: set<Pt>, mark: map<Pt, nat>, o: Pt, n: nat, d: Pt)
    requires open <= mark.Keys && forall k {:trigger Hit(open, o, n, d, k)} :: 0 <= k < n ==> !Hit(open, o, n, d, k)
    ensures Plus(base, open, mark, o, n, d, n) == base && Minus(base, open, mark, o, n, d, n) == base
  {
    forall k | 0 <= k < |base|
      ensures Plus(base, open, mark, o, n, d, n)[k] == base[k] && Minus(base, open, mark, o, n, d, n)[k] == base[k]
    {
      NoHits(open, mark, o, n, d, n, k);
    }
  }

  /** The adjacency-adding step for direction d, with the checks that skip it. */
  method AddConnections(n: nat, cl: Cluster, open: set<Pt>, mark: map<Pt, nat>, o: Pt, cw: nat, ch: nat, c: Pt, d: Pt,
                        ghost base: seq<set<Rel>>)
    returns (cl': Cluster)
    requires SideOK(open, mark, o, n, cw, ch, c, d, cl.numEdge) && Holds(n, cl, base) && Free(base, d) && !cl.rebuild
    ensures SameShape(cl, cl')
    ensures !cl'.rebuild ==> Holds(n, cl', Plus(base, open, mark, o, n, d, n))
    ensures cl'.rebuild ==> TooLong(cl, Plus(base, open, mark, o, n, d, n))
  {
    hide Holds, TooLong;
    if !InGrid(cw, ch, Across(c, d)) {
      PlusOffGrid(base, open, mark, o, n, d);
      return cl;
    }
    cl' := AddSide(n, cl, open, mark, o, d, base);
  }

  /** Sizes of the wanted lists. */
  ghost predicate Sizes(num: seq<nat>, want: seq<set<Rel>>) {
    |num| == |want| && forall k {:trigger num[k]} :: 0 <= k < |num| ==> num[k] == |want[k]|
  }

  /** At most one new pair for every two squares. */
  ghost function Quota(open: set<Pt>, o: Pt, n: nat, d: Pt, k: nat): nat {
    k / 2 + if k % 2 == 1 && Hit(open, o, n, d, k - 1) then 1 else 0
  }

  lemma QuotaStep(open: set<Pt>, mark: map<Pt, nat>, o: Pt, n: nat, d: Pt, k: nat)
    requires open <= mark.Keys && SideRuns(open, mark, o, n, d) && k < n
    ensures Quota(open, o, n, d, k) <= Quota(open, o, n, d, k + 1)
    ensures Hit(open, o, n, d, k) &&
            RelAt(mark, o, n, d, k) !in Touches(open, mark, o, n, d, k, SrcAt(mark, o, n, d, k))
            ==> Quota(open, o, n, d, k) < Quota(open, o, n, d, k + 1)
  {
    if Hit(open, o, n, d, k) && k > 0 && Hit(open, o, n, d, k - 1) {
      TouchesMember(open, mark, o, n, d, k, k - 1);
    }
  }

  /** Counts the pair that meets at square k of side d, unless it was met before. */
  method CountSquare(n: nat, connected: set<(nat, nat)>, open: set<Pt>, mark: map<Pt, nat>, o: Pt, d: Pt, k: nat,
                     num: seq<nat>, total: nat, ghost base: seq<set<Rel>>)
    returns (connected': set<(nat, nat)>, num': seq<nat>, total': nat)
    requires open <= mark.Keys && Free(base, d) && k < n && SideIds(open, mark, o, n, d, |num|) &&
             SideRuns(open, mark, o, n, d)
    requires Seen(connected, open, mark, o, n, d, k) && Sizes(num, Plus(base, open, mark, o, n, d, k)) &&
             total == Sum(num)
    ensures Seen(connected', open, mark, o, n, d, k + 1) && Sizes(num', Plus(base, open, mark, o, n, d, k + 1)) &&
            total' == Sum(num')
    ensures |num'| == |num| && total' - total <= Quota(open, o, n, d, k + 1) - Quota(open, o, n, d, k)
  {
    QuotaStep(open, mark, o, n, d, k);
    hide Free, Sizes, Quota, SideRuns, Plus, Touches;
    connected', num', total' := connected, num, total;
    SeenNext(connected, open, mark, o, n, d, k);
    if Hit(open, o, n, d, k) {
      var src, rel := SrcAt(mark, o, n, d, k), RelAt(mark, o, n, d, k);
      assert src < 2 * n && rel.idx < 2 * n;
      assert (src, rel.idx) in connected <==> rel in Touches(open, mark, o, n, d, k, src);
      hide Seen;
      if (src, rel.idx) !in connected {
        SizesHit(num, base, open, mark, o, n, d, k);
        connected' := connected + {(src, rel.idx)};
        num' := num[src := num[src] + 1];
        total' := total + 1;
      } else {
        PlusMiss(base, open, mark, o, n, d, k);
      }
    } else {
      PlusMiss(base, open, mark, o, n, d, k);
    }
  }

  /** Counts the distinct clump pairs that meet across side d: at most n/2. */
  method CountSide(n: nat, open: set<Pt>, mark: map<Pt, nat>, o: Pt, cw: nat, ch: nat, c: Pt, d: Pt, num0: seq<nat>,
                   total0: nat, ghost base: seq<set<Rel>>)
    returns (num: seq<nat>, total: nat)
    requires SideOK(open, mark, o, n, cw, ch, c, d, |num0|) && Free(base, d) && n % 2 == 0
    requires Sizes(num0, base) && total0 == Sum(num0)
    ensures Sizes(num, Plus(base, open, mark, o, n, d, n)) && total == Sum(num) && |num| == |num0|
    ensures total <= total0 + n / 2
  {
    hide Free, Sizes, SideIds, SideRuns;
    num, total := num0, total0;
    if !InGrid(cw, ch, Across(c, d)) {
      PlusOffGrid(base, open, mark, o, n, d);
      return;
    }
    var connected: set<(nat, nat)> := {};
    PlusNone(base, open, mark, o, n, d);
    assert Seen(connected, open, mark, o, n, d, 0);
    assert Quota(open, o, n, d, 0) == 0 && Quota(open, o, n, d, n) == n / 2;
    hide Seen, Quota;
    for k := 0 to n
      invariant Seen(connected, open, mark, o, n, d, k) && |num| == |num0|
      invariant Sizes(num, Plus(base, open, mark, o, n, d, k)) && total == Sum(num)
      invariant total <= total0 + Quota(open, o, n, d, k)
    {
      connected, num, total := CountSquare(n, connected, open, mark, o, d, k, num, total, base);
    }
  }

  lemma SizesHit(num: seq<nat>, base: seq<set<Rel>>, open: set<Pt>, mark: map<Pt, nat>, o: Pt, n: nat, d: Pt, m: nat)
    requires open <= mark.Keys && Free(base, d) && Sizes(num, Plus(base, open, mark, o, n, d, m))
    requires Hit(open, o, n, d, m) && SrcAt(mark, o, n, d, m) < |num|
    requires RelAt(mark, o, n, d, m) !in Touches(open, mark, o, n, d, m, SrcAt(mark, o, n, d, m))
    ensures var num' := num[SrcAt(mark, o, n, d, m) := num[SrcAt(mark, o, n, d, m)] + 1];
      Sizes(num', Plus(base, open, mark, o, n, d, m + 1)) && Sum(num') == Sum(num) + 1
  {
    hide Free, Sum;
    var src, rel := SrcAt(mark, o, n, d, m), RelAt(mark, o, n, d, m);
    PlusHit(base, open, mark, o, n, d, m);
    FreeMember(base, d, src, rel);
    SumBump(num, src);
    assert rel !in Plus(base, open, mark, o, n, d, m)[src];
    hide Plus, Touches;
  }

  ghost function Nothing(m: nat): seq<set<Rel>> {
    seq(m, _ => {})
  }

  /** Every slice is at least as long as num asks. */
  ghost predicate RoomFor(cl: Cluster, num: seq<nat>) {
    forall k {:trigger cl.clump[k]} :: 0 <= k < |num| && k < |cl.clump| ==> num[k] <= cl.clump[k].maxAdj
  }

  /** No lists yet: every slice is at least as long as num asks and holds nothing. */
  ghost predicate Apportioned(n: nat, cl: Cluster, num: seq<nat>) {
    && Holds(n, cl, Nothing(|num|))
    && RoomFor(cl, num)
  }

  /** The first i slices are cut out of the first total entries of the storage. */
  ghost predicate Cut(n: nat, clump: seq<Clump>, num: seq<nat>, i: nat, total: nat) {
    && i <= |num| <= |clump|
    && (forall k {:trigger clump[k]} :: 0 <= k < i ==>
          clump[k].numAdj == 0 && num[k] <= clump[k].maxAdj <= 2 * n && clump[k].start < 4 * n &&
          clump[k].start + clump[k].maxAdj <= total)
    && (forall j, k {:trigger clump[j], clump[k]} :: 0 <= j < k < i ==>
      clump[j].start + clump[j].maxAdj <= clump[k].start)
  }

  lemma CutNext(n: nat, clump: seq<Clump>, num: seq<nat>, i: nat, total: nat, alloc: nat)
    requires Cut(n, clump, num, i, total) && i < |num| && total < 4 * n && num[i] <= alloc <= 2 * n
    ensures Cut(n, clump[i := Clump(total, 0, alloc)], num, i + 1, total + alloc)
  {
  }

  lemma CutHoldsNothing(n: nat, cl: Cluster, num: seq<nat>, total: nat)
    requires Cut(n, cl.clump, num, |num|, total) && total <= 4 * n && |cl.storage| == 4 * n && |num| == cl.numEdge
    ensures Apportioned(n, cl, num)
  {
    forall k | 0 <= k < cl.numEdge ensures SliceOK(n, cl, k) {
      assert cl.clump[k].numAdj == 0;
    }
    var nothing := Nothing(|num|);
    forall k | 0 <= k < cl.numEdge ensures Lists(n, cl, nothing, k) {
      assert SliceOK(n, cl, k) && cl.clump[k].numAdj == 0 && List(n, cl, k) == [];
    }
  }

  /** Spare entries per slice: four, two or one, whatever fits. */
  function Spare(n: nat, total: nat, numEdge: nat): nat {
    if total + numEdge * 4 <= 4 * n then 4
    else if total + numEdge * 2 <= 4 * n then 2
    else if total + numEdge <= 4 * n then 1
    else 0
  }

  lemma SpareFits(n: nat, total: nat, numEdge: nat)
    requires total <= 2 * n && numEdge <= 2 * n - 2
    ensures 1 <= Spare(n, total, numEdge) && total + Spare(n, total, numEdge) * numEdge <= 4 * n
  {
  }

  /** Cuts the storage into slices; every offset is below 4n and the slices fit the storage. */
  method Apportion(n: nat, cl: Cluster, num: seq<nat>, total0: nat) returns (cl': Cluster)
    requires |cl.storage| == 4 * n && |num| == cl.numEdge <= |cl.clump| && cl.numEdge <= 2 * n - 2
    requires total0 == Sum(num) <= 2 * n
    ensures Apportioned(n, cl', num)
    ensures cl' == cl.(clump := cl'.clump) && |cl'.clump| == |cl.clump|
  {
    hide Apportioned;
    SpareFits(n, total0, cl.numEdge);
    hide Spare;
    var extra := Spare(n, total0, cl.numEdge);
    cl' := cl;
    var total: nat := 0;
    assert Cut(n, cl.clump, num, 0, 0);
    hide Cut;
    for i := 0 to cl.numEdge
      invariant cl' == cl.(clump := cl'.clump) && |cl'.clump| == |cl.clump|
      invariant total <= Sum(num[..i]) + extra * i
      invariant Cut(n, cl'.clump, num, i, total)
    {
      SumTake(num, i);
      SumPrefix(num, i + 1);
      var alloc := num[i] + extra;
      if alloc > 2 * n {
        alloc := 2 * n;
      }
      LinearStep(extra, i, cl.numEdge);
      CutNext(n, cl'.clump, num, i, total, alloc);
      cl' := cl'.(clump := cl'.clump[i := Clump(total, 0, alloc)]);
      total := total + alloc;
    }
    assert num[..cl.numEdge] == num;
    CutHoldsNothing(n, cl', num, total);
  }

  lemma LinearStep(extra: nat, i: nat, m: nat)
    requires i < m
    ensures extra * (i + 1) == extra * i + extra <= extra * m
  {
  }

  ghost function AllNeighbours(open: set<Pt>, mark: map<Pt, nat>, o: Pt, n: nat, numEdge: nat): seq<set<Rel>>
    requires open <= mark.Keys
  {
    seq(numEdge, k requires 0 <= k < numEdge => Neighbours(open, mark, o, n, k))
  }

  lemma FreePlus(base: seq<set<Rel>>, open: set<Pt>, mark: map<Pt, nat>, o: Pt, n: nat, d: Pt, d': Pt)
    requires open <= mark.Keys && Free(base, d') && d != d'
    ensures Free(Plus(base, open, mark, o, n, d, n), d')
  {
    var P := Plus(base, open, mark, o, n, d, n);
    forall k, e: Rel | 0 <= k < |P| && e in P[k] ensures !(e.dx == d'.x && e.dy == d'.y) {
      if e in base[k] {
      } else {
        assert e in Touches(open, mark, o, n, d, n, k);
      }
    }
  }

  /** The lists after the sides ds, in that order, were added to nothing. */
  ghost function Chain(open: set<Pt>, mark: map<Pt, nat>, o: Pt, n: nat, numEdge: nat, ds: seq<Pt>): (r: seq<set<Rel>>)
    requires open <= mark.Keys
    ensures |r| == numEdge
  {
    if ds == [] then Nothing(numEdge)
    else Plus(Chain(open, mark, o, n, numEdge, ds[..|ds| - 1]), open, mark, o, n, ds[|ds| - 1], n)
  }

  lemma ChainNext(open: set<Pt>, mark: map<Pt, nat>, o: Pt, n: nat, numEdge: nat, ds: seq<Pt>, d: Pt)
    requires open <= mark.Keys
    ensures Chain(open, mark, o, n, numEdge, ds + [d]) ==
            Plus(Chain(open, mark, o, n, numEdge, ds), open, mark, o, n, d, n)
  {
    assert (ds + [d])[..|ds|] == ds;
  }

  lemma {:induction false} ChainFree(open: set<Pt>, mark: map<Pt, nat>, o: Pt, n: nat, numEdge: nat, ds: seq<Pt>, d: Pt)
    requires open <= mark.Keys && d !in ds
    ensures Free(Chain(open, mark, o, n, numEdge, ds), d)
    decreases |ds|
  {
    if ds != [] {
      ChainFree(open, mark, o, n, numEdge, ds[..|ds| - 1], d);
      FreePlus(Chain(open, mark, o, n, numEdge, ds[..|ds| - 1]), open, mark, o, n, ds[|ds| - 1], d);
    }
  }

  lemma {:induction false} ChainMember(open: set<Pt>, mark: map<Pt, nat>, o: Pt, n: nat, numEdge: nat, ds: seq<Pt>,
                                       k: nat, e: Rel)
    requires open <= mark.Keys && k < numEdge
    ensures e in Chain(open, mark, o, n, numEdge, ds)[k] <==>
            exists i :: 0 <= i < |ds| && e in Touches(open, mark, o, n, ds[i], n, k)
    decreases |ds|
  {
    if ds != [] {
      ChainMember(open, mark, o, n, numEdge, ds[..|ds| - 1], k, e);
    }
  }

  /** All four sides in any order give every clump its neighbours; fewer sides give it some of them. */
  lemma ChainNeighbours(open: set<Pt>, mark: map<Pt, nat>, o: Pt, n: nat, numEdge: nat, ds: seq<Pt>, k: nat)
    requires open <= mark.Keys && k < numEdge && forall i :: 0 <= i < |ds| ==> IsDir(ds[i])
    ensures Chain(open, mark, o, n, numEdge, ds)[k] <= Neighbours(open, mark, o, n, k)
    ensures EAST in ds && WEST in ds && NORTH in ds && SOUTH in ds
            ==> Chain(open, mark, o, n, numEdge, ds)[k] == Neighbours(open, mark, o, n, k)
  {
    hide Touches;
    forall e: Rel ensures e in Chain(open, mark, o, n, numEdge, ds)[k] ==> e in Neighbours(open, mark, o, n, k) {
      ChainMember(open, mark, o, n, numEdge, ds, k, e);
    }
    if EAST in ds && WEST in ds && NORTH in ds && SOUTH in ds {
      forall e | e in Neighbours(open, mark, o, n, k) ensures e in Chain(open, mark, o, n, numEdge, ds)[k] {
        ChainMember(open, mark, o, n, numEdge, ds, k, e);
      }
    }
  }

  const COUNT_ORDER := [EAST, WEST, NORTH, SOUTH]
  const ADD_ORDER := [WEST, EAST, NORTH, SOUTH]

  lemma BorderSide(open: set<Pt>, mark: map<Pt, nat>, o: Pt, n: nat, cw: nat, ch: nat, c: Pt, numEdge: nat, d: Pt)
    requires Border(open, mark, o, n, cw, ch, c, numEdge) && IsDir(d)
    ensures SideOK(open, mark, o, n, cw, ch, c, d, numEdge)
  {
  }

  /** Before direction m of an order of the four directions: what the sides so far leave to do. */
  lemma ChainStep(open: set<Pt>, mark: map<Pt, nat>, o: Pt, n: nat, numEdge: nat, ds: seq<Pt>, m: nat)
    requires open <= mark.Keys && m < |ds| && Distinct(ds)
    ensures Free(Chain(open, mark, o, n, numEdge, ds[..m]), ds[m])
    ensures Chain(open, mark, o, n, numEdge, ds[..m + 1]) ==
            Plus(Chain(open, mark, o, n, numEdge, ds[..m]), open, mark, o, n, ds[m], n)
  {
    assert ds[m] !in ds[..m];
    ChainFree(open, mark, o, n, numEdge, ds[..m], ds[m]);
    ChainNext(open, mark, o, n, numEdge, ds[..m], ds[m]);
    assert ds[..m + 1] == ds[..m] + [ds[m]];
  }

  /** Counts how many clumps every edge clump touches; over all four sides together these are at most 2n. */
  method CountConnections(n: nat, open: set<Pt>, mark: map<Pt, nat>, o: Pt, cw: nat, ch: nat, c: Pt, numEdge: nat)
    returns (num: seq<nat>, total: nat)
    requires Border(open, mark, o, n, cw, ch, c, numEdge) && n % 2 == 0
    ensures Sizes(num, Chain(open, mark, o, n, numEdge, COUNT_ORDER)) && total == Sum(num) <= 2 * n
  {
    hide Border, SideIds, SideRuns, Chain, Touches, Free, Sizes, Plus, Sum, Distinct;
    num, total := seq(numEdge, _ => 0), 0;
    OrderStart(open, mark, o, n, cw, ch, c, numEdge, num, COUNT_ORDER);
    for m := 0 to 4
      invariant |num| == numEdge && Sizes(num, Chain(open, mark, o, n, numEdge, COUNT_ORDER[..m]))
      invariant total == Sum(num) <= m * (n / 2)
    {
      var d := COUNT_ORDER[m];
      ChainStep(open, mark, o, n, numEdge, COUNT_ORDER, m);
      BorderSide(open, mark, o, n, cw, ch, c, numEdge, d);
      num, total := CountSide(n, open, mark, o, cw, ch, c, d, num, total,
          Chain(open, mark, o, n, numEdge, COUNT_ORDER[..m]));
      LinearStep(n / 2, m, 4);
    }
  }

  lemma OrderStart(open: set<Pt>, mark: map<Pt, nat>, o: Pt, n: nat, cw: nat, ch: nat, c: Pt, numEdge: nat,
                   num: seq<nat>, ds: seq<Pt>)
    requires Border(open, mark, o, n, cw, ch, c, numEdge) && |num| == numEdge && forall k :: 0 <= k < numEdge ==>
               num[k] == 0
    requires ds == COUNT_ORDER || ds == ADD_ORDER
    ensures open <= mark.Keys && Distinct(ds) && ds[..4] == ds
    ensures Chain(open, mark, o, n, numEdge, ds[..0]) == Nothing(numEdge)
    ensures Sizes(num, Nothing(numEdge)) && Sum(num) == 0
  {
    SumZeros(num);
    assert ds[..0] == [];
    assert ds[..4] == ds;
  }

  /** Slices that are long enough for the full lists are long enough for every intermediate one. */
  lemma NeverTooLong(n: nat, cl: Cluster, num: seq<nat>, open: set<Pt>, mark: map<Pt, nat>, o: Pt, numEdge: nat,
                     ds: seq<Pt>)
    requires open <= mark.Keys && Sizes(num, Chain(open, mark, o, n, numEdge, COUNT_ORDER))
    requires RoomFor(cl, num)
    requires forall i :: 0 <= i < |ds| ==> IsDir(ds[i])
    ensures !TooLong(cl, Chain(open, mark, o, n, numEdge, ds))
  {
    forall k | 0 <= k < numEdge && k < |cl.clump|
      ensures |Chain(open, mark, o, n, numEdge, ds)[k]| <= cl.clump[k].maxAdj
    {
      ChainNeighbours(open, mark, o, n, numEdge, COUNT_ORDER, k);
      ChainNeighbours(open, mark, o, n, numEdge, ds, k);
      SubsetCount(Chain(open, mark, o, n, numEdge, ds)[k], Chain(open, mark, o, n, numEdge, COUNT_ORDER)[k]);
      assert num[k] == |Chain(open, mark, o, n, numEdge, COUNT_ORDER)[k]|;
    }
  }

  lemma RoomForShape(a: Cluster, b: Cluster, num: seq<nat>)
    requires SameShape(a, b) && RoomFor(a, num)
    ensures RoomFor(b, num)
  {
  }

  /** Adds all four sides to slices that were cut to size; none of them overflows. */
  method AddAllSides(n: nat, cl: Cluster, open: set<Pt>, mark: map<Pt, nat>, o: Pt, cw: nat, ch: nat, c: Pt,
                     ghost num: seq<nat>)
    returns (cl': Cluster)
    requires Border(open, mark, o, n, cw, ch, c, cl.numEdge) && Apportioned(n, cl, num) && !cl.rebuild
    requires Sizes(num, Chain(open, mark, o, n, cl.numEdge, COUNT_ORDER))
    ensures !cl'.rebuild && SameShape(cl, cl') && Holds(n, cl', Chain(open, mark, o, n, cl.numEdge, ADD_ORDER))
  {
    assert |num| == cl.numEdge;
    hide Border, SideIds, SideRuns, Chain, Touches, Free, Sizes, Plus, Holds, TooLong, Distinct, Sum, RoomFor;
    OrderStart(open, mark, o, n, cw, ch, c, cl.numEdge, seq(cl.numEdge, _ => 0), ADD_ORDER);
    cl' := cl;
    for m := 0 to 4
      invariant SameShape(cl, cl') && !cl'.rebuild
      invariant Holds(n, cl', Chain(open, mark, o, n, cl.numEdge, ADD_ORDER[..m]))
    {
      var d := ADD_ORDER[m];
      ChainStep(open, mark, o, n, cl.numEdge, ADD_ORDER, m);
      BorderSide(open, mark, o, n, cw, ch, c, cl.numEdge, d);
      RoomForShape(cl, cl', num);
      NeverTooLong(n, cl', num, open, mark, o, cl.numEdge, ADD_ORDER[..m + 1]);
      cl' := AddConnections(n, cl', open, mark, o, cw, ch, c, d, Chain(open, mark, o, n, cl.numEdge, ADD_ORDER[..m]));
    }
  }

  lemma ChainAll(open: set<Pt>, mark: map<Pt, nat>, o: Pt, n: nat, numEdge: nat)
    requires open <= mark.Keys
    ensures Chain(open, mark, o, n, numEdge, ADD_ORDER) == AllNeighbours(open, mark, o, n, numEdge)
  {
    hide Neighbours;
    forall k | 0 <= k < numEdge
      ensures Chain(open, mark, o, n, numEdge, ADD_ORDER)[k] == AllNeighbours(open, mark, o, n, numEdge)[k]
    {
      ChainNeighbours(open, mark, o, n, numEdge, ADD_ORDER, k);
    }
  }

  /** Rebuilds all lists of a cluster from the map; the rebuild flag is always clear afterwards. */
  method BuildAllConnections(n: nat, cl: Cluster, open: set<Pt>, mark: map<Pt, nat>, o: Pt, cw: nat, ch: nat, c: Pt)
    returns (cl': Cluster)
    requires Border(open, mark, o, n, cw, ch, c, cl.numEdge) && n % 2 == 0
    requires |cl.storage| == 4 * n && cl.numEdge <= |cl.clump| && cl.numEdge <= 2 * n - 2
    ensures !cl'.rebuild && Holds(n, cl', AllNeighbours(open, mark, o, n, cl.numEdge))
    ensures cl'.numEdge == cl.numEdge && cl'.numClumps == cl.numClumps && |cl'.clump| == |cl.clump| &&
            |cl'.storage| == 4 * n
  {
    assert open <= mark.Keys;
    hide Border, Chain, Sizes, Holds, RoomFor, AllNeighbours, Apportioned;
    var num, total := CountConnections(n, open, mark, o, cw, ch, c, cl.numEdge);
    assert |num| == cl.numEdge by { SizesLength(num, Chain(open, mark, o, n, cl.numEdge, COUNT_ORDER)); }
    cl' := Apportion(n, cl.(rebuild := false), num, total);
    cl' := AddAllSides(n, cl', open, mark, o, cw, ch, c, num);
    ChainAll(open, mark, o, n, cl.numEdge);
  }

  lemma SizesLength(num: seq<nat>, want: seq<set<Rel>>)
    requires Sizes(num, want)
    ensures |num| == |want|
  {
  }
}
