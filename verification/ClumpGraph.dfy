/**
  From clusters to the whole grid: clumps of neighbouring clusters are united
  along their adjacency lists, so that equal labels mean reachable squares.
 */
module ClumpGraph {
  import opened Arith
  import opened GridPaths
  import opened ClusterClumps
  import opened ClumpAdjacency
  import opened DisjointSets
  import Counting

  /** Clump k of cluster c. */
  datatype ClumpId = ClumpId(c: Pt, k: nat)

  type Clusters = map<Pt, Cluster>

  function Origin(n: nat, c: Pt): Pt { Pt(c.x * n, c.y * n) }

  function ClusterOf(n: nat, p: Pt): Pt
    requires n > 0
  {
    Pt(p.x / n, p.y / n)
  }

  /** The id that marks a closed square. */
  function None(n: nat): nat { n * (n / 2) }

  lemma DivBox(n: nat, x: int, c: int)
    requires n > 0
    ensures x / n == c <==> c * n <= x < c * n + n
  {
    assert x == (x / n) * n + x % n;
    if x / n < c {
      MulGap(x / n, c, n);
    } else if x / n > c {
      MulGap(c, x / n, n);
    }
  }

  lemma BoxOf(n: nat, c: Pt, p: Pt)
    requires n > 0
    ensures InBox(Origin(n, c), n, p) <==> ClusterOf(n, p) == c
  {
    DivBox(n, p.x, c.x);
    DivBox(n, p.y, c.y);
  }

  // ---------------------------------------------------------------- what every cluster has to say

  ghost predicate ClusterLabels(n: nat, open: set<Pt>, mark: map<Pt, nat>, cl: Cluster, c: Pt) {
    && |cl.storage| == 4 * n && |cl.clump| == None(n)
    && cl.numEdge <= 2 * n - 2 && cl.numClumps <= None(n)
    && Labelled(open, Origin(n, c), n, None(n), mark, cl.numEdge, cl.numClumps)
  }

  /** Every cluster is labelled correctly for the current map. */
  ghost predicate LabelsOK(n: nat, cw: nat, ch: nat, open: set<Pt>, mark: map<Pt, nat>, cluster: Clusters) {
    && n >= 2 && n % 2 == 0 && open <= mark.Keys
    && (forall p {:trigger p in open} :: p in open ==> InGrid(cw, ch, ClusterOf(n, p)))
    && (forall c {:trigger c in cluster} {:trigger InGrid(cw, ch, c)} :: InGrid(cw, ch, c) ==>
      c in cluster && ClusterLabels(n, open, mark, cluster[c], c))
  }

  /** The lists of cluster c hold, without duplicates, exactly the clumps its edge clumps touch. */
  ghost predicate ListsOK(n: nat, open: set<Pt>, mark: map<Pt, nat>, cl: Cluster, c: Pt)
    requires open <= mark.Keys
  {
    !cl.rebuild && Holds(n, cl, AllNeighbours(open, mark, Origin(n, c), n, cl.numEdge))
  }

  ghost predicate AdjacencyOK(n: nat, cw: nat, ch: nat, open: set<Pt>, mark: map<Pt, nat>, cluster: Clusters)
    requires open <= mark.Keys
  {
    forall c {:trigger c in cluster} :: InGrid(cw, ch, c) && c in cluster ==> ListsOK(n, open, mark, cluster[c], c)
  }

  /** The next box in direction d starts n squares further on. */
  lemma OriginAcross(n: nat, c: Pt, d: Pt)
    requires IsDir(d)
    ensures Origin(n, Across(c, d)) == Pt(Origin(n, c).x + (if d.x == 0 then 0 else if d.x == 1 then n else 0 - n),
                                          Origin(n, c).y + (if d.y == 0 then 0 else if d.y == 1 then n else 0 - n))
  {
    assert (c.x + 1) * n == c.x * n + n && (c.x - 1) * n == c.x * n - n;
    assert (c.y + 1) * n == c.y * n + n && (c.y - 1) * n == c.y * n - n;
  }

  /** Square k of a side lies on the edge of its box, and the square beyond on the edge of the next box. */
  lemma SideGeometry(n: nat, c: Pt, d: Pt, k: int)
    requires n >= 2 && IsDir(d) && 0 <= k < n
    ensures OnEdge(Origin(n, c), n, SideCell(Origin(n, c), n, d, k))
    ensures OnEdge(Origin(n, Across(c, d)), n, Across(SideCell(Origin(n, c), n, d, k), d))
  {
    OriginAcross(n, c, d);
    hide Origin;
  }

  lemma SameClump(n: nat, open: set<Pt>, mark: map<Pt, nat>, cl: Cluster, c: Pt, p: Pt, q: Pt)
    requires n >= 2 && open <= mark.Keys && ClusterLabels(n, open, mark, cl, c)
    requires p in open && q in open && Adjacent(p, q) && InBox(Origin(n, c), n, p) && InBox(Origin(n, c), n, q)
    ensures mark[p] == mark[q]
  {
    hide Joined;
    JoinedEdge(Room(open, Origin(n, c), n), p, q);
  }

  /** Two squares that are open across a border carry edge ids of their two clusters. */
  lemma HitMarks(n: nat, cw: nat, ch: nat, open: set<Pt>, mark: map<Pt, nat>, cluster: Clusters, c: Pt, d: Pt, k: int)
    requires LabelsOK(n, cw, ch, open, mark, cluster) && InGrid(cw, ch, c) && IsDir(d)
    requires 0 <= k < n && Hit(open, Origin(n, c), n, d, k)
    ensures InGrid(cw, ch, Across(c, d)) && c in cluster && Across(c, d) in cluster
    ensures ClusterLabels(n, open, mark, cluster[c], c) &&
            ClusterLabels(n, open, mark, cluster[Across(c, d)], Across(c, d))
    ensures SrcAt(mark, Origin(n, c), n, d, k) < cluster[c].numEdge <= 2 * n - 2
    ensures RelAt(mark, Origin(n, c), n, d, k).idx < cluster[Across(c, d)].numEdge <= 2 * n - 2
  {
    hide Origin, Labelled;
    var o, c' := Origin(n, c), Across(c, d);
    var p := SideCell(o, n, d, k);
    var q := Across(p, d);
    SideGeometry(n, c, d, k);
    BoxOf(n, c', q);
    assert q in open && InGrid(cw, ch, c');
    EdgeMark(n, open, mark, cluster[c'], c', q);
    EdgeMark(n, open, mark, cluster[c], c, p);
  }

  lemma HitRuns(n: nat, cw: nat, ch: nat, open: set<Pt>, mark: map<Pt, nat>, cluster: Clusters, c: Pt, d: Pt, k: int)
    requires LabelsOK(n, cw, ch, open, mark, cluster) && InGrid(cw, ch, c) && IsDir(d)
    requires 0 < k < n && Hit(open, Origin(n, c), n, d, k) && Hit(open, Origin(n, c), n, d, k - 1)
    ensures SrcAt(mark, Origin(n, c), n, d, k) == SrcAt(mark, Origin(n, c), n, d, k - 1)
    ensures RelAt(mark, Origin(n, c), n, d, k) == RelAt(mark, Origin(n, c), n, d, k - 1)
  {
    HitMarks(n, cw, ch, open, mark, cluster, c, d, k);
    hide Origin, ClusterLabels;
    var o, c' := Origin(n, c), Across(c, d);
    SideGeometry(n, c, d, k);
    SideGeometry(n, c, d, k - 1);
    SameClump(n, open, mark, cluster[c], c, SideCell(o, n, d, k), SideCell(o, n, d, k - 1));
    SameClump(n, open, mark, cluster[c'], c', Across(SideCell(o, n, d, k), d), Across(SideCell(o, n, d, k - 1), d));
  }

  /** Labels alone give every cluster border what the adjacency code relies on. */
  lemma LabelsGiveSide(n: nat, cw: nat, ch: nat, open: set<Pt>, mark: map<Pt, nat>, cluster: Clusters, c: Pt, d: Pt)
    requires LabelsOK(n, cw, ch, open, mark, cluster) && InGrid(cw, ch, c) && IsDir(d)
    ensures SideOK(open, mark, Origin(n, c), n, cw, ch, c, d, cluster[c].numEdge)
  {
    hide Origin, Labelled;
    var o := Origin(n, c);
    assert ClusterLabels(n, open, mark, cluster[c], c);
    forall k | 0 <= k < n && Hit(open, o, n, d, k)
      ensures InGrid(cw, ch, Across(c, d))
      ensures SrcAt(mark, o, n, d, k) < cluster[c].numEdge && RelAt(mark, o, n, d, k).idx < 2 * n
    {
      HitMarks(n, cw, ch, open, mark, cluster, c, d, k);
    }
    forall k | 0 < k < n && Hit(open, o, n, d, k) && Hit(open, o, n, d, k - 1)
      ensures SrcAt(mark, o, n, d, k) == SrcAt(mark, o, n, d, k - 1) &&
              RelAt(mark, o, n, d, k) == RelAt(mark, o, n, d, k - 1)
    {
      HitRuns(n, cw, ch, open, mark, cluster, c, d, k);
    }
  }

  lemma EdgeMark(n: nat, open: set<Pt>, mark: map<Pt, nat>, cl: Cluster, c: Pt, p: Pt)
    requires open <= mark.Keys && ClusterLabels(n, open, mark, cl, c) && p in open && OnEdge(Origin(n, c), n, p)
    ensures mark[p] < cl.numEdge
  {
  }

  lemma LabelsGiveBorder(n: nat, cw: nat, ch: nat, open: set<Pt>, mark: map<Pt, nat>, cluster: Clusters, c: Pt)
    requires LabelsOK(n, cw, ch, open, mark, cluster) && InGrid(cw, ch, c)
    ensures Border(open, mark, Origin(n, c), n, cw, ch, c, cluster[c].numEdge)
  {
    hide SideOK, LabelsOK;
    LabelsGiveSide(n, cw, ch, open, mark, cluster, c, EAST);
    LabelsGiveSide(n, cw, ch, open, mark, cluster, c, WEST);
    LabelsGiveSide(n, cw, ch, open, mark, cluster, c, NORTH);
    LabelsGiveSide(n, cw, ch, open, mark, cluster, c, SOUTH);
  }

  // ---------------------------------------------------------------- the graph of clumps

  function IdOf(n: nat, mark: map<Pt, nat>, p: Pt): ClumpId
    requires n > 0 && p in mark
  {
    ClumpId(ClusterOf(n, p), mark[p])
  }

  predicate EdgeId(cw: nat, ch: nat, cluster: Clusters, g: ClumpId) {
    InGrid(cw, ch, g.c) && g.c in cluster && g.k < cluster[g.c].numEdge
  }

  /** The clump that entry e in a list of cluster c stands for. */
  function Target(c: Pt, e: Rel): ClumpId { ClumpId(Pt(c.x + e.dx, c.y + e.dy), e.idx) }

  /** The grid as the global pass finds it. */
  ghost predicate LocalOK(n: nat, cw: nat, ch: nat, open: set<Pt>, mark: map<Pt, nat>, cluster: Clusters) {
    LabelsOK(n, cw, ch, open, mark, cluster) && AdjacencyOK(n, cw, ch, open, mark, cluster)
  }

  lemma IdOfSide(n: nat, mark: map<Pt, nat>, c: Pt, d: Pt, k: int)
    requires n >= 2 && IsDir(d) && 0 <= k < n
    requires SideCell(Origin(n, c), n, d, k) in mark && Across(SideCell(Origin(n, c), n, d, k), d) in mark
    ensures IdOf(n, mark, SideCell(Origin(n, c), n, d, k)) == ClumpId(c, SrcAt(mark, Origin(n, c), n, d, k))
    ensures IdOf(n, mark, Across(SideCell(Origin(n, c), n, d, k), d)) == Target(c, RelAt(mark, Origin(n, c), n, d, k))
    ensures Adjacent(SideCell(Origin(n, c), n, d, k), Across(SideCell(Origin(n, c), n, d, k), d))
  {
    SideGeometry(n, c, d, k);
    BoxOf(n, c, SideCell(Origin(n, c), n, d, k));
    BoxOf(n, Across(c, d), Across(SideCell(Origin(n, c), n, d, k), d));
    hide Origin;
  }

  /** Every list entry is backed by two open squares that touch across the border. */
  lemma EntryMeaning(n: nat, cw: nat, ch: nat, open: set<Pt>, mark: map<Pt, nat>, cluster: Clusters, c: Pt, k: nat,
                     e: Rel)
    returns (p: Pt, q: Pt)
    requires LocalOK(n, cw, ch, open, mark, cluster) && EdgeId(cw, ch, cluster, ClumpId(c, k))
    requires e in Neighbours(open, mark, Origin(n, c), n, k)
    ensures p in open && q in open && Adjacent(p, q)
    ensures IdOf(n, mark, p) == ClumpId(c, k) && IdOf(n, mark, q) == Target(c, e) &&
            EdgeId(cw, ch, cluster, Target(c, e))
  {
    hide LocalOK, Touches, Origin, IdOf, Target;
    var o := Origin(n, c);
    assert open <= mark.Keys by { LocalMarks(n, cw, ch, open, mark, cluster); }
    if e in Touches(open, mark, o, n, EAST, n, k) {
      p, q := SideMeaning(n, cw, ch, open, mark, cluster, c, k, e, EAST);
    } else if e in Touches(open, mark, o, n, WEST, n, k) {
      p, q := SideMeaning(n, cw, ch, open, mark, cluster, c, k, e, WEST);
    } else if e in Touches(open, mark, o, n, NORTH, n, k) {
      p, q := SideMeaning(n, cw, ch, open, mark, cluster, c, k, e, NORTH);
    } else {
      p, q := SideMeaning(n, cw, ch, open, mark, cluster, c, k, e, SOUTH);
    }
  }

  lemma LocalMarks(n: nat, cw: nat, ch: nat, open: set<Pt>, mark: map<Pt, nat>, cluster: Clusters)
    requires LocalOK(n, cw, ch, open, mark, cluster)
    ensures LabelsOK(n, cw, ch, open, mark, cluster) && open <= mark.Keys && n >= 2
  {
  }

  /** An entry found on one side of the cluster. */
  lemma SideMeaning(n: nat, cw: nat, ch: nat, open: set<Pt>, mark: map<Pt, nat>, cluster: Clusters, c: Pt, k: nat,
                    e: Rel, d: Pt)
    returns (p: Pt, q: Pt)
    requires LocalOK(n, cw, ch, open, mark, cluster) && EdgeId(cw, ch, cluster, ClumpId(c, k)) && IsDir(d)
    requires e in Touches(open, mark, Origin(n, c), n, d, n, k)
    ensures p in open && q in open && Adjacent(p, q)
    ensures IdOf(n, mark, p) == ClumpId(c, k) && IdOf(n, mark, q) == Target(c, e) &&
            EdgeId(cw, ch, cluster, Target(c, e))
  {
    hide LocalOK, LabelsOK, Origin, Touches, ClusterLabels, IdOf, SideCell, IsDir, InGrid, Adjacent;
    LocalMarks(n, cw, ch, open, mark, cluster);
    var o := Origin(n, c);
    var m := TouchesWitness(open, mark, o, n, d, n, k, e);
    HitMarks(n, cw, ch, open, mark, cluster, c, d, m);
    IdOfSide(n, mark, c, d, m);
    p := SideCell(o, n, d, m);
    q := Across(p, d);
  }

  /** Two open squares that touch across a border have an entry for each other. */
  lemma BorderEntry(n: nat, cw: nat, ch: nat, open: set<Pt>, mark: map<Pt, nat>, cluster: Clusters, p: Pt, q: Pt)
    returns (e: Rel)
    requires LabelsOK(n, cw, ch, open, mark, cluster) && p in open && q in open && Adjacent(p, q) &&
             ClusterOf(n, p) != ClusterOf(n, q)
    ensures EdgeId(cw, ch, cluster, IdOf(n, mark, p)) && EdgeId(cw, ch, cluster, IdOf(n, mark, q))
    ensures e in Neighbours(open, mark, Origin(n, ClusterOf(n, p)), n, mark[p]) &&
            IdOf(n, mark, q) == Target(ClusterOf(n, p), e)
  {
    hide Origin, Touches, ClusterLabels, SideCell;
    var c := ClusterOf(n, p);
    var d, k := BorderSquare(n, p, q);
    HitMarks(n, cw, ch, open, mark, cluster, c, d, k);
    IdOfSide(n, mark, c, d, k);
    TouchesMember(open, mark, Origin(n, c), n, d, n, k);
    e := RelAt(mark, Origin(n, c), n, d, k);
  }

  lemma BorderSquare(n: nat, p: Pt, q: Pt) returns (d: Pt, k: int)
    requires n >= 2 && Adjacent(p, q) && ClusterOf(n, p) != ClusterOf(n, q)
    ensures IsDir(d) && 0 <= k < n && p == SideCell(Origin(n, ClusterOf(n, p)), n, d, k) && q == Across(p, d)
  {
    var o := Origin(n, ClusterOf(n, p));
    BoxOf(n, ClusterOf(n, p), p);
    BoxOf(n, ClusterOf(n, p), q);
    hide Origin;
    d := Pt(q.x - p.x, q.y - p.y);
    k := if d.x != 0 then p.y - o.y else p.x - o.x;
  }

  // ---------------------------------------------------------------- soundness and completeness of labels

  /** Squares whose clumps share a root are reachable from each other. */
  ghost predicate Sound(n: nat, open: set<Pt>, mark: map<Pt, nat>, rep: map<ClumpId, ClumpId>) {
    n > 0 && open <= mark.Keys &&
    forall p, q {:trigger IdOf(n, mark, p), IdOf(n, mark, q)} ::
      p in open && q in open && IdOf(n, mark, p) in rep && IdOf(n, mark, q) in rep &&
      rep[IdOf(n, mark, p)] == rep[IdOf(n, mark, q)]
      ==> Joined(open, p, q)
  }

  lemma SameIdJoined(n: nat, cw: nat, ch: nat, open: set<Pt>, mark: map<Pt, nat>, cluster: Clusters, p: Pt, q: Pt)
    requires LabelsOK(n, cw, ch, open, mark, cluster) && p in open && q in open && IdOf(n, mark, p) == IdOf(n, mark, q)
    ensures Joined(open, p, q)
  {
    hide Joined;
    var c := ClusterOf(n, p);
    BoxOf(n, c, p);
    BoxOf(n, c, q);
    assert InGrid(cw, ch, c) && ClusterLabels(n, open, mark, cluster[c], c);
    hide Origin;
    assert p in Room(open, Origin(n, c), n) && q in Room(open, Origin(n, c), n);
    assert Joined(Room(open, Origin(n, c), n), p, q);
    JoinedMono(Room(open, Origin(n, c), n), open, p, q);
  }

  lemma SoundStart(n: nat, cw: nat, ch: nat, open: set<Pt>, mark: map<Pt, nat>, cluster: Clusters,
                   rep: map<ClumpId, ClumpId>)
    requires LabelsOK(n, cw, ch, open, mark, cluster) && forall g :: g in rep ==> rep[g] == g
    ensures Sound(n, open, mark, rep)
  {
    hide Joined;
    forall p, q | p in open && q in open && IdOf(n, mark, p) in rep && IdOf(n, mark, q) in rep &&
      rep[IdOf(n, mark, p)] == rep[IdOf(n, mark, q)]
      ensures Joined(open, p, q)
    {
      SameIdJoined(n, cw, ch, open, mark, cluster, p, q);
    }
  }

  lemma SoundStep(n: nat, open: set<Pt>, mark: map<Pt, nat>, rep: map<ClumpId, ClumpId>, p: Pt, q: Pt)
    requires Sound(n, open, mark, rep) && p in open && q in open && Adjacent(p, q)
    requires IdOf(n, mark, p) in rep && IdOf(n, mark, q) in rep
    ensures Sound(n, open, mark, Moved(rep, rep[IdOf(n, mark, p)], rep[IdOf(n, mark, q)]))
  {
    hide Joined, Adjacent, IdOf;
    var a, b := IdOf(n, mark, p), IdOf(n, mark, q);
    var rep' := Moved(rep, rep[a], rep[b]);
    forall x, y | x in open && y in open && IdOf(n, mark, x) in rep' && IdOf(n, mark, y) in rep'
                  && rep'[IdOf(n, mark, x)] == rep'[IdOf(n, mark, y)]
      ensures Joined(open, x, y)
    {
      var gx, gy := IdOf(n, mark, x), IdOf(n, mark, y);
      if rep[gx] == rep[gy] {
      } else if rep[gx] == rep[a] {
        JoinedRefl(open, p);
        JoinedAcross(open, x, p, p, q, y);
      } else {
        JoinedRefl(open, p);
        JoinedAcross(open, y, p, p, q, x);
        JoinedSym(open, y, x);
      }
    }
  }

  /** The pairs of clumps united so far share roots. */
  ghost predicate Agree(E: set<(ClumpId, ClumpId)>, rep: map<ClumpId, ClumpId>) {
    forall a, b {:trigger (a, b) in E} :: (a, b) in E ==> a in rep && b in rep && rep[a] == rep[b]
  }

  /** Entry i in the list of clump k of cluster c has been united with that clump. */
  ghost predicate EntryIn(E: set<(ClumpId, ClumpId)>, cl: Cluster, c: Pt, k: nat, i: int) {
    && k < |cl.clump| && 0 <= cl.clump[k].start + i < |cl.storage|
    && (ClumpId(c, k), Target(c, cl.storage[cl.clump[k].start + i])) in E
  }

  /** The first h entries of the list of clump k of cluster c have been united with that clump. */
  ghost predicate Covered(E: set<(ClumpId, ClumpId)>, cl: Cluster, c: Pt, k: nat, h: int) {
    forall i {:trigger EntryIn(E, cl, c, k, i)} :: 0 <= i < h ==> EntryIn(E, cl, c, k, i)
  }

  /** All lists of the first m edge clumps of cluster c are covered. */
  ghost predicate ClusterCovered(E: set<(ClumpId, ClumpId)>, cl: Cluster, c: Pt, m: nat) {
    forall k: nat {:trigger cl.clump[k]} :: k < m && k < |cl.clump| ==> Covered(E, cl, c, k, cl.clump[k].numAdj)
  }

  ghost predicate Earlier(i: int, j: int, c: Pt) {
    c.y < j || (c.y == j && c.x < i)
  }

  ghost predicate GridCovered(E: set<(ClumpId, ClumpId)>, cw: nat, ch: nat, cluster: Clusters, i: int, j: int) {
    forall c {:trigger c in cluster} :: InGrid(cw, ch, c) && Earlier(i, j, c) && c in cluster ==>
      ClusterCovered(E, cluster[c], c, cluster[c].numEdge)
  }

  /** State of the uniting pass: roots are sound and the pairs in E have been united. */
  ghost predicate Uniting(n: nat, cw: nat, ch: nat, open: set<Pt>, mark: map<Pt, nat>, cluster: Clusters,
                          f: Forest<ClumpId>, E: set<(ClumpId, ClumpId)>)
    reads f
  {
    && f.Valid() && f.rep.Keys == f.dom && (forall g {:trigger g in f.dom} :: g in f.dom <==>
      EdgeId(cw, ch, cluster, g))
    && Sound(n, open, mark, f.rep) && Agree(E, f.rep)
  }

  ghost predicate OutsideKept(f: Forest<ClumpId>, was: map<ClumpId, ClumpId>)
    reads f
  {
    f.parent.Keys == was.Keys && forall g {:trigger f.parent[g]} :: g in was && g !in f.dom ==> f.parent[g] == was[g]
  }

  lemma ListEntry(n: nat, open: set<Pt>, mark: map<Pt, nat>, cl: Cluster, c: Pt, k: nat, h: nat)
    requires open <= mark.Keys && ListsOK(n, open, mark, cl, c) && k < cl.numEdge
    ensures k < |cl.clump|
    ensures h < cl.clump[k].numAdj ==> cl.clump[k].start + h < |cl.storage|
    ensures h < cl.clump[k].numAdj ==> cl.storage[cl.clump[k].start + h] in Neighbours(open, mark, Origin(n, c), n, k)
  {
    hide Neighbours;
    var want := AllNeighbours(open, mark, Origin(n, c), n, cl.numEdge);
    assert Lists(n, cl, want, k);
    if h < cl.clump[k].numAdj {
      assert List(n, cl, k)[h] in Counting.Elems(List(n, cl, k));
    }
  }

  lemma EntrySquares(n: nat, cw: nat, ch: nat, open: set<Pt>, mark: map<Pt, nat>, cluster: Clusters, c: Pt, k: nat,
                     h: nat)
    returns (p: Pt, q: Pt)
    requires LocalOK(n, cw, ch, open, mark, cluster) && EdgeId(cw, ch, cluster, ClumpId(c, k))
    requires k < |cluster[c].clump| && h < cluster[c].clump[k].numAdj
    ensures n > 0 && open <= mark.Keys && p in open && q in open && Adjacent(p, q)
    ensures cluster[c].clump[k].start + h < |cluster[c].storage|
    ensures var e := cluster[c].storage[cluster[c].clump[k].start + h];
      IdOf(n, mark, p) == ClumpId(c, k) && IdOf(n, mark, q) == Target(c, e) && EdgeId(cw, ch, cluster, Target(c, e))
  {
    assert ListsOK(n, open, mark, cluster[c], c);
    ListEntry(n, open, mark, cluster[c], c, k, h);
    hide ListsOK, Neighbours, ClusterLabels, AdjacencyOK;
    p, q := EntryMeaning(n, cw, ch, open, mark, cluster, c, k, cluster[c].storage[cluster[c].clump[k].start + h]);
  }

  lemma AgreeAfterUnion(E: set<(ClumpId, ClumpId)>, rep: map<ClumpId, ClumpId>, a: ClumpId, b: ClumpId)
    requires Agree(E, rep) && a in rep && b in rep
    ensures Agree(E + {(a, b)}, Moved(rep, rep[a], rep[b]))
  {
  }

  /** Unites the clumps a and b, which hold the touching squares p and q. */
  method UnitePair(n: nat, cw: nat, ch: nat, open: set<Pt>, mark: map<Pt, nat>, cluster: Clusters, f: Forest<ClumpId>,
                   a: ClumpId, b: ClumpId, ghost p: Pt, ghost q: Pt, ghost E: set<(ClumpId, ClumpId)>)
    requires Uniting(n, cw, ch, open, mark, cluster, f, E) && open <= mark.Keys && n > 0
    requires p in open && q in open && Adjacent(p, q) && IdOf(n, mark, p) == a && IdOf(n, mark, q) == b
    requires EdgeId(cw, ch, cluster, a) && EdgeId(cw, ch, cluster, b)
    modifies f
    ensures Uniting(n, cw, ch, open, mark, cluster, f, E + {(a, b)})
    ensures f.dom == old(f.dom) && OutsideKept(f, old(f.parent))
  {
    hide NodeOK, Sound, Agree, Adjacent;
    assert a in f.dom && b in f.dom;
    SoundStep(n, open, mark, f.rep, p, q);
    AgreeAfterUnion(E, f.rep, a, b);
    f.UnionLabels(a, b);
  }

  /** Unites clump k of cluster c with the clump that entry h of its list stands for. */
  method UniteEntry(n: nat, cw: nat, ch: nat, open: set<Pt>, mark: map<Pt, nat>, cluster: Clusters, f: Forest<ClumpId>,
                    c: Pt, k: nat, h: nat, ghost E0: set<(ClumpId, ClumpId)>)
    returns (ghost E: set<(ClumpId, ClumpId)>)
    requires LocalOK(n, cw, ch, open, mark, cluster) && Uniting(n, cw, ch, open, mark, cluster, f, E0)
    requires EdgeId(cw, ch, cluster, ClumpId(c, k)) && k < |cluster[c].clump| && h < cluster[c].clump[k].numAdj
    requires Covered(E0, cluster[c], c, k, h)
    modifies f
    ensures Uniting(n, cw, ch, open, mark, cluster, f, E) && E0 <= E
    ensures f.dom == old(f.dom) && OutsideKept(f, old(f.parent))
    ensures Covered(E, cluster[c], c, k, h + 1)
  {
    hide LocalOK, Uniting, OutsideKept, Covered, IdOf, Adjacent;
    ghost var p, q := EntrySquares(n, cw, ch, open, mark, cluster, c, k, h);
    var e := cluster[c].storage[cluster[c].clump[k].start + h];
    UnitePair(n, cw, ch, open, mark, cluster, f, ClumpId(c, k), Target(c, e), p, q, E0);
    E := E0 + {(ClumpId(c, k), Target(c, e))};
    CoveredNext(E0, E, cluster[c], c, k, h);
  }

  lemma CoveredNext(E: set<(ClumpId, ClumpId)>, E': set<(ClumpId, ClumpId)>, cl: Cluster, c: Pt, k: nat, h: nat)
    requires Covered(E, cl, c, k, h) && E <= E' && EntryIn(E', cl, c, k, h)
    ensures Covered(E', cl, c, k, h + 1)
  {
    CoveredMore(E, E', cl, c, k, h);
  }

  /** Unites clump k of cluster c with every clump on its list. */
  method UniteClump(n: nat, cw: nat, ch: nat, open: set<Pt>, mark: map<Pt, nat>, cluster: Clusters, f: Forest<ClumpId>,
                    c: Pt, k: nat, ghost E0: set<(ClumpId, ClumpId)>)
    returns (ghost E: set<(ClumpId, ClumpId)>)
    requires LocalOK(n, cw, ch, open, mark, cluster) && Uniting(n, cw, ch, open, mark, cluster, f, E0)
    requires EdgeId(cw, ch, cluster, ClumpId(c, k)) && k < |cluster[c].clump|
    modifies f
    ensures Uniting(n, cw, ch, open, mark, cluster, f, E) && E0 <= E
    ensures f.dom == old(f.dom) && OutsideKept(f, old(f.parent))
    ensures Covered(E, cluster[c], c, k, cluster[c].clump[k].numAdj)
  {
    assert Covered(E0, cluster[c], c, k, 0);
    hide LocalOK, Uniting, Covered;
    E := E0;
    for h := 0 to cluster[c].clump[k].numAdj
      invariant Uniting(n, cw, ch, open, mark, cluster, f, E) && E0 <= E
      invariant f.dom == old(f.dom) && OutsideKept(f, old(f.parent))
      invariant Covered(E, cluster[c], c, k, h)
    {
      E := UniteEntry(n, cw, ch, open, mark, cluster, f, c, k, h, E);
    }
  }

  lemma CoveredMore(E: set<(ClumpId, ClumpId)>, E': set<(ClumpId, ClumpId)>, cl: Cluster, c: Pt, k: nat, h: int)
    requires Covered(E, cl, c, k, h) && E <= E'
    ensures Covered(E', cl, c, k, h)
  {
    forall i | 0 <= i < h ensures EntryIn(E', cl, c, k, i) {
      assert EntryIn(E, cl, c, k, i);
    }
  }

  lemma CoveredGrows(E: set<(ClumpId, ClumpId)>, E': set<(ClumpId, ClumpId)>, cl: Cluster, c: Pt, m: nat)
    requires ClusterCovered(E, cl, c, m) && E <= E'
    ensures ClusterCovered(E', cl, c, m)
  {
    forall k: nat | k < m && k < |cl.clump| ensures Covered(E', cl, c, k, cl.clump[k].numAdj) {
      assert Covered(E, cl, c, k, cl.clump[k].numAdj);
      CoveredMore(E, E', cl, c, k, cl.clump[k].numAdj);
    }
  }

  lemma GridCoveredGrows(E: set<(ClumpId, ClumpId)>, E': set<(ClumpId, ClumpId)>, cw: nat, ch: nat, cluster: Clusters,
                         i: int, j: int)
    requires GridCovered(E, cw, ch, cluster, i, j) && E <= E'
    ensures GridCovered(E', cw, ch, cluster, i, j)
  {
    hide ClusterCovered;
    forall c | InGrid(cw, ch, c) && Earlier(i, j, c) && c in cluster
      ensures ClusterCovered(E', cluster[c], c, cluster[c].numEdge)
    {
      CoveredGrows(E, E', cluster[c], c, cluster[c].numEdge);
    }
  }

  /** Unites every edge clump of cluster c with the clumps on its list. */
  method UniteCluster(n: nat, cw: nat, ch: nat, open: set<Pt>, mark: map<Pt, nat>, cluster: Clusters,
                      f: Forest<ClumpId>, c: Pt, ghost E0: set<(ClumpId, ClumpId)>)
    returns (ghost E: set<(ClumpId, ClumpId)>)
    requires LocalOK(n, cw, ch, open, mark, cluster) && Uniting(n, cw, ch, open, mark, cluster, f, E0)
    requires InGrid(cw, ch, c) && c in cluster && cluster[c].numEdge <= |cluster[c].clump|
    modifies f
    ensures Uniting(n, cw, ch, open, mark, cluster, f, E) && E0 <= E
    ensures f.dom == old(f.dom) && OutsideKept(f, old(f.parent))
    ensures ClusterCovered(E, cluster[c], c, cluster[c].numEdge)
  {
    hide LocalOK, Uniting, Covered;
    E := E0;
    for k := 0 to cluster[c].numEdge
      invariant Uniting(n, cw, ch, open, mark, cluster, f, E) && E0 <= E
      invariant f.dom == old(f.dom) && OutsideKept(f, old(f.parent))
      invariant ClusterCovered(E, cluster[c], c, k)
    {
      ghost var before := E;
      E := UniteClump(n, cw, ch, open, mark, cluster, f, c, k, E);
      CoveredGrows(before, E, cluster[c], c, k);
    }
  }

  lemma ClusterShape(n: nat, cw: nat, ch: nat, open: set<Pt>, mark: map<Pt, nat>, cluster: Clusters, c: Pt)
    requires LocalOK(n, cw, ch, open, mark, cluster) && InGrid(cw, ch, c)
    ensures c in cluster && cluster[c].numEdge <= |cluster[c].clump|
  {
    assert ListsOK(n, open, mark, cluster[c], c);
  }

  /** Unites all clumps of the grid along their lists, cluster by cluster. */
  method UniteAll(n: nat, cw: nat, ch: nat, open: set<Pt>, mark: map<Pt, nat>, cluster: Clusters, f: Forest<ClumpId>)
    returns (ghost E: set<(ClumpId, ClumpId)>)
    requires LocalOK(n, cw, ch, open, mark, cluster) && Uniting(n, cw, ch, open, mark, cluster, f, {})
    modifies f
    ensures Uniting(n, cw, ch, open, mark, cluster, f, E)
    ensures f.dom == old(f.dom) && OutsideKept(f, old(f.parent))
    ensures GridCovered(E, cw, ch, cluster, 0, ch)
  {
    hide LocalOK, Uniting, ClusterCovered;
    E := {};
    for j := 0 to ch
      invariant Uniting(n, cw, ch, open, mark, cluster, f, E)
      invariant f.dom == old(f.dom) && OutsideKept(f, old(f.parent))
      invariant GridCovered(E, cw, ch, cluster, 0, j)
    {
      for i := 0 to cw
        invariant Uniting(n, cw, ch, open, mark, cluster, f, E)
        invariant f.dom == old(f.dom) && OutsideKept(f, old(f.parent))
        invariant GridCovered(E, cw, ch, cluster, i, j)
      {
        ghost var before := E;
        ClusterShape(n, cw, ch, open, mark, cluster, Pt(i, j));
        E := UniteCluster(n, cw, ch, open, mark, cluster, f, Pt(i, j), E);
        GridCoveredGrows(before, E, cw, ch, cluster, i, j);
      }
    }
  }

  /** Every edge clump starts out with itself as its label. */
  method SelfLabels(cw: nat, ch: nat, cluster: Clusters, f: Forest<ClumpId>)
    requires f.Valid() && f.dom == {} && forall c {:trigger InGrid(cw, ch, c)} :: InGrid(cw, ch, c) ==> c in cluster
    modifies f
    ensures f.Valid() && f.rep.Keys == f.dom && forall g {:trigger g in f.dom} :: g in f.dom <==>
            EdgeId(cw, ch, cluster, g)
    ensures forall g :: g in f.rep ==> f.rep[g] == g
    ensures forall g :: g in old(f.parent) && g !in f.dom ==> g in f.parent && f.parent[g] == old(f.parent)[g]
  {
    hide NodeOK;
    for j := 0 to ch
      invariant f.Valid() && f.rep.Keys == f.dom
      invariant forall g {:trigger g in f.dom} :: g in f.dom <==> EdgeId(cw, ch, cluster, g) && Earlier(0, j, g.c)
      invariant forall g :: g in f.rep ==> f.rep[g] == g
      invariant forall g :: g in old(f.parent) && g !in f.dom ==> g in f.parent && f.parent[g] == old(f.parent)[g]
    {
      for i := 0 to cw
        invariant f.Valid() && f.rep.Keys == f.dom
        invariant forall g {:trigger g in f.dom} :: g in f.dom <==> EdgeId(cw, ch, cluster, g) && Earlier(i, j, g.c)
        invariant forall g :: g in f.rep ==> f.rep[g] == g
        invariant forall g :: g in old(f.parent) && g !in f.dom ==> g in f.parent && f.parent[g] == old(f.parent)[g]
      {
        SelfLabelCluster(cw, ch, cluster, f, Pt(i, j));
      }
    }
  }

  method SelfLabelCluster(cw: nat, ch: nat, cluster: Clusters, f: Forest<ClumpId>, c: Pt)
    requires f.Valid() && InGrid(cw, ch, c) && c in cluster && forall g :: g in f.dom ==> g.c != c
    requires f.rep.Keys == f.dom && forall g :: g in f.rep ==> f.rep[g] == g
    modifies f
    ensures f.Valid() && f.rep.Keys == f.dom
    ensures forall g {:trigger g in f.dom} :: g in f.dom <==> g in old(f.dom) || (g.c == c && g.k < cluster[c].numEdge)
    ensures forall g :: g in f.rep ==> f.rep[g] == g
    ensures forall g :: g in old(f.parent) && g !in f.dom ==> g in f.parent && f.parent[g] == old(f.parent)[g]
  {
    hide NodeOK;
    for k := 0 to cluster[c].numEdge
      invariant f.Valid() && f.rep.Keys == f.dom
      invariant forall g {:trigger g in f.dom} :: g in f.dom <==> g in old(f.dom) || (g.c == c && g.k < k)
      invariant forall g :: g in f.rep ==> f.rep[g] == g
      invariant forall g :: g in old(f.parent) && g !in f.dom ==> g in f.parent && f.parent[g] == old(f.parent)[g]
    {
      f.MakeSet(ClumpId(c, k));
    }
  }

  /** Points the label of every edge clump directly at its root. */
  method ResolveAll(cw: nat, ch: nat, cluster: Clusters, f: Forest<ClumpId>)
    requires f.Valid() && f.rep.Keys == f.dom && forall g {:trigger g in f.dom} :: g in f.dom <==>
             EdgeId(cw, ch, cluster, g)
    requires forall c {:trigger InGrid(cw, ch, c)} :: InGrid(cw, ch, c) ==> c in cluster
    modifies f`parent
    ensures f.Valid() && OutsideKept(f, old(f.parent))
    ensures forall g {:trigger f.parent[g]} {:trigger g in f.dom} :: g in f.dom ==>
              g in f.parent && f.parent[g] == f.rep[g]
  {
    hide NodeOK;
    for j := 0 to ch
      invariant f.Valid() && OutsideKept(f, old(f.parent))
      invariant forall g {:trigger f.parent[g]} :: g in f.dom && Earlier(0, j, g.c) ==>
                  g in f.parent && f.parent[g] == f.rep[g]
    {
      for i := 0 to cw
        invariant f.Valid() && OutsideKept(f, old(f.parent))
        invariant forall g {:trigger f.parent[g]} :: g in f.dom && Earlier(i, j, g.c) ==>
                    g in f.parent && f.parent[g] == f.rep[g]
      {
        assert InGrid(cw, ch, Pt(i, j));
        for k := 0 to cluster[Pt(i, j)].numEdge
          invariant f.Valid() && OutsideKept(f, old(f.parent))
          invariant forall g {:trigger f.parent[g]} ::
                      g in f.dom && (Earlier(i, j, g.c) || (g.c == Pt(i, j) && g.k < k)) ==>
                        g in f.parent && f.parent[g] == f.rep[g]
        {
          var _ := f.Find(ClumpId(Pt(i, j), k));
        }
      }
    }
  }

  // ---------------------------------------------------------------- labels and reachability agree

  /** Interior clumps keep themselves as their label. */
  ghost predicate InteriorOK(cw: nat, ch: nat, cluster: Clusters, parent: map<ClumpId, ClumpId>) {
    forall g: ClumpId {:trigger g in parent} ::
      InGrid(cw, ch, g.c) && g.c in cluster && cluster[g.c].numEdge <= g.k < cluster[g.c].numClumps ==>
        g in parent && parent[g] == g
  }

  ghost predicate Stored(n: nat, open: set<Pt>, mark: map<Pt, nat>, parent: map<ClumpId, ClumpId>) {
    n > 0 && open <= mark.Keys && forall p {:trigger IdOf(n, mark, p)} :: p in open ==> IdOf(n, mark, p) in parent
  }

  /** Every open square has a stored label, and two squares have the same label exactly when a path joins them. */
  ghost predicate GlobalOK(n: nat, open: set<Pt>, mark: map<Pt, nat>, parent: map<ClumpId, ClumpId>) {
    Stored(n, open, mark, parent) &&
    forall p, q {:trigger Joined(open, p, q)} :: p in open && q in open ==>
      (parent[IdOf(n, mark, p)] == parent[IdOf(n, mark, q)] <==> Joined(open, p, q))
  }

  /** What the three passes leave behind. */
  ghost predicate Resolved(n: nat, cw: nat, ch: nat, open: set<Pt>, mark: map<Pt, nat>, cluster: Clusters,
                           dom: set<ClumpId>, parent: map<ClumpId, ClumpId>, rep: map<ClumpId, ClumpId>,
                           E: set<(ClumpId, ClumpId)>)
  {
    && rep.Keys == dom && (forall g {:trigger g in dom} :: g in dom <==> EdgeId(cw, ch, cluster, g))
    && (forall g {:trigger rep[g]} :: g in dom ==> g in parent && parent[g] == rep[g] && rep[g] in dom)
    && InteriorOK(cw, ch, cluster, parent)
    && Sound(n, open, mark, rep) && Agree(E, rep) && GridCovered(E, cw, ch, cluster, 0, ch)
  }

  lemma OpenId(n: nat, cw: nat, ch: nat, open: set<Pt>, mark: map<Pt, nat>, cluster: Clusters, p: Pt)
    requires LabelsOK(n, cw, ch, open, mark, cluster) && p in open
    ensures var g := IdOf(n, mark, p);
      InGrid(cw, ch, g.c) && g.c in cluster && g.k < cluster[g.c].numClumps <= None(n)
  {
    BoxOf(n, ClusterOf(n, p), p);
    assert ClusterLabels(n, open, mark, cluster[ClusterOf(n, p)], ClusterOf(n, p));
    hide Origin;
  }

  /** An entry of the lists of c has been united. */
  lemma CoveredEntry(n: nat, cw: nat, ch: nat, open: set<Pt>, mark: map<Pt, nat>, cluster: Clusters,
                     E: set<(ClumpId, ClumpId)>, c: Pt, k: nat, e: Rel)
    requires LocalOK(n, cw, ch, open, mark, cluster) && GridCovered(E, cw, ch, cluster, 0, ch)
    requires EdgeId(cw, ch, cluster, ClumpId(c, k)) && e in Neighbours(open, mark, Origin(n, c), n, k)
    ensures (ClumpId(c, k), Target(c, e)) in E
  {
    assert open <= mark.Keys;
    hide LabelsOK, Neighbours;
    var cl := cluster[c];
    assert ListsOK(n, open, mark, cl, c);
    var want := AllNeighbours(open, mark, Origin(n, c), n, cl.numEdge);
    assert Lists(n, cl, want, k);
    assert e in Counting.Elems(List(n, cl, k));
    var i :| 0 <= i < |List(n, cl, k)| && List(n, cl, k)[i] == e;
    assert Covered(E, cl, c, k, cl.clump[k].numAdj);
    assert EntryIn(E, cl, c, k, i);
  }

  /** Two open squares that touch have the same label. */
  lemma NeighboursShareLabel(n: nat, cw: nat, ch: nat, open: set<Pt>, mark: map<Pt, nat>, cluster: Clusters,
                             dom: set<ClumpId>, parent: map<ClumpId, ClumpId>, rep: map<ClumpId, ClumpId>,
                             E: set<(ClumpId, ClumpId)>, p: Pt, q: Pt)
    requires LocalOK(n, cw, ch, open, mark, cluster) && Resolved(n, cw, ch, open, mark, cluster, dom, parent, rep, E)
    requires p in open && q in open && Adjacent(p, q)
    ensures IdOf(n, mark, p) in parent && IdOf(n, mark, q) in parent &&
            parent[IdOf(n, mark, p)] == parent[IdOf(n, mark, q)]
  {
    OpenId(n, cw, ch, open, mark, cluster, p);
    OpenId(n, cw, ch, open, mark, cluster, q);
    hide AdjacencyOK, Sound, ClusterLabels;
    var c := ClusterOf(n, p);
    if c == ClusterOf(n, q) {
      BoxOf(n, c, p);
      BoxOf(n, c, q);
      SameClump(n, open, mark, cluster[c], c, p, q);
      assert IdOf(n, mark, p) in parent;
    } else {
      var e := BorderEntry(n, cw, ch, open, mark, cluster, p, q);
      CoveredEntry(n, cw, ch, open, mark, cluster, E, c, mark[p], e);
    }
  }

  lemma SameLabelJoined(n: nat, cw: nat, ch: nat, open: set<Pt>, mark: map<Pt, nat>, cluster: Clusters,
                        dom: set<ClumpId>, parent: map<ClumpId, ClumpId>, rep: map<ClumpId, ClumpId>,
                        E: set<(ClumpId, ClumpId)>, p: Pt, q: Pt)
    requires LocalOK(n, cw, ch, open, mark, cluster) && Resolved(n, cw, ch, open, mark, cluster, dom, parent, rep, E)
    requires p in open && q in open && IdOf(n, mark, p) in parent && IdOf(n, mark, q) in parent
    requires parent[IdOf(n, mark, p)] == parent[IdOf(n, mark, q)]
    ensures Joined(open, p, q)
  {
    hide Joined, LocalOK, LabelsOK, GridCovered, Agree, IdOf, InGrid;
    LocalMarks(n, cw, ch, open, mark, cluster);
    OpenId(n, cw, ch, open, mark, cluster, p);
    OpenId(n, cw, ch, open, mark, cluster, q);
    var a, b := IdOf(n, mark, p), IdOf(n, mark, q);
    assert a in dom ==> parent[a] == rep[a] && rep[a] in dom;
    assert b in dom ==> parent[b] == rep[b] && rep[b] in dom;
    assert a in dom <==> b in dom;
    if a !in dom {
      SameIdJoined(n, cw, ch, open, mark, cluster, p, q);
    }
  }

  /** The labels left by the three passes answer reachability. */
  lemma LabelsAnswerReachability(n: nat, cw: nat, ch: nat, open: set<Pt>, mark: map<Pt, nat>, cluster: Clusters,
                                 dom: set<ClumpId>, parent: map<ClumpId, ClumpId>, rep: map<ClumpId, ClumpId>,
                                 E: set<(ClumpId, ClumpId)>)
    requires LocalOK(n, cw, ch, open, mark, cluster) && Resolved(n, cw, ch, open, mark, cluster, dom, parent, rep, E)
    ensures GlobalOK(n, open, mark, parent)
  {
    assert n > 0 && open <= mark.Keys;
    forall p | p in open ensures IdOf(n, mark, p) in parent {
      OpenId(n, cw, ch, open, mark, cluster, p);
      var g := IdOf(n, mark, p);
      assert g in dom ==> rep[g] == parent[g];
    }
    hide LocalOK, Resolved, Joined;
    var L := map p | p in open :: parent[IdOf(n, mark, p)];
    forall a, b | a in open && b in open && Adjacent(a, b) ensures L[a] == L[b] {
      NeighboursShareLabel(n, cw, ch, open, mark, cluster, dom, parent, rep, E, a, b);
    }
    forall p, q | p in open && q in open
      ensures parent[IdOf(n, mark, p)] == parent[IdOf(n, mark, q)] <==> Joined(open, p, q)
    {
      if Joined(open, p, q) {
        ConstantOnJoined(open, L, p, q);
      }
      if L[p] == L[q] {
        SameLabelJoined(n, cw, ch, open, mark, cluster, dom, parent, rep, E, p, q);
      }
    }
  }

  /** The global pass: self labels, unions along the lists, then every label resolved to its root. */
  method ConnectClumps(n: nat, cw: nat, ch: nat, open: set<Pt>, mark: map<Pt, nat>, cluster: Clusters,
                       f: Forest<ClumpId>)
    requires LocalOK(n, cw, ch, open, mark, cluster) && InteriorOK(cw, ch, cluster, f.parent)
    modifies f
    ensures GlobalOK(n, open, mark, f.parent) && InteriorOK(cw, ch, cluster, f.parent)
  {
    StartUniting(n, cw, ch, open, mark, cluster, f);
    hide LocalOK, GlobalOK, Sound, Agree, ForestOK, InteriorOK;
    ghost var was := f.parent;
    ghost var E := UniteAll(n, cw, ch, open, mark, cluster, f);
    InteriorKept(cw, ch, cluster, was, f.parent, f.dom);
    FinishUniting(n, cw, ch, open, mark, cluster, f, E);
  }

  /** First pass: every edge clump is its own label; interior clumps keep theirs. */
  method StartUniting(n: nat, cw: nat, ch: nat, open: set<Pt>, mark: map<Pt, nat>, cluster: Clusters,
                      f: Forest<ClumpId>)
    requires LocalOK(n, cw, ch, open, mark, cluster) && InteriorOK(cw, ch, cluster, f.parent)
    modifies f
    ensures Uniting(n, cw, ch, open, mark, cluster, f, {}) && InteriorOK(cw, ch, cluster, f.parent)
  {
    hide ClusterLabels, AdjacencyOK, Sound, NodeOK, InteriorOK;
    ghost var was := f.parent;
    f.Forget();
    SelfLabels(cw, ch, cluster, f);
    InteriorKept(cw, ch, cluster, was, f.parent, f.dom);
    SoundStart(n, cw, ch, open, mark, cluster, f.rep);
  }

  /** Last pass: every label is resolved to its root. */
  method FinishUniting(n: nat, cw: nat, ch: nat, open: set<Pt>, mark: map<Pt, nat>, cluster: Clusters,
                       f: Forest<ClumpId>, ghost E: set<(ClumpId, ClumpId)>)
    requires LocalOK(n, cw, ch, open, mark, cluster) && Uniting(n, cw, ch, open, mark, cluster, f, E) &&
             GridCovered(E, cw, ch, cluster, 0, ch)
    requires InteriorOK(cw, ch, cluster, f.parent)
    modifies f`parent
    ensures GlobalOK(n, open, mark, f.parent) && InteriorOK(cw, ch, cluster, f.parent)
  {
    hide GlobalOK, LocalOK, Sound, Agree, GridCovered, ForestOK, InteriorOK, EdgeId, InGrid;
    ClustersPresent(n, cw, ch, open, mark, cluster);
    ghost var was := f.parent;
    ResolveAll(cw, ch, cluster, f);
    InteriorKept(cw, ch, cluster, was, f.parent, f.dom);
    RootsInDomain(f);
    forall g | g in f.dom ensures g in f.parent && f.parent[g] == f.rep[g] && f.rep[g] in f.dom {
      assert g in f.parent ==> f.parent[g] == f.rep[g];
    }
    LabelsAnswerReachability(n, cw, ch, open, mark, cluster, f.dom, f.parent, f.rep, E);
  }

  lemma ClustersPresent(n: nat, cw: nat, ch: nat, open: set<Pt>, mark: map<Pt, nat>, cluster: Clusters)
    requires LocalOK(n, cw, ch, open, mark, cluster)
    ensures forall c {:trigger InGrid(cw, ch, c)} :: InGrid(cw, ch, c) ==> c in cluster
  {
    hide ClusterLabels, AdjacencyOK;
  }

  lemma InteriorKept(cw: nat, ch: nat, cluster: Clusters, was: map<ClumpId, ClumpId>, parent: map<ClumpId, ClumpId>,
                     dom: set<ClumpId>)
    requires InteriorOK(cw, ch, cluster, was) && forall g :: g in was && g !in dom ==>
               g in parent && parent[g] == was[g]
    requires forall g {:trigger g in dom} :: g in dom <==> EdgeId(cw, ch, cluster, g)
    ensures InteriorOK(cw, ch, cluster, parent)
  {
    forall g: ClumpId | InGrid(cw, ch, g.c) && g.c in cluster && cluster[g.c].numEdge <= g.k < cluster[g.c].numClumps
      ensures g in parent && parent[g] == g
    {
      assert g in was && g !in dom;
    }
  }

  lemma RootsInDomain(f: Forest<ClumpId>)
    requires f.Valid()
    ensures forall g {:trigger f.rep[g]} :: g in f.dom ==> f.rep[g] in f.dom
  {
    forall g | g in f.dom ensures f.rep[g] in f.dom {
      assert NodeOK(f.dom, f.parent, f.rep, f.dist, g);
    }
  }
}
