/**
  The grid object: initialisation from a map, single and batched updates, and
  the reachability query.
 */
module ConnectedGrid {
  import opened Arith
  import opened GridPaths
  import opened ClusterClumps
  import opened ClumpAdjacency
  import opened ClumpGraph
  import opened GridUpdate
  import opened DisjointSets

  /** Cluster sizes the fixed-width fields are made for. */
  predicate ClusterSize(n: nat) {
    n == 4 || n == 8 || n == 16 || n == 32 || n == 64
  }

  /** A square of the map. */
  predicate OnMap(n: nat, cw: nat, ch: nat, p: Pt)
    requires n > 0
  {
    InGrid(cw, ch, ClusterOf(n, p))
  }

  /** Writes the new ids of one box into the ids of the whole grid. */
  method CopyBox(mark: map<Pt, nat>, ids: map<Pt, nat>, o: Pt, n: nat) returns (mark': map<Pt, nat>)
    requires forall p {:trigger InBox(o, n, p)} :: InBox(o, n, p) ==> p in ids
    ensures forall p {:trigger InBox(o, n, p)} :: InBox(o, n, p) ==> p in mark' && mark'[p] == ids[p]
    ensures forall p {:trigger InBox(o, n, p)} :: !InBox(o, n, p) ==>
              (p in mark' <==> p in mark) && (p in mark ==> mark'[p] == mark[p])
  {
    mark' := mark;
    for j := 0 to n
      invariant forall p {:trigger InBox(o, n, p)} :: InBox(o, n, p) && Before(o, 0, j, p) ==>
                  p in mark' && mark'[p] == ids[p]
      invariant forall p {:trigger InBox(o, n, p)} :: !InBox(o, n, p) ==>
                  (p in mark' <==> p in mark) && (p in mark ==> mark'[p] == mark[p])
    {
      for i := 0 to n
        invariant forall p {:trigger InBox(o, n, p)} :: InBox(o, n, p) && Before(o, i, j, p) ==>
                    p in mark' && mark'[p] == ids[p]
        invariant forall p {:trigger InBox(o, n, p)} :: !InBox(o, n, p) ==>
                    (p in mark' <==> p in mark) && (p in mark ==> mark'[p] == mark[p])
      {
        var q := Pt(o.x + i, o.y + j);
        assert InBox(o, n, q);
        mark' := mark'[q := ids[q]];
      }
    }
  }

  /** Empties the lists of the first numClumps clumps. */
  method ResetClumps(clump: seq<Clump>, numClumps: nat) returns (clump': seq<Clump>)
    requires numClumps <= |clump|
    ensures |clump'| == |clump|
    ensures forall k :: 0 <= k < |clump| ==>
              clump'[k] == if k < numClumps then clump[k].(numAdj := 0, maxAdj := 0) else clump[k]
  {
    clump' := clump;
    for i := 0 to numClumps
      invariant |clump'| == |clump|
      invariant forall k :: 0 <= k < |clump| ==>
                  clump'[k] == if k < i then clump[k].(numAdj := 0, maxAdj := 0) else clump[k]
    {
      clump' := clump'[i := clump'[i].(numAdj := 0, maxAdj := 0)];
    }
  }

  /** Clumps lo to hi of cluster c are their own labels. */
  ghost predicate OwnLabels(parent: map<ClumpId, ClumpId>, c: Pt, lo: nat, hi: nat) {
    forall g: ClumpId {:trigger g in parent} :: g.c == c && lo <= g.k < hi ==> g in parent && parent[g] == g
  }

  /** The labels of the other clusters' clumps are what they were. */
  ghost predicate SameElsewhere(was: map<ClumpId, ClumpId>, parent: map<ClumpId, ClumpId>, c: Pt) {
    forall g: ClumpId {:trigger g in parent} :: g.c != c && g in was ==> g in parent && parent[g] == was[g]
  }

  /** Relabels one cluster for the given map: ids, clump counts, emptied lists, and self labels for interior clumps. */
  method BuildClumps(n: nat, open: set<Pt>, mark: map<Pt, nat>, cl: Cluster, c: Pt, labels: Forest<ClumpId>)
    returns (mark': map<Pt, nat>, cl': Cluster)
    requires n >= 2 && n % 2 == 0 && |cl.storage| == 4 * n && |cl.clump| == None(n)
    modifies labels
    ensures ClusterLabels(n, open, mark', cl', c)
    ensures forall p {:trigger InBox(Origin(n, c), n, p)} :: InBox(Origin(n, c), n, p) ==> p in mark'
    ensures forall p {:trigger InBox(Origin(n, c), n, p)} :: !InBox(Origin(n, c), n, p) ==>
              (p in mark' <==> p in mark) && (p in mark ==> mark'[p] == mark[p])
    ensures OwnLabels(labels.parent, c, cl'.numEdge, cl'.numClumps) &&
            SameElsewhere(old(labels.parent), labels.parent, c)
  {
    hide Joined;
    var o := Origin(n, c);
    var marks, numEdge, numClumps := LabelCluster(open, o, n, None(n));
    EdgeClumpBound(open, o, n, None(n), marks, numEdge, numClumps);
    ClumpBound(open, o, n, None(n), marks, numEdge, numClumps);
    mark' := CopyBox(mark, marks, o, n);
    LabelledKept(open, open, o, n, None(n), marks, mark', numEdge, numClumps);
    hide Labelled, Origin;
    var clump := ResetClumps(cl.clump, numClumps);
    cl' := Cluster(numClumps, numEdge, true, clump, cl.storage);
    labels.Forget();
    for i := numEdge to numClumps
      invariant labels.Valid() && labels.dom == {}
      invariant OwnLabels(labels.parent, c, numEdge, i) && SameElsewhere(old(labels.parent), labels.parent, c)
    {
      labels.SetSelf(ClumpId(c, i));
    }
  }

  lemma OpenMarked(n: nat, cw: nat, ch: nat, open: set<Pt>, mark: map<Pt, nat>, cluster: Clusters)
    requires LabelsOK(n, cw, ch, open, mark, cluster)
    ensures open <= mark.Keys && n % 2 == 0
  {
  }

  lemma BatchStart(n: nat, cw: nat, ch: nat, open: set<Pt>, mark: map<Pt, nat>, cluster: Clusters, c: Pt)
    requires open <= mark.Keys
    ensures AdjacencyOK(n, cw, ch, open, mark, cluster) <==> Detached(n, cw, ch, open, mark, cluster, c, {}, true)
  {
    hide Holds;
    if AdjacencyOK(n, cw, ch, open, mark, cluster) {
      forall b | InGrid(cw, ch, b) && b in cluster ensures WantOK(n, open, mark, cluster[b], b, c, {}) {
        assert ListsOK(n, open, mark, cluster[b], b);
      }
    }
    if Detached(n, cw, ch, open, mark, cluster, c, {}, true) {
      forall b | InGrid(cw, ch, b) && b in cluster ensures ListsOK(n, open, mark, cluster[b], b) {
        assert WantOK(n, open, mark, cluster[b], b, c, {});
      }
    }
  }

  ghost predicate SameCounts(cluster: Clusters, cluster': Clusters) {
    cluster'.Keys == cluster.Keys &&
    forall b {:trigger b in cluster'} :: b in cluster ==>
      cluster'[b].numEdge == cluster[b].numEdge && cluster'[b].numClumps == cluster[b].numClumps
  }

  /** All four neighbours of c drop their entries for c. */
  method DetachAll(n: nat, cw: nat, ch: nat, open: set<Pt>, mark: map<Pt, nat>, cluster: Clusters, c: Pt)
    returns (cluster': Clusters)
    requires LocalOK(n, cw, ch, open, mark, cluster) && InGrid(cw, ch, c)
    ensures LabelsOK(n, cw, ch, open, mark, cluster') && Detached(n, cw, ch, open, mark, cluster', c, AROUND, true)
    ensures SameCounts(cluster, cluster') && c in cluster
  {
    hide LabelsOK, AdjacencyOK, Detached;
    OpenMarked(n, cw, ch, open, mark, cluster);
    BatchStart(n, cw, ch, open, mark, cluster, c);
    cluster' := Detach(n, cw, ch, open, mark, cluster, c, EAST, {});
    assert {} + {EAST} == {EAST};
    cluster' := Detach(n, cw, ch, open, mark, cluster', c, WEST, {EAST});
    cluster' := Detach(n, cw, ch, open, mark, cluster', c, SOUTH, {EAST} + {WEST});
    cluster' := Detach(n, cw, ch, open, mark, cluster', c, NORTH, {EAST} + {WEST} + {SOUTH});
    assert {EAST} + {WEST} + {SOUTH} + {NORTH} == AROUND;
  }

  /** All four neighbours of c add entries for c. */
  method AttachAll(n: nat, cw: nat, ch: nat, open: set<Pt>, mark: map<Pt, nat>, cluster: Clusters, c: Pt)
    returns (cluster': Clusters)
    requires LabelsOK(n, cw, ch, open, mark, cluster) && InGrid(cw, ch, c) &&
             Detached(n, cw, ch, open, mark, cluster, c, AROUND, true)
    ensures LocalOK(n, cw, ch, open, mark, cluster') && SameCounts(cluster, cluster')
  {
    hide LabelsOK, AdjacencyOK, Detached;
    OpenMarked(n, cw, ch, open, mark, cluster);
    cluster' := Attach(n, cw, ch, open, mark, cluster, c, EAST, AROUND);
    cluster' := Attach(n, cw, ch, open, mark, cluster', c, WEST, AROUND - {EAST});
    cluster' := Attach(n, cw, ch, open, mark, cluster', c, SOUTH, AROUND - {EAST} - {WEST});
    cluster' := Attach(n, cw, ch, open, mark, cluster', c, NORTH, AROUND - {EAST} - {WEST} - {SOUTH});
    assert AROUND - {EAST} - {WEST} - {SOUTH} - {NORTH} == {};
    BatchStart(n, cw, ch, open, mark, cluster', c);
  }

  /** With cluster c freshly labelled and listed by none, lays out its lists and lets its neighbours list it again. */
  method Reconnect(n: nat, cw: nat, ch: nat, open: set<Pt>, mark: map<Pt, nat>, cluster: Clusters, c: Pt)
    returns (cluster': Clusters)
    requires LabelsOK(n, cw, ch, open, mark, cluster) && InGrid(cw, ch, c) &&
             Detached(n, cw, ch, open, mark, cluster, c, AROUND, false)
    ensures LocalOK(n, cw, ch, open, mark, cluster') && SameCounts(cluster, cluster')
  {
    hide Detached, LocalOK, Origin, Holds, Border, AllNeighbours, None;
    ClusterSizes(n, cw, ch, open, mark, cluster, c);
    LabelsGiveBorder(n, cw, ch, open, mark, cluster, c);
    assert n % 2 == 0 && open <= mark.Keys;
    hide LabelsOK;
    var cl := BuildAllConnections(n, cluster[c], open, mark, Origin(n, c), cw, ch, c);
    ShapeKeepsLabels(n, cw, ch, open, mark, cluster, c, cl);
    assert ListsOK(n, open, mark, cl, c);
    hide ListsOK;
    DetachedWhole(n, cw, ch, open, mark, cluster, c, cl);
    assert cluster[c := cl].Keys == cluster.Keys;
    cluster' := AttachAll(n, cw, ch, open, mark, cluster[c := cl], c);
  }

  lemma DetachedWhole(n: nat, cw: nat, ch: nat, open: set<Pt>, mark: map<Pt, nat>, cluster: Clusters, c: Pt,
                      cl: Cluster)
    requires open <= mark.Keys && Detached(n, cw, ch, open, mark, cluster, c, AROUND, false) &&
             ListsOK(n, open, mark, cl, c)
    ensures Detached(n, cw, ch, open, mark, cluster[c := cl], c, AROUND, true)
  {
    hide Holds;
    forall b | InGrid(cw, ch, b) && b in cluster[c := cl]
      ensures WantOK(n, open, mark, cluster[c := cl][b], b, c, AROUND)
    {
      if b != c {
        assert WantOK(n, open, mark, cluster[b], b, c, AROUND);
      }
    }
  }

  lemma InteriorAfter(cw: nat, ch: nat, cluster: Clusters, cluster': Clusters, c: Pt, was: map<ClumpId, ClumpId>,
                      parent: map<ClumpId, ClumpId>)
    requires InteriorOK(cw, ch, cluster, was)
    requires forall b {:trigger b in cluster'} :: b != c && b in cluster' ==>
               b in cluster && cluster'[b].numEdge == cluster[b].numEdge &&
               cluster'[b].numClumps == cluster[b].numClumps
    requires SameElsewhere(was, parent, c) && c in cluster' &&
             OwnLabels(parent, c, cluster'[c].numEdge, cluster'[c].numClumps)
    ensures InteriorOK(cw, ch, cluster', parent)
  {
    forall g: ClumpId | InGrid(cw, ch, g.c) && g.c in cluster' && cluster'[g.c].numEdge <= g.k < cluster'[g.c].numClumps
      ensures g in parent && parent[g] == g
    {
      assert g.c != c ==> g in was;
    }
  }

  /** Changes the map inside cluster c and brings all labels and lists up to date. */
  method ChangeCluster(n: nat, cw: nat, ch: nat, open: set<Pt>, mark: map<Pt, nat>, cluster: Clusters, c: Pt,
                       open': set<Pt>, labels: Forest<ClumpId>)
    returns (mark': map<Pt, nat>, cluster': Clusters)
    requires LocalOK(n, cw, ch, open, mark, cluster) && InGrid(cw, ch, c) && InteriorOK(cw, ch, cluster, labels.parent)
    requires forall p {:trigger InBox(Origin(n, c), n, p)} :: !InBox(Origin(n, c), n, p) ==> (p in open <==> p in open')
    modifies labels
    ensures LocalOK(n, cw, ch, open', mark', cluster') && InteriorOK(cw, ch, cluster', labels.parent)
  {
    hide ClusterLabels, AdjacencyOK, Origin, Detached, InteriorOK, None, OwnLabels, SameElsewhere;
    ghost var was := labels.parent;
    assert open <= mark.Keys && n >= 2 && n % 2 == 0;
    hide LabelsOK;
    var cluster1 := DetachAll(n, cw, ch, open, mark, cluster, c);
    ClusterSizes(n, cw, ch, open, mark, cluster1, c);
    hide LocalOK;
    var cl;
    mark', cl := BuildClumps(n, open', mark, cluster1[c], c, labels);
    assert open' <= mark'.Keys by {
      forall p | p in open' ensures p in mark' {
        assert InBox(Origin(n, c), n, p) || p in open;
      }
    }
    assert SameOutside(n, open, mark, open', mark', c);
    hide SameOutside;
    LabelsAfterChange(n, cw, ch, open, mark, open', mark', cluster1, cl, c);
    var cluster2 := cluster1[c := cl];
    DetachedKept(n, cw, ch, open, mark, open', mark', cluster1, cluster2, c);
    cluster' := Reconnect(n, cw, ch, open', mark', cluster2, c);
    forall b | b != c && b in cluster'
      ensures b in cluster && cluster'[b].numEdge == cluster[b].numEdge && cluster'[b].numClumps == cluster[b].numClumps
    {
      assert b in cluster2 && b in cluster1;
    }
    assert c in cluster' && cluster'[c].numEdge == cl.numEdge && cluster'[c].numClumps == cl.numClumps;
    InteriorAfter(cw, ch, cluster, cluster', c, was, labels.parent);
  }

  // ---------------------------------------------------------------- building from a map

  predicate Within(w: nat, h: nat, p: Pt) {
    0 <= p.x < w && 0 <= p.y < h
  }

  ghost predicate OpenInput(solid: seq<int>, w: nat, h: nat, p: Pt)
    requires |solid| == w * h
  {
    Within(w, h, p) && (CellIndex(w, h, p.x, p.y); solid[p.y * w + p.x] == 0)
  }

  lemma CellIndex(w: nat, h: nat, x: int, y: int)
    requires 0 <= x < w && 0 <= y < h
    ensures 0 <= y * w + x < w * h
  {
    RowMajor(y, x, y, x, w, h);
  }

  /** Row by row, the input bytes say which squares are open. */
  lemma InputByIndex(solid: seq<int>, w: nat, h: nat, open: set<Pt>)
    requires |solid| == w * h && forall p {:trigger p in open} :: p in open <==> OpenInput(solid, w, h, p)
    ensures forall p {:trigger p in open} :: p in open ==> 0 <= p.x < w && 0 <= p.y < h
    ensures forall k {:trigger solid[k]} :: 0 <= k < |solid| && w > 0 ==> (Pt(k % w, k / w) in open <==> solid[k] == 0)
  {
    forall k {:trigger solid[k]} | 0 <= k < |solid| && w > 0
      ensures Pt(k % w, k / w) in open <==> solid[k] == 0
    {
      RowOf(k, w, h);
    }
  }

  lemma RowOf(k: nat, w: nat, h: nat)
    requires w > 0 && k < w * h
    ensures 0 <= k % w < w && 0 <= k / w < h && k / w * w + k % w == k
  {
    var q := k / w;
    assert k == q * w + k % w;
    MulOrder(h, q, w);
  }

  lemma MulOrder(a: nat, b: nat, w: nat)
    ensures a <= b ==> a * w <= b * w
  {
  }

  /** Collects the squares whose input byte is zero. */
  method ReadMap(solid: seq<int>, w: nat, h: nat) returns (open: set<Pt>)
    requires |solid| == w * h
    ensures forall p {:trigger p in open} :: p in open <==> OpenInput(solid, w, h, p)
  {
    open := {};
    for j := 0 to h
      invariant forall p {:trigger p in open} :: p in open <==> OpenInput(solid, w, h, p) && p.y < j
    {
      for i := 0 to w
        invariant forall p {:trigger p in open} :: p in open <==> OpenInput(solid, w, h, p) && Earlier(i, j, p)
      {
        CellIndex(w, h, i, j);
        if solid[j * w + i] == 0 {
          open := open + {Pt(i, j)};
        }
      }
    }
  }

  lemma OnMapBounds(n: nat, cw: nat, ch: nat, p: Pt)
    requires n > 0
    ensures OnMap(n, cw, ch, p) <==> Within(cw * n, ch * n, p)
  {
    AxisBounds(n, cw, p.x);
    AxisBounds(n, ch, p.y);
  }

  lemma AxisBounds(n: nat, m: nat, x: int)
    requires n > 0
    ensures 0 <= x / n < m <==> 0 <= x < m * n
  {
    var q := x / n;
    DivBox(n, x, q);
    if q < 0 {
      MulGap(q, 0, n);
    } else if q < m {
      assert q * n >= 0;
      MulGap(q, m, n);
    } else if q > m {
      MulGap(m, q, n);
    }
  }

  ghost predicate LabelledSoFar(n: nat, cw: nat, ch: nat, open: set<Pt>, mark: map<Pt, nat>, cluster: Clusters, i: int,
                                j: int) {
    forall c {:trigger c in cluster} {:trigger InGrid(cw, ch, c)} :: InGrid(cw, ch, c) ==>
      && c in cluster && |cluster[c].storage| == 4 * n && |cluster[c].clump| == None(n)
      && (Earlier(i, j, c) ==> ClusterLabels(n, open, mark, cluster[c], c))
  }

  ghost predicate InteriorSoFar(cw: nat, ch: nat, cluster: Clusters, parent: map<ClumpId, ClumpId>, i: int, j: int) {
    forall g: ClumpId {:trigger g in parent} ::
      (InGrid(cw, ch, g.c) && g.c in cluster && Earlier(i, j, g.c) &&
      cluster[g.c].numEdge <= g.k < cluster[g.c].numClumps) ==>
      g in parent && parent[g] == g
  }

  /** Labels cluster (i, j) while the clusters before it are labelled already. */
  method LabelNext(n: nat, cw: nat, ch: nat, open: set<Pt>, mark: map<Pt, nat>, cluster: Clusters,
                   labels: Forest<ClumpId>, i: nat, j: nat)
    returns (mark': map<Pt, nat>, cluster': Clusters)
    requires n >= 2 && n % 2 == 0 && open <= mark.Keys && i < cw && j < ch
    requires LabelledSoFar(n, cw, ch, open, mark, cluster, i, j) && InteriorSoFar(cw, ch, cluster, labels.parent, i, j)
    modifies labels
    ensures open <= mark'.Keys
    ensures LabelledSoFar(n, cw, ch, open, mark', cluster', i + 1, j) &&
            InteriorSoFar(cw, ch, cluster', labels.parent, i + 1, j)
  {
    ghost var was := labels.parent;
    var c := Pt(i, j);
    assert InGrid(cw, ch, c);
    hide ClusterLabels, Origin;
    var cl;
    mark', cl := BuildClumps(n, open, mark, cluster[c], c, labels);
    assert open <= mark'.Keys by {
      forall p | p in open ensures p in mark' {
        assert InBox(Origin(n, c), n, p) || p in mark;
      }
    }
    assert SameOutside(n, open, mark, open, mark', c);
    cluster' := cluster[c := cl];
    LabelledNext(n, cw, ch, open, mark, mark', cluster, cl, i, j);
    forall g: ClumpId | g.c != c && g in was ensures g in labels.parent && labels.parent[g] == was[g] {
    }
    InteriorNext(cw, ch, cluster, cl, was, labels.parent, i, j);
  }

  lemma InteriorNext(cw: nat, ch: nat, cluster: Clusters, cl: Cluster, was: map<ClumpId, ClumpId>,
                     parent: map<ClumpId, ClumpId>, i: nat, j: nat)
    requires InteriorSoFar(cw, ch, cluster, was, i, j)
    requires forall g: ClumpId {:trigger g in parent} :: g.c != Pt(i, j) && g in was ==>
               g in parent && parent[g] == was[g]
    requires forall g: ClumpId {:trigger g in parent} :: g.c == Pt(i, j) && cl.numEdge <= g.k < cl.numClumps ==>
               g in parent && parent[g] == g
    ensures InteriorSoFar(cw, ch, cluster[Pt(i, j) := cl], parent, i + 1, j)
  {
    var cluster' := cluster[Pt(i, j) := cl];
    forall g: ClumpId | InGrid(cw, ch, g.c) && g.c in cluster' && Earlier(i + 1, j, g.c) &&
      cluster'[g.c].numEdge <= g.k < cluster'[g.c].numClumps
      ensures g in parent && parent[g] == g
    {
      assert g.c != Pt(i, j) ==> g in was;
    }
  }

  lemma LabelledNext(n: nat, cw: nat, ch: nat, open: set<Pt>, mark: map<Pt, nat>, mark': map<Pt, nat>,
                     cluster: Clusters, cl: Cluster, i: nat, j: nat)
    requires n >= 2 && LabelledSoFar(n, cw, ch, open, mark, cluster, i, j) &&
             SameOutside(n, open, mark, open, mark', Pt(i, j))
    requires ClusterLabels(n, open, mark', cl, Pt(i, j))
    ensures LabelledSoFar(n, cw, ch, open, mark', cluster[Pt(i, j) := cl], i + 1, j)
  {
    hide SameOutside, Origin, Labelled;
    var cluster' := cluster[Pt(i, j) := cl];
    forall b | InGrid(cw, ch, b)
      ensures b in cluster' && |cluster'[b].storage| == 4 * n && |cluster'[b].clump| == None(n)
      ensures Earlier(i + 1, j, b) ==> ClusterLabels(n, open, mark', cluster'[b], b)
    {
      if Earlier(i, j, b) {
        OtherLabels(n, open, mark, open, mark', cluster[b], b, Pt(i, j));
      }
    }
  }

  /** Labels all clusters of a fresh grid. */
  method LabelAll(n: nat, cw: nat, ch: nat, open: set<Pt>, mark0: map<Pt, nat>, cluster0: Clusters,
                  labels: Forest<ClumpId>)
    returns (mark: map<Pt, nat>, cluster: Clusters)
    requires n >= 2 && n % 2 == 0 && open <= mark0.Keys && LabelledSoFar(n, cw, ch, open, mark0, cluster0, 0, 0)
    requires forall p {:trigger p in open} :: p in open ==> InGrid(cw, ch, ClusterOf(n, p))
    modifies labels
    ensures LabelsOK(n, cw, ch, open, mark, cluster) && InteriorOK(cw, ch, cluster, labels.parent)
  {
    hide ClusterLabels;
    mark, cluster := mark0, cluster0;
    for j := 0 to ch
      invariant open <= mark.Keys && LabelledSoFar(n, cw, ch, open, mark, cluster, 0, j)
      invariant InteriorSoFar(cw, ch, cluster, labels.parent, 0, j)
    {
      for i := 0 to cw
        invariant open <= mark.Keys && LabelledSoFar(n, cw, ch, open, mark, cluster, i, j)
        invariant InteriorSoFar(cw, ch, cluster, labels.parent, i, j)
      {
        mark, cluster := LabelNext(n, cw, ch, open, mark, cluster, labels, i, j);
      }
    }
  }

  ghost predicate ListedSoFar(n: nat, cw: nat, ch: nat, open: set<Pt>, mark: map<Pt, nat>, cluster: Clusters, i: int,
                              j: int)
    requires open <= mark.Keys
  {
    forall c {:trigger c in cluster} :: InGrid(cw, ch, c) && c in cluster && Earlier(i, j, c) ==>
      ListsOK(n, open, mark, cluster[c], c)
  }

  lemma BlankStart(n: nat, cw: nat, ch: nat, solid: seq<int>, open: set<Pt>, mark: map<Pt, nat>, cluster: Clusters,
                   empty: Cluster)
    requires ClusterSize(n) && |solid| == (cw * n) * (ch * n)
    requires forall p {:trigger p in open} :: p in open <==> OpenInput(solid, cw * n, ch * n, p)
    requires forall p {:trigger p in mark} :: Within(cw * n, ch * n, p) ==> p in mark
    requires forall c {:trigger c in cluster} :: InGrid(cw, ch, c) ==> c in cluster && cluster[c] == empty
    requires |empty.storage| == 4 * n && |empty.clump| == None(n)
    ensures open <= mark.Keys && LabelledSoFar(n, cw, ch, open, mark, cluster, 0, 0)
    ensures forall p {:trigger p in open} :: p in open ==> InGrid(cw, ch, ClusterOf(n, p))
  {
    forall p | p in open ensures InGrid(cw, ch, ClusterOf(n, p)) {
      OnMapBounds(n, cw, ch, p);
    }
    hide ClusterLabels;
    forall c | InGrid(cw, ch, c)
      ensures c in cluster && |cluster[c].storage| == 4 * n && |cluster[c].clump| == None(n) && !Earlier(0, 0, c)
    {
      assert c in cluster;
    }
  }

  /** Lays out the lists of all clusters of a freshly labelled grid. */
  method ListAll(n: nat, cw: nat, ch: nat, open: set<Pt>, mark: map<Pt, nat>, cluster0: Clusters)
    returns (cluster: Clusters)
    requires LabelsOK(n, cw, ch, open, mark, cluster0)
    ensures LocalOK(n, cw, ch, open, mark, cluster) && SameCounts(cluster0, cluster)
  {
    assert open <= mark.Keys && n % 2 == 0;
    hide LabelsOK, ListsOK, Origin, ListedSoFar, SameCounts;
    cluster := cluster0;
    ListedBounds(n, cw, ch, open, mark, cluster, 0);
    SameCountsSelf(cluster);
    for j := 0 to ch
      invariant LabelsOK(n, cw, ch, open, mark, cluster) && SameCounts(cluster0, cluster)
      invariant ListedSoFar(n, cw, ch, open, mark, cluster, 0, j)
    {
      for i := 0 to cw
        invariant LabelsOK(n, cw, ch, open, mark, cluster) && SameCounts(cluster0, cluster)
        invariant ListedSoFar(n, cw, ch, open, mark, cluster, i, j)
      {
        ghost var before := cluster;
        cluster := ListNext(n, cw, ch, open, mark, cluster, Pt(i, j));
        ListedNext(n, cw, ch, open, mark, before, cluster, i, j);
        SameCountsTwice(cluster0, before, cluster);
      }
      ListedBounds(n, cw, ch, open, mark, cluster, j);
    }
    ListedBounds(n, cw, ch, open, mark, cluster, ch);
  }

  /** Nothing is listed at first, a row is complete at its end, and after the last row so is the grid. */
  lemma ListedBounds(n: nat, cw: nat, ch: nat, open: set<Pt>, mark: map<Pt, nat>, cluster: Clusters, j: nat)
    requires open <= mark.Keys
    ensures ListedSoFar(n, cw, ch, open, mark, cluster, 0, 0)
    ensures ListedSoFar(n, cw, ch, open, mark, cluster, cw, j) ==> ListedSoFar(n, cw, ch, open, mark, cluster, 0, j + 1)
    ensures ListedSoFar(n, cw, ch, open, mark, cluster, 0, ch) ==> AdjacencyOK(n, cw, ch, open, mark, cluster)
  {
    hide ListsOK;
  }

  lemma ListedNext(n: nat, cw: nat, ch: nat, open: set<Pt>, mark: map<Pt, nat>, cluster: Clusters, cluster': Clusters,
                   i: nat, j: nat)
    requires open <= mark.Keys && ListedSoFar(n, cw, ch, open, mark, cluster, i, j) && cluster'.Keys == cluster.Keys
    requires forall b :: b in cluster && b != Pt(i, j) ==> cluster'[b] == cluster[b]
    requires Pt(i, j) in cluster' && ListsOK(n, open, mark, cluster'[Pt(i, j)], Pt(i, j))
    ensures ListedSoFar(n, cw, ch, open, mark, cluster', i + 1, j)
  {
    hide ListsOK;
  }

  lemma SameCountsSelf(a: Clusters)
    ensures SameCounts(a, a)
  {
  }

  lemma SameCountsTwice(a: Clusters, b: Clusters, c: Clusters)
    requires SameCounts(a, b) && SameCounts(b, c)
    ensures SameCounts(a, c)
  {
  }

  method ListNext(n: nat, cw: nat, ch: nat, open: set<Pt>, mark: map<Pt, nat>, cluster: Clusters, c: Pt)
    returns (cluster': Clusters)
    requires LabelsOK(n, cw, ch, open, mark, cluster) && InGrid(cw, ch, c)
    ensures LabelsOK(n, cw, ch, open, mark, cluster') && SameCounts(cluster, cluster') && open <= mark.Keys
    ensures c in cluster' && ListsOK(n, open, mark, cluster'[c], c) && forall b :: b in cluster && b != c ==>
              cluster'[b] == cluster[b]
  {
    ClusterSizes(n, cw, ch, open, mark, cluster, c);
    LabelsGiveBorder(n, cw, ch, open, mark, cluster, c);
    assert n % 2 == 0 && open <= mark.Keys;
    hide LabelsOK, Border, Holds, Origin, None;
    var cl := BuildAllConnections(n, cluster[c], open, mark, Origin(n, c), cw, ch, c);
    ShapeKeepsLabels(n, cw, ch, open, mark, cluster, c, cl);
    cluster' := cluster[c := cl];
    assert cluster'.Keys == cluster.Keys;
  }

  lemma InteriorCounts(cw: nat, ch: nat, cluster: Clusters, cluster': Clusters, parent: map<ClumpId, ClumpId>)
    requires InteriorOK(cw, ch, cluster, parent) && SameCounts(cluster, cluster')
    ensures InteriorOK(cw, ch, cluster', parent)
  {
  }

  // ---------------------------------------------------------------- the grid object

  /** One call of the public interface. */
  datatype Op = Set(p: Pt, solid: bool) | BatchBegin | BatchEnd

  /** The open squares after one call. */
  function Apply(open: set<Pt>, op: Op): set<Pt> {
    match op
    case Set(p, solid) => if solid then open - {p} else open + {p}
    case _ => open
  }

  /** The open squares after a whole run of calls. */
  function ApplyAll(open: set<Pt>, ops: seq<Op>): set<Pt> {
    if ops == [] then open else Apply(ApplyAll(open, ops[..|ops| - 1]), ops[|ops| - 1])
  }

  /** Call i is the last one that sets p. */
  ghost predicate LastSet(ops: seq<Op>, p: Pt, i: int) {
    0 <= i < |ops| && ops[i].Set? && ops[i].p == p && forall j :: i < j < |ops| && ops[j].Set? ==> ops[j].p != p
  }

  ghost predicate NeverSet(ops: seq<Op>, p: Pt) {
    forall j :: 0 <= j < |ops| && ops[j].Set? ==> ops[j].p != p
  }

  /** A square is open as its last setting says, or as it was if nothing set it. */
  lemma {:induction false} LastSetDecides(open: set<Pt>, ops: seq<Op>, p: Pt)
    ensures p in ApplyAll(open, ops) <==>
            (exists i :: LastSet(ops, p, i) && !ops[i].solid) || (NeverSet(ops, p) && p in open)
    decreases |ops|
  {
    if ops != [] {
      var m := |ops| - 1;
      var before := ops[..m];
      LastSetDecides(open, before, p);
      if ops[m].Set? && ops[m].p == p {
        assert LastSet(ops, p, m);
        forall i | LastSet(ops, p, i) ensures i == m {
        }
      } else {
        forall i ensures LastSet(ops, p, i) <==> LastSet(before, p, i) {
        }
        assert NeverSet(ops, p) <==> NeverSet(before, p);
      }
    }
  }

  /** Whether a batch is open after a run of calls. */
  function InBatchAfter(inBatch: bool, ops: seq<Op>): bool {
    if ops == [] then inBatch
    else match ops[|ops| - 1]
      case Set(_, _) => InBatchAfter(inBatch, ops[..|ops| - 1])
      case BatchBegin => true
      case BatchEnd => false
  }

  /** A batch is open if the last call that begins or ends one begins one, or as before if there is none. */
  lemma {:induction false} LastBatchDecides(inBatch: bool, ops: seq<Op>)
    ensures InBatchAfter(inBatch, ops) <==>
            (exists i :: LastBatch(ops, i) && ops[i] == BatchBegin) ||
            ((forall j :: 0 <= j < |ops| ==> ops[j].Set?) && inBatch)
    decreases |ops|
  {
    if ops != [] {
      var m := |ops| - 1;
      var before := ops[..m];
      LastBatchDecides(inBatch, before);
      if ops[m].Set? {
        forall i ensures LastBatch(ops, i) <==> LastBatch(before, i) {
        }
        assert (forall j :: 0 <= j < |ops| ==> ops[j].Set?) <==> forall j :: 0 <= j < |before| ==> before[j].Set?;
      } else {
        assert LastBatch(ops, m);
      }
    }
  }

  ghost predicate LastBatch(ops: seq<Op>, i: int) {
    0 <= i < |ops| && !ops[i].Set? && forall j :: i < j < |ops| ==> ops[j].Set?
  }

  /** Batches are not nested, only open ones are ended, and updates stay on the map. */
  ghost predicate Legal(n: nat, cw: nat, ch: nat, inBatch: bool, ops: seq<Op>)
    requires n > 0
  {
    forall i {:trigger ops[i]} :: 0 <= i < |ops| ==>
      match ops[i]
      case Set(p, _) => OnMap(n, cw, ch, p)
      case BatchBegin => !InBatchAfter(inBatch, ops[..i])
      case BatchEnd => InBatchAfter(inBatch, ops[..i])
  }

  class Grid {
    const n: nat
    const cw: nat
    const ch: nat
    const labels: Forest<ClumpId>
    var open: set<Pt>
    var mark: map<Pt, nat>
    var cluster: Clusters
    var inBatch: bool

    /** Labels and lists always match the map; outside a batch the global labels do too. */
    ghost predicate Valid()
      reads this, labels
    {
      && ClusterSize(n)
      && LocalOK(n, cw, ch, open, mark, cluster)
      && InteriorOK(cw, ch, cluster, labels.parent)
      && (!inBatch ==> GlobalOK(n, open, mark, labels.parent))
    }

    /** Builds the grid from a map of w * h bytes in which zero means traversable. */
    constructor (n: nat, cw: nat, ch: nat, solid: seq<int>)
      requires ClusterSize(n) && |solid| == (cw * n) * (ch * n)
      ensures Valid() && !inBatch && this.n == n && this.cw == cw && this.ch == ch && fresh(labels)
      ensures forall p {:trigger p in open} :: p in open <==> OpenInput(solid, cw * n, ch * n, p)
      ensures forall p {:trigger p in open} :: p in open ==> 0 <= p.x < cw * n && 0 <= p.y < ch * n
      ensures forall k {:trigger solid[k]} :: 0 <= k < |solid| && cw * n > 0 ==>
                (Pt(k % (cw * n), k / (cw * n)) in open <==> solid[k] == 0)
    {
      var f := new Forest();
      var squares := ReadMap(solid, cw * n, ch * n);
      var blank: map<Pt, nat> := map x, y | 0 <= x < cw * n && 0 <= y < ch * n :: Pt(x, y) := 0;
      var empty := Cluster(0, 0, true, seq(None(n), _ => Clump(0, 0, 0)), seq(4 * n, _ => Rel(0, 0, 0)));
      var none: Clusters := map x, y | 0 <= x < cw && 0 <= y < ch :: Pt(x, y) := empty;
      BlankStart(n, cw, ch, solid, squares, blank, none, empty);
      InputByIndex(solid, cw * n, ch * n, squares);
      hide LocalOK, InteriorOK, GlobalOK, LabelsOK, LabelledSoFar, OpenInput;
      var marks, clusters := LabelAll(n, cw, ch, squares, blank, none, f);
      var listed := ListAll(n, cw, ch, squares, marks, clusters);
      InteriorCounts(cw, ch, clusters, listed, f.parent);
      ConnectClumps(n, cw, ch, squares, marks, listed, f);
      this.n, this.cw, this.ch, labels := n, cw, ch, f;
      open, mark, cluster, inBatch := squares, marks, listed, false;
    }

    /** Opens or closes one square. */
    method Update(p: Pt, solid: bool)
      requires Valid() && OnMap(n, cw, ch, p)
      modifies this`open, this`mark, this`cluster, labels
      ensures Valid() && open == Apply(old(open), Set(p, solid))
      ensures p in open <==> !solid
      ensures forall q :: q != p ==> (q in open <==> q in old(open))
    {
      hide LocalOK, InteriorOK, GlobalOK;
      if solid {
        if p !in open {
          return;
        }
      } else {
        if p in open {
          return;
        }
      }
      var c := ClusterOf(n, p);
      BoxOf(n, c, p);
      var open' := if solid then open - {p} else open + {p};
      mark, cluster := ChangeCluster(n, cw, ch, open, mark, cluster, c, open', labels);
      open := open';
      if !inBatch {
        ConnectClumps(n, cw, ch, open, mark, cluster, labels);
      }
    }

    method BatchBegin()
      requires Valid() && !inBatch
      modifies this`inBatch
      ensures Valid() && inBatch
    {
      inBatch := true;
    }

    method BatchEnd()
      requires Valid() && inBatch
      modifies this`inBatch, labels
      ensures Valid() && !inBatch
    {
      hide LocalOK, InteriorOK, GlobalOK;
      inBatch := false;
      ConnectClumps(n, cw, ch, open, mark, cluster, labels);
    }

    /** Any legal run of updates and batches: the grid follows the map and stays ready for queries. */
    method Run(ops: seq<Op>)
      requires Valid() && Legal(n, cw, ch, inBatch, ops)
      modifies this`open, this`mark, this`cluster, this`inBatch, labels
      ensures Valid() && open == ApplyAll(old(open), ops) && inBatch == InBatchAfter(old(inBatch), ops)
      ensures forall p :: p in open <==>
                (exists i :: LastSet(ops, p, i) && !ops[i].solid) || (NeverSet(ops, p) && p in old(open))
      ensures inBatch <==> (exists i :: LastBatch(ops, i) && ops[i] == Op.BatchBegin) ||
                           ((forall j :: 0 <= j < |ops| ==> ops[j].Set?) && old(inBatch))
    {
      hide LocalOK, InteriorOK, GlobalOK;
      for i := 0 to |ops|
        invariant Valid() && open == ApplyAll(old(open), ops[..i]) && inBatch == InBatchAfter(old(inBatch), ops[..i])
      {
        assert ops[..i + 1][..i] == ops[..i] && ops[..i + 1][i] == ops[i];
        match ops[i]
        case Set(p, solid) => Update(p, solid);
        case BatchBegin => BatchBegin();
        case BatchEnd => BatchEnd();
      }
      assert ops[..|ops|] == ops;
      forall p ensures p in open <==>
                         (exists i :: LastSet(ops, p, i) && !ops[i].solid) || (NeverSet(ops, p) && p in old(open)) {
        LastSetDecides(old(open), ops, p);
      }
      LastBatchDecides(old(inBatch), ops);
    }

    /** A label shared by exactly the squares reachable from p; closed squares have none. */
    method UniqueId(p: Pt) returns (found: bool, id: ClumpId)
      requires Valid() && !inBatch && OnMap(n, cw, ch, p)
      ensures found <==> p in open
      ensures found ==> forall q {:trigger Joined(open, p, q)} :: q in open ==>
                (Joined(open, p, q) <==> labels.parent[IdOf(n, mark, q)] == id)
    {
      MarkOf(n, cw, ch, open, mark, cluster, p);
      hide LocalOK, Joined;
      if mark[p] == None(n) {
        return false, ClumpId(Pt(0, 0), 0);
      }
      return true, labels.parent[IdOf(n, mark, p)];
    }

    /** Answers 1 exactly when both squares are open and a path of open squares joins them. */
    method Query(p: Pt, q: Pt) returns (r: int)
      requires Valid() && !inBatch && OnMap(n, cw, ch, p) && OnMap(n, cw, ch, q)
      ensures r == if Joined(open, p, q) then 1 else 0
    {
      assert Joined(open, p, q) ==> p in open && q in open;
      hide Joined;
      MarkOf(n, cw, ch, open, mark, cluster, p);
      MarkOf(n, cw, ch, open, mark, cluster, q);
      hide LocalOK;
      if mark[p] == None(n) || mark[q] == None(n) {
        return 0;
      }
      if labels.parent[IdOf(n, mark, p)] == labels.parent[IdOf(n, mark, q)] {
        return 1;
      }
      return 0;
    }
  }

  /** Offsets, slice lengths and counts stay inside the fixed-width fields that hold them. */
  lemma FieldsFit(n: nat, cw: nat, ch: nat, open: set<Pt>, mark: map<Pt, nat>, cluster: Clusters, c: Pt, k: nat)
    requires ClusterSize(n) && LocalOK(n, cw, ch, open, mark, cluster) && InGrid(cw, ch, c) && k < cluster[c].numEdge
    ensures cluster[c].numEdge < 256 && cluster[c].numClumps <= 2048 && None(n) < 65536 && k < |cluster[c].clump|
    ensures cluster[c].clump[k].start < 256 && cluster[c].clump[k].maxAdj < 256
    ensures cluster[c].clump[k].start + cluster[c].clump[k].numAdj <= |cluster[c].storage|
    ensures cw <= 1024 && ch <= 1024 ==> 0 <= c.x < 1024 && 0 <= c.y < 1024
  {
    hide Labelled;
    assert ClusterLabels(n, open, mark, cluster[c], c) && ListsOK(n, open, mark, cluster[c], c);
    assert SliceOK(n, cluster[c], k);
  }

  lemma MarkOf(n: nat, cw: nat, ch: nat, open: set<Pt>, mark: map<Pt, nat>, cluster: Clusters, p: Pt)
    requires LocalOK(n, cw, ch, open, mark, cluster) && OnMap(n, cw, ch, p)
    ensures p in mark && (mark[p] == None(n) <==> p !in open)
  {
    var c := ClusterOf(n, p);
    BoxOf(n, c, p);
    assert ClusterLabels(n, open, mark, cluster[c], c);
    hide Origin;
  }

  /** The 32-bit form of a label: 12 bits for the clump and 10 for each cluster coordinate. */
  function LabelWord(g: ClumpId): nat {
    g.k % 4096 + 4096 * (g.c.x % 1024 + 1024 * (g.c.y % 1024))
  }

  /** An id some clump of the grid can have. */
  predicate PossibleId(n: nat, cw: nat, ch: nat, g: ClumpId) {
    InGrid(cw, ch, g.c) && g.k < None(n)
  }

  lemma WordIsId(n: nat, cw: nat, ch: nat, a: ClumpId, b: ClumpId)
    requires ClusterSize(n) && cw <= 1024 && ch <= 1024 && PossibleId(n, cw, ch, a) && PossibleId(n, cw, ch, b)
    ensures LabelWord(a) == LabelWord(b) <==> a == b
    ensures LabelWord(a) < 0xFFFF_FFFF
  {
    hide None, ClusterSize, LabelWord;
    ClumpCount(n);
    WordOfSmall(a);
    WordOfSmall(b);
    if LabelWord(a) == LabelWord(b) {
      SameDigits12(a.k, a.c.x + 1024 * a.c.y, b.k, b.c.x + 1024 * b.c.y);
      SameDigits10(a.c.x, a.c.y, b.c.x, b.c.y);
    }
  }

  lemma SameDigits12(a: int, u: int, b: int, v: int)
    requires 0 <= a < 4096 && 0 <= b < 4096 && a + 4096 * u == b + 4096 * v
    ensures a == b && u == v
  {
  }

  lemma SameDigits10(a: int, u: int, b: int, v: int)
    requires 0 <= a < 1024 && 0 <= b < 1024 && a + 1024 * u == b + 1024 * v
    ensures a == b && u == v
  {
  }

  lemma ClumpCount(n: nat)
    requires ClusterSize(n)
    ensures 0 < None(n) <= 2048
  {
  }

  lemma WordOfSmall(g: ClumpId)
    requires g.k < 4096 && 0 <= g.c.x < 1024 && 0 <= g.c.y < 1024
    ensures LabelWord(g) == g.k + 4096 * (g.c.x + 1024 * g.c.y)
  {
  }

  /** Different ids of the grid have different words. */
  ghost predicate WordsApart(n: nat, cw: nat, ch: nat) {
    forall a, b {:trigger LabelWord(a), LabelWord(b)} ::
      PossibleId(n, cw, ch, a) && PossibleId(n, cw, ch, b) && LabelWord(a) == LabelWord(b) ==> a == b
  }

  /** Beyond 1024 clusters two ids share their word. */
  lemma WordsClash(n: nat, cw: nat, ch: nat) returns (a: ClumpId, b: ClumpId)
    requires ClusterSize(n) && cw > 0 && ch > 0 && (cw > 1024 || ch > 1024)
    ensures PossibleId(n, cw, ch, a) && PossibleId(n, cw, ch, b) && LabelWord(a) == LabelWord(b) && a != b
  {
    hide None;
    ClumpCount(n);
    a := ClumpId(Pt(0, 0), 0);
    b := ClumpId(if cw > 1024 then Pt(1024, 0) else Pt(0, 1024), 0);
  }

  /** Comparing labels as words is comparing labels exactly if the grid has at most 1024 clusters each way. */
  lemma WordsDecideLabels(n: nat, cw: nat, ch: nat)
    requires ClusterSize(n) && cw > 0 && ch > 0
    ensures WordsApart(n, cw, ch) <==> cw <= 1024 && ch <= 1024
  {
    hide LabelWord, PossibleId, ClusterSize;
    if cw <= 1024 && ch <= 1024 {
      forall a, b {:trigger LabelWord(a), LabelWord(b)}
        | PossibleId(n, cw, ch, a) && PossibleId(n, cw, ch, b) && LabelWord(a) == LabelWord(b)
        ensures a == b
      {
        WordIsId(n, cw, ch, a, b);
      }
    } else {
      var a, b := WordsClash(n, cw, ch);
    }
  }
}
