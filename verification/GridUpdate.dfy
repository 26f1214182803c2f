/**
  Incremental maintenance of the adjacency lists while one cluster changes: the
  neighbours first drop their entries for that cluster, the cluster is labelled
  and laid out again, and the neighbours then add entries for the new clumps.
 */
module GridUpdate {
  import opened GridPaths
  import opened ClusterClumps
  import opened ClumpAdjacency
  import opened ClumpGraph

  /** The other three directions. */
  ghost function Others(d: Pt): (r: seq<Pt>)
    requires IsDir(d)
    ensures d !in r && forall i :: 0 <= i < |r| ==> IsDir(r[i])
  {
    if d == EAST then [WEST, NORTH, SOUTH]
    else if d == WEST then [EAST, NORTH, SOUTH]
    else if d == NORTH then [EAST, WEST, SOUTH]
    else [EAST, WEST, NORTH]
  }

  function Back(c: Pt, d: Pt): Pt { Pt(c.x - d.x, c.y - d.y) }

  /** The lists cluster b should hold when its entries for c are missing if c lies in one of the directions gone. */
  ghost function Want(n: nat, open: set<Pt>, mark: map<Pt, nat>, numEdge: nat, b: Pt, c: Pt,
                      gone: set<Pt>): seq<set<Rel>>
    requires open <= mark.Keys
  {
    var d := Back(c, b);
    if d in gone && IsDir(d) then Chain(open, mark, Origin(n, b), n, numEdge, Others(d))
    else AllNeighbours(open, mark, Origin(n, b), n, numEdge)
  }

  ghost predicate WantOK(n: nat, open: set<Pt>, mark: map<Pt, nat>, cl: Cluster, b: Pt, c: Pt, gone: set<Pt>)
    requires open <= mark.Keys
  {
    !cl.rebuild && Holds(n, cl, Want(n, open, mark, cl.numEdge, b, c, gone))
  }

  /** All clusters, c itself only if withC, hold the wanted lists. */
  ghost predicate Detached(n: nat, cw: nat, ch: nat, open: set<Pt>, mark: map<Pt, nat>, cluster: Clusters, c: Pt,
                           gone: set<Pt>, withC: bool)
    requires open <= mark.Keys
  {
    forall b {:trigger b in cluster} :: InGrid(cw, ch, b) && b in cluster && (b != c || withC) ==>
      WantOK(n, open, mark, cluster[b], b, c, gone)
  }

  /** Full lists are the lists of three sides plus the fourth, and dropping the fourth gives the three back. */
  lemma ThreePlusOne(open: set<Pt>, mark: map<Pt, nat>, o: Pt, n: nat, numEdge: nat, d: Pt)
    requires open <= mark.Keys && IsDir(d)
    ensures Free(Chain(open, mark, o, n, numEdge, Others(d)), d)
    ensures Plus(Chain(open, mark, o, n, numEdge, Others(d)), open, mark, o, n, d, n) ==
            AllNeighbours(open, mark, o, n, numEdge)
    ensures Minus(AllNeighbours(open, mark, o, n, numEdge), open, mark, o, n, d, n) ==
            Chain(open, mark, o, n, numEdge, Others(d))
    ensures forall k {:trigger AllNeighbours(open, mark, o, n, numEdge)[k]} :: 0 <= k < numEdge ==>
              Touches(open, mark, o, n, d, n, k) <= AllNeighbours(open, mark, o, n, numEdge)[k]
  {
    var three, all := Chain(open, mark, o, n, numEdge, Others(d)), AllNeighbours(open, mark, o, n, numEdge);
    ChainFree(open, mark, o, n, numEdge, Others(d), d);
    ChainNext(open, mark, o, n, numEdge, Others(d), d);
    hide Touches, Neighbours;
    var four := Plus(three, open, mark, o, n, d, n);
    forall k | 0 <= k < numEdge
      ensures four[k] == all[k] && Minus(all, open, mark, o, n, d, n)[k] == three[k] &&
              Touches(open, mark, o, n, d, n, k) <= all[k]
    {
      ChainNeighbours(open, mark, o, n, numEdge, Others(d) + [d], k);
      hide Chain;
      FreeTouches(three, open, mark, o, n, d, k);
    }
  }

  lemma FreeTouches(base: seq<set<Rel>>, open: set<Pt>, mark: map<Pt, nat>, o: Pt, n: nat, d: Pt, k: nat)
    requires open <= mark.Keys && Free(base, d) && k < |base|
    ensures base[k] !! Touches(open, mark, o, n, d, n, k)
  {
  }

  lemma ShapeKeepsLabels(n: nat, cw: nat, ch: nat, open: set<Pt>, mark: map<Pt, nat>, cluster: Clusters, b: Pt,
                         cl: Cluster)
    requires LabelsOK(n, cw, ch, open, mark, cluster) && b in cluster
    requires cl.numEdge == cluster[b].numEdge && cl.numClumps == cluster[b].numClumps
    requires |cl.clump| == |cluster[b].clump| && |cl.storage| == |cluster[b].storage|
    ensures LabelsOK(n, cw, ch, open, mark, cluster[b := cl])
  {
    hide Labelled, Origin;
    forall c | InGrid(cw, ch, c) ensures c in cluster[b := cl] && ClusterLabels(n, open, mark, cluster[b := cl][c], c) {
      assert ClusterLabels(n, open, mark, cluster[c], c);
    }
  }

  lemma DetachedAfter(n: nat, cw: nat, ch: nat, open: set<Pt>, mark: map<Pt, nat>, cluster: Clusters, c: Pt, d: Pt,
                      cl: Cluster, gone: set<Pt>, gone': set<Pt>, withC: bool)
    requires open <= mark.Keys && Detached(n, cw, ch, open, mark, cluster, c, gone, withC)
    requires Back(c, d) in cluster && gone - {d} == gone' - {d}
    requires WantOK(n, open, mark, cl, Back(c, d), c, gone')
    ensures Detached(n, cw, ch, open, mark, cluster[Back(c, d) := cl], c, gone', withC)
  {
    hide Holds, Chain, AllNeighbours;
    var cluster' := cluster[Back(c, d) := cl];
    forall b | InGrid(cw, ch, b) && b in cluster' && (b != c || withC)
      ensures WantOK(n, open, mark, cluster'[b], b, c, gone')
    {
      if b != Back(c, d) {
        assert WantOK(n, open, mark, cluster[b], b, c, gone);
        assert Back(c, b) != d;
        assert Back(c, b) in gone <==> Back(c, b) in gone - {d};
        assert Back(c, b) in gone' <==> Back(c, b) in gone' - {d};
      }
    }
  }

  lemma DetachedSame(n: nat, cw: nat, ch: nat, open: set<Pt>, mark: map<Pt, nat>, cluster: Clusters, c: Pt, d: Pt,
                     gone: set<Pt>, gone': set<Pt>, withC: bool)
    requires open <= mark.Keys && Detached(n, cw, ch, open, mark, cluster, c, gone, withC)
    requires !InGrid(cw, ch, Back(c, d)) && gone - {d} == gone' - {d}
    ensures Detached(n, cw, ch, open, mark, cluster, c, gone', withC)
  {
    hide Holds, Chain, AllNeighbours;
    forall b | InGrid(cw, ch, b) && b in cluster && (b != c || withC)
      ensures WantOK(n, open, mark, cluster[b], b, c, gone')
    {
      assert WantOK(n, open, mark, cluster[b], b, c, gone);
      assert Back(c, b) != d;
      assert Back(c, b) in gone <==> Back(c, b) in gone - {d};
      assert Back(c, b) in gone' <==> Back(c, b) in gone' - {d};
    }
  }

  /** The cluster whose neighbour in direction d is c drops its entries for c. */
  method Detach(n: nat, cw: nat, ch: nat, open: set<Pt>, mark: map<Pt, nat>, cluster: Clusters, c: Pt, d: Pt,
                ghost gone: set<Pt>)
    returns (cluster': Clusters)
    requires LabelsOK(n, cw, ch, open, mark, cluster) && InGrid(cw, ch, c) && IsDir(d) && d !in gone
    requires Detached(n, cw, ch, open, mark, cluster, c, gone, true)
    ensures LabelsOK(n, cw, ch, open, mark, cluster')
    ensures Detached(n, cw, ch, open, mark, cluster', c, gone + {d}, true)
    ensures c in cluster && cluster'.Keys == cluster.Keys && cluster'[c] == cluster[c]
    ensures forall b {:trigger b in cluster'} :: b in cluster ==>
              cluster'[b].numEdge == cluster[b].numEdge && cluster'[b].numClumps == cluster[b].numClumps
  {
    var b := Back(c, d);
    cluster' := cluster;
    if !InGrid(cw, ch, b) {
      DetachedSame(n, cw, ch, open, mark, cluster, c, d, gone, gone + {d}, true);
      return;
    }
    LabelsGiveSide(n, cw, ch, open, mark, cluster, b, d);
    assert Back(c, b) == d;
    assert WantOK(n, open, mark, cluster[b], b, c, gone);
    hide LabelsOK, Detached, Holds, Chain, Touches;
    ghost var all := AllNeighbours(open, mark, Origin(n, b), n, cluster[b].numEdge);
    ThreePlusOne(open, mark, Origin(n, b), n, cluster[b].numEdge, d);
    hide AllNeighbours;
    var cl := RemoveSide(n, cluster[b], open, mark, Origin(n, b), d, all);
    ShapeKeepsLabels(n, cw, ch, open, mark, cluster, b, cl);
    DetachedAfter(n, cw, ch, open, mark, cluster, c, d, cl, gone, gone + {d}, true);
    cluster' := cluster[b := cl];
  }

  lemma ClusterSizes(n: nat, cw: nat, ch: nat, open: set<Pt>, mark: map<Pt, nat>, cluster: Clusters, b: Pt)
    requires LabelsOK(n, cw, ch, open, mark, cluster) && InGrid(cw, ch, b)
    ensures b in cluster && |cluster[b].storage| == 4 * n && |cluster[b].clump| == None(n)
    ensures cluster[b].numEdge <= 2 * n - 2 && cluster[b].numEdge <= |cluster[b].clump|
  {
    assert ClusterLabels(n, open, mark, cluster[b], b);
  }

  lemma LabelsMarks(n: nat, cw: nat, ch: nat, open: set<Pt>, mark: map<Pt, nat>, cluster: Clusters)
    requires LabelsOK(n, cw, ch, open, mark, cluster)
    ensures n % 2 == 0 && open <= mark.Keys
  {
  }

  lemma DetachedHere(n: nat, cw: nat, ch: nat, open: set<Pt>, mark: map<Pt, nat>, cluster: Clusters, c: Pt,
                     gone: set<Pt>, b: Pt)
    requires open <= mark.Keys && Detached(n, cw, ch, open, mark, cluster, c, gone, true)
    requires InGrid(cw, ch, b) && b in cluster
    ensures WantOK(n, open, mark, cluster[b], b, c, gone)
  {
    hide WantOK;
  }

  /** Adds the entries of one side; lists that do not fit are laid out again. */
  method AddWithRebuild(n: nat, cl0: Cluster, open: set<Pt>, mark: map<Pt, nat>, o: Pt, cw: nat, ch: nat, b: Pt, d: Pt)
    returns (cl: Cluster)
    requires open <= mark.Keys && n % 2 == 0 && IsDir(d) && !cl0.rebuild
    requires SideOK(open, mark, o, n, cw, ch, b, d, cl0.numEdge) && Border(open, mark, o, n, cw, ch, b, cl0.numEdge)
    requires Holds(n, cl0, Chain(open, mark, o, n, cl0.numEdge, Others(d)))
    requires |cl0.storage| == 4 * n && cl0.numEdge <= |cl0.clump| && cl0.numEdge <= 2 * n - 2
    ensures !cl.rebuild && Holds(n, cl, AllNeighbours(open, mark, o, n, cl0.numEdge))
    ensures cl.numEdge == cl0.numEdge && cl.numClumps == cl0.numClumps
    ensures |cl.clump| == |cl0.clump| && |cl.storage| == |cl0.storage|
  {
    hide Holds, Chain, SideOK, TooLong, AllNeighbours, Border, Free, Plus, IsDir, Touches;
    ThreePlusOne(open, mark, o, n, cl0.numEdge, d);
    cl := AddConnections(n, cl0, open, mark, o, cw, ch, b, d, Chain(open, mark, o, n, cl0.numEdge, Others(d)));
    if cl.rebuild {
      cl := BuildAllConnections(n, cl, open, mark, o, cw, ch, b);
    }
  }

  /** The cluster whose neighbour in direction d is c adds entries for c, and is laid out again if they do not fit. */
  method Attach(n: nat, cw: nat, ch: nat, open: set<Pt>, mark: map<Pt, nat>, cluster: Clusters, c: Pt, d: Pt,
                ghost gone: set<Pt>)
    returns (cluster': Clusters)
    requires LabelsOK(n, cw, ch, open, mark, cluster) && InGrid(cw, ch, c) && IsDir(d) && d in gone
    requires Detached(n, cw, ch, open, mark, cluster, c, gone, true)
    ensures LabelsOK(n, cw, ch, open, mark, cluster')
    ensures Detached(n, cw, ch, open, mark, cluster', c, gone - {d}, true)
    ensures cluster'.Keys == cluster.Keys
    ensures forall b {:trigger b in cluster'} :: b in cluster ==>
              cluster'[b].numEdge == cluster[b].numEdge && cluster'[b].numClumps == cluster[b].numClumps
  {
    hide LabelsOK, Holds, Chain, Touches, SideOK, Border, AllNeighbours, Detached, Origin;
    LabelsMarks(n, cw, ch, open, mark, cluster);
    var b := Back(c, d);
    cluster' := cluster;
    if !InGrid(cw, ch, b) {
      DetachedSame(n, cw, ch, open, mark, cluster, c, d, gone, gone - {d}, true);
      return;
    }
    ClusterSizes(n, cw, ch, open, mark, cluster, b);
    LabelsGiveSide(n, cw, ch, open, mark, cluster, b, d);
    LabelsGiveBorder(n, cw, ch, open, mark, cluster, b);
    assert Back(c, b) == d;
    DetachedHere(n, cw, ch, open, mark, cluster, c, gone, b);
    var cl := AddWithRebuild(n, cluster[b], open, mark, Origin(n, b), cw, ch, b, d);
    ShapeKeepsLabels(n, cw, ch, open, mark, cluster, b, cl);
    DetachedAfter(n, cw, ch, open, mark, cluster, c, d, cl, gone, gone - {d}, true);
    cluster' := cluster[b := cl];
  }

  // ---------------------------------------------------------------- changing one cluster

  /** Nothing changed outside the box of cluster c. */
  ghost predicate SameOutside(n: nat, open: set<Pt>, mark: map<Pt, nat>, open': set<Pt>, mark': map<Pt, nat>, c: Pt) {
    open <= mark.Keys && open' <= mark'.Keys &&
    forall p {:trigger InBox(Origin(n, c), n, p)} :: !InBox(Origin(n, c), n, p) ==>
      && (p in open <==> p in open')
      && (p in mark <==> p in mark') && (p in mark ==> mark[p] == mark'[p])
  }

  /** Boxes of different clusters share no square. */
  lemma BoxesApart(n: nat, b: Pt, c: Pt, p: Pt)
    requires n > 0 && b != c && InBox(Origin(n, b), n, p)
    ensures !InBox(Origin(n, c), n, p)
  {
    BoxOf(n, b, p);
    BoxOf(n, c, p);
  }

  /** What cluster b touches in direction d does not change unless the change is in b or beyond that side. */
  lemma TouchesKept(n: nat, open: set<Pt>, mark: map<Pt, nat>, open': set<Pt>, mark': map<Pt, nat>, b: Pt, c: Pt, d: Pt,
                    src: nat)
    requires n >= 2 && SameOutside(n, open, mark, open', mark', c) && IsDir(d) && b != c && Across(b, d) != c
    ensures Touches(open, mark, Origin(n, b), n, d, n, src) == Touches(open', mark', Origin(n, b), n, d, n, src)
  {
    hide Origin;
    forall k | 0 <= k < n
      ensures SameAt(open, mark, open', mark', SideCell(Origin(n, b), n, d, k))
      ensures SameAt(open, mark, open', mark', Across(SideCell(Origin(n, b), n, d, k), d))
    {
      SideGeometry(n, b, d, k);
      BoxesApart(n, b, c, SideCell(Origin(n, b), n, d, k));
      BoxesApart(n, Across(b, d), c, Across(SideCell(Origin(n, b), n, d, k), d));
    }
    TouchesFrame(open, mark, open', mark', Origin(n, b), n, d, n, src);
  }

  lemma {:induction false} ChainKept(n: nat, open: set<Pt>, mark: map<Pt, nat>, open': set<Pt>, mark': map<Pt, nat>,
                                     b: Pt, c: Pt, numEdge: nat, ds: seq<Pt>)
    requires n >= 2 && SameOutside(n, open, mark, open', mark', c) && b != c
    requires forall i :: 0 <= i < |ds| ==> IsDir(ds[i]) && Across(b, ds[i]) != c
    ensures Chain(open, mark, Origin(n, b), n, numEdge, ds) == Chain(open', mark', Origin(n, b), n, numEdge, ds)
    decreases |ds|
  {
    if ds != [] {
      hide Origin, SameOutside;
      assert open <= mark.Keys && open' <= mark'.Keys by { SameOutsideKeys(n, open, mark, open', mark', c); }
      var d := ds[|ds| - 1];
      ChainKept(n, open, mark, open', mark', b, c, numEdge, ds[..|ds| - 1]);
      var base := Chain(open, mark, Origin(n, b), n, numEdge, ds[..|ds| - 1]);
      forall k | 0 <= k < numEdge
        ensures Plus(base, open, mark, Origin(n, b), n, d, n)[k] == Plus(base, open', mark', Origin(n, b), n, d, n)[k]
      {
        TouchesKept(n, open, mark, open', mark', b, c, d, k);
      }
    }
  }

  lemma SameOutsideKeys(n: nat, open: set<Pt>, mark: map<Pt, nat>, open': set<Pt>, mark': map<Pt, nat>, c: Pt)
    requires SameOutside(n, open, mark, open', mark', c)
    ensures open <= mark.Keys && open' <= mark'.Keys
  {
  }

  const AROUND := {EAST, WEST, NORTH, SOUTH}

  /** With the entries for c gone everywhere, no other cluster notices a change inside c. */
  lemma WantKept(n: nat, open: set<Pt>, mark: map<Pt, nat>, open': set<Pt>, mark': map<Pt, nat>, b: Pt, c: Pt,
                 numEdge: nat)
    requires n >= 2 && SameOutside(n, open, mark, open', mark', c) && b != c
    ensures Want(n, open, mark, numEdge, b, c, AROUND) == Want(n, open', mark', numEdge, b, c, AROUND)
  {
    SameOutsideKeys(n, open, mark, open', mark', c);
    hide SameOutside, Origin, Chain;
    var d := Back(c, b);
    if IsDir(d) {
      ChainKept(n, open, mark, open', mark', b, c, numEdge, Others(d));
    } else {
      forall i | 0 <= i < 4 ensures Across(b, ADD_ORDER[i]) != c {
        assert Across(b, ADD_ORDER[i]) == c ==> Back(c, b) == ADD_ORDER[i];
      }
      ChainKept(n, open, mark, open', mark', b, c, numEdge, ADD_ORDER);
      ChainAll(open, mark, Origin(n, b), n, numEdge);
      ChainAll(open', mark', Origin(n, b), n, numEdge);
    }
  }

  lemma DetachedKept(n: nat, cw: nat, ch: nat, open: set<Pt>, mark: map<Pt, nat>, open': set<Pt>, mark': map<Pt, nat>,
                     cluster: Clusters, cluster': Clusters, c: Pt)
    requires n >= 2 && SameOutside(n, open, mark, open', mark', c)
    requires open <= mark.Keys && open' <= mark'.Keys && Detached(n, cw, ch, open, mark, cluster, c, AROUND, true)
    requires forall b {:trigger b in cluster'} :: b != c && b in cluster' ==> b in cluster && cluster'[b] == cluster[b]
    ensures Detached(n, cw, ch, open', mark', cluster', c, AROUND, false)
  {
    hide SameOutside, Holds, Want;
    forall b | InGrid(cw, ch, b) && b in cluster' && b != c ensures WantOK(n, open', mark', cluster'[b], b, c, AROUND) {
      assert WantOK(n, open, mark, cluster[b], b, c, AROUND);
      WantKept(n, open, mark, open', mark', b, c, cluster[b].numEdge);
    }
  }

  /** A labelling only speaks about the squares of its box. */
  lemma LabelledKept(open: set<Pt>, open': set<Pt>, o: Pt, n: nat, none: nat, mark: map<Pt, nat>, mark': map<Pt, nat>,
                     numEdge: nat, numClumps: nat)
    requires Labelled(open, o, n, none, mark, numEdge, numClumps)
    requires forall p {:trigger InBox(o, n, p)} :: InBox(o, n, p) ==>
               (p in open <==> p in open') && p in mark' && (p in mark ==> mark'[p] == mark[p])
    ensures Labelled(open', o, n, none, mark', numEdge, numClumps)
  {
    hide Joined;
    assert Room(open, o, n) == Room(open', o, n);
    forall k: nat | k < numClumps ensures Inhabited(open', o, n, mark', numEdge, k) {
      assert Inhabited(open, o, n, mark, numEdge, k);
      var p :| p in open && InBox(o, n, p) && p in mark && mark[p] == k && (k < numEdge ==> OnEdge(o, n, p));
      assert p in open' && p in mark' && mark'[p] == k;
    }
  }

  /** After relabelling cluster c all clusters are labelled correctly for the changed map. */
  lemma LabelsAfterChange(n: nat, cw: nat, ch: nat, open: set<Pt>, mark: map<Pt, nat>, open': set<Pt>,
                          mark': map<Pt, nat>, cluster: Clusters, cl: Cluster, c: Pt)
    requires LabelsOK(n, cw, ch, open, mark, cluster) && InGrid(cw, ch, c)
    requires SameOutside(n, open, mark, open', mark', c) && ClusterLabels(n, open', mark', cl, c)
    ensures LabelsOK(n, cw, ch, open', mark', cluster[c := cl])
  {
    hide Labelled;
    forall p | p in open' ensures InGrid(cw, ch, ClusterOf(n, p)) {
      BoxOf(n, c, p);
      assert p in open || ClusterOf(n, p) == c;
    }
    forall b | InGrid(cw, ch, b)
      ensures b in cluster[c := cl] && ClusterLabels(n, open', mark', cluster[c := cl][b], b)
    {
      if b != c {
        assert ClusterLabels(n, open, mark, cluster[b], b);
        OtherLabels(n, open, mark, open', mark', cluster[b], b, c);
      }
    }
  }

  lemma OtherLabels(n: nat, open: set<Pt>, mark: map<Pt, nat>, open': set<Pt>, mark': map<Pt, nat>, cl: Cluster, b: Pt,
                    c: Pt)
    requires n >= 2 && SameOutside(n, open, mark, open', mark', c) && b != c && ClusterLabels(n, open, mark, cl, b)
    ensures ClusterLabels(n, open', mark', cl, b)
  {
    hide Origin;
    forall p | InBox(Origin(n, b), n, p)
      ensures (p in open <==> p in open') && p in mark' && (p in mark ==> mark'[p] == mark[p])
    {
      BoxesApart(n, b, c, p);
    }
    LabelledKept(open, open', Origin(n, b), n, None(n), mark, mark', cl.numEdge, cl.numClumps);
  }
}
