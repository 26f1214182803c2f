/**
  Labelling of one cluster: the squares of an n-by-n box are split into clumps,
  the components that are connected inside the box, numbered so that the clumps
  that reach the edge of the box come first.
 */
module ClusterClumps {
  import opened GridPaths
  import opened DisjointSets
  import Counting
  import opened Arith

  predicate InBox(o: Pt, n: nat, p: Pt) {
    o.x <= p.x < o.x + n && o.y <= p.y < o.y + n
  }

  predicate OnEdge(o: Pt, n: nat, p: Pt) {
    InBox(o, n, p) && (p.x == o.x || p.x == o.x + n - 1 || p.y == o.y || p.y == o.y + n - 1)
  }

  ghost function Box(o: Pt, n: nat): (b: set<Pt>)
    ensures forall p :: p in b <==> InBox(o, n, p)
  {
    set x, y | o.x <= x < o.x + n && o.y <= y < o.y + n :: Pt(x, y)
  }

  /** The open squares of the box. */
  ghost function Room(open: set<Pt>, o: Pt, n: nat): set<Pt> {
    set p | p in open && InBox(o, n, p)
  }

  function DownOf(p: Pt): Pt { Pt(p.x, p.y + 1) }
  function RightOf(p: Pt): Pt { Pt(p.x + 1, p.y) }

  // ---------------------------------------------------------------- classes

  /** Equal roots mean joined inside S, in both directions. */
  ghost predicate Classes(S: set<Pt>, rep: map<Pt, Pt>) {
    && S <= rep.Keys
    && forall p, q {:trigger Joined(S, p, q)} :: p in S && q in S ==> (rep[p] == rep[q] <==> Joined(S, p, q))
  }

  /** Squares outside S are their own roots, and S is closed under taking roots. */
  ghost predicate RootsStay(S: set<Pt>, rep: map<Pt, Pt>) {
    forall p {:trigger rep[p]} :: p in rep ==>
      && rep[p] in rep && rep[rep[p]] == rep[p]
      && (p in S <==> rep[p] in S)
      && (p !in S ==> rep[p] == p)
  }

  ghost predicate Linked(S: set<Pt>, rep: map<Pt, Pt>) {
    forall p {:trigger rep[p]} :: p in S && p in rep ==> Joined(S, p, rep[p])
  }

  lemma LinkedAfterUnion(S: set<Pt>, rep: map<Pt, Pt>, a: Pt, b: Pt)
    requires S <= rep.Keys && RootsStay(S, rep) && Linked(S, rep)
    requires a in S && b in S && Adjacent(a, b)
    ensures RootsStay(S, Moved(rep, rep[a], rep[b])) && Linked(S, Moved(rep, rep[a], rep[b]))
  {
    hide Joined;
    var rep' := Moved(rep, rep[a], rep[b]);
    forall p | p in S ensures Joined(S, p, rep'[p]) {
      if rep[p] == rep[a] {
        JoinedAcross(S, p, rep[a], a, b, rep[b]);
      }
    }
  }

  /** Once every adjacent pair shares a root, roots classify S exactly by connectivity. */
  lemma ClassesFromPairs(S: set<Pt>, rep: map<Pt, Pt>)
    requires S <= rep.Keys && Linked(S, rep)
    requires forall p {:trigger DownOf(p)} :: p in S && DownOf(p) in S ==> rep[p] == rep[DownOf(p)]
    requires forall p {:trigger RightOf(p)} :: p in S && RightOf(p) in S ==> rep[p] == rep[RightOf(p)]
    ensures Classes(S, rep)
  {
    forall a, b | a in S && b in S && Adjacent(a, b) ensures rep[a] == rep[b] {
      assert b == DownOf(a) || a == DownOf(b) || b == RightOf(a) || a == RightOf(b);
    }
    forall p, q | p in S && q in S ensures rep[p] == rep[q] <==> Joined(S, p, q) {
      if Joined(S, p, q) {
        ConstantOnJoined(S, rep, p, q);
      }
      if rep[p] == rep[q] {
        JoinedMeet(S, p, rep[p], q);
      }
    }
  }

  lemma ClassesAfterSwitch(S: set<Pt>, rep: map<Pt, Pt>, v: Pt)
    requires Classes(S, rep) && RootsStay(S, rep) && v in S && rep[v] != v
    ensures Classes(S, Moved(rep, rep[v], v)) && RootsStay(S, Moved(rep, rep[v], v))
  {
    hide Joined;
    var rep' := Moved(rep, rep[v], v);
    forall p, q | p in S && q in S ensures rep'[p] == rep'[q] <==> Joined(S, p, q) {
      assert rep[p] != v && rep[q] != v;
    }
  }

  // ---------------------------------------------------------------- joining neighbours

  ghost predicate Before(o: Pt, i: int, j: int, p: Pt) {
    p.y < o.y + j || (p.y == o.y + j && p.x < o.x + i)
  }

  ghost predicate DownDone(S: set<Pt>, rep: map<Pt, Pt>, o: Pt, i: int, j: int)
    requires S <= rep.Keys
  {
    forall p {:trigger DownOf(p)} :: p in S && DownOf(p) in S && Before(o, i, j, p) ==> rep[p] == rep[DownOf(p)]
  }

  ghost predicate RightDone(S: set<Pt>, rep: map<Pt, Pt>, o: Pt, i: int, j: int)
    requires S <= rep.Keys
  {
    forall p {:trigger RightOf(p)} :: p in S && RightOf(p) in S && Before(o, i, j, p) ==> rep[p] == rep[RightOf(p)]
  }

  /** Adds row j of the box to a forest that holds the rows above it. */
  method SingletonRow(f: Forest<Pt>, o: Pt, n: nat, j: nat)
    requires f.Valid() && j < n && forall p :: p in f.dom <==> InBox(o, n, p) && Before(o, 0, j, p)
    requires forall p :: p in f.rep ==> f.rep[p] == p
    modifies f
    ensures f.Valid() && forall p :: p in f.dom <==> InBox(o, n, p) && Before(o, 0, j + 1, p)
    ensures forall p :: p in f.rep ==> f.rep[p] == p
  {
    hide ForestOK;
    for i := 0 to n
      invariant f.Valid()
      invariant forall p :: p in f.dom <==> InBox(o, n, p) && Before(o, i, j, p)
      invariant forall p :: p in f.rep ==> f.rep[p] == p
    {
      f.MakeSet(Pt(o.x + i, o.y + j));
    }
  }

  /** A fresh forest in which every square of the box is its own root. */
  method Singletons(o: Pt, n: nat) returns (f: Forest<Pt>)
    ensures fresh(f) && f.Valid() && f.dom == Box(o, n)
    ensures forall p :: p in f.rep ==> f.rep[p] == p
  {
    hide ForestOK;
    f := new Forest();
    for j := 0 to n
      invariant fresh(f) && f.Valid()
      invariant forall p :: p in f.dom <==> InBox(o, n, p) && Before(o, 0, j, p)
      invariant forall p :: p in f.rep ==> f.rep[p] == p
    {
      SingletonRow(f, o, n, j);
    }
  }

  /** The forest on the box relates only squares that are joined inside it. */
  ghost predicate Joining(f: Forest<Pt>, open: set<Pt>, o: Pt, n: nat)
    reads f
  {
    && f.Valid() && f.dom == Box(o, n) && f.rep.Keys == Box(o, n)
    && RootsStay(Room(open, o, n), f.rep) && Linked(Room(open, o, n), f.rep)
  }

  /** Unites a and b when both are open. */
  method JoinPair(f: Forest<Pt>, open: set<Pt>, o: Pt, n: nat, a: Pt, b: Pt)
    requires Joining(f, open, o, n) && InBox(o, n, a) && InBox(o, n, b) && Adjacent(a, b)
    modifies f
    ensures Joining(f, open, o, n)
    ensures a in open && b in open ==> f.rep == Moved(old(f.rep), old(f.rep)[a], old(f.rep)[b])
    ensures !(a in open && b in open) ==> f.rep == old(f.rep)
  {
    if a in open && b in open {
      LinkedAfterUnion(Room(open, o, n), f.rep, a, b);
      f.Union(a, b);
    }
  }

  /** Joins every open square of row j with the open square below it. */
  method JoinDown(f: Forest<Pt>, open: set<Pt>, o: Pt, n: nat, j: nat)
    requires Joining(f, open, o, n) && j < n - 1
    requires DownDone(Room(open, o, n), f.rep, o, 0, j) && RightDone(Room(open, o, n), f.rep, o, 0, j)
    modifies f
    ensures Joining(f, open, o, n)
    ensures DownDone(Room(open, o, n), f.rep, o, 0, j + 1) && RightDone(Room(open, o, n), f.rep, o, 0, j)
  {
    hide RootsStay, Linked, ForestOK;
    ghost var S := Room(open, o, n);
    for i := 0 to n
      invariant Joining(f, open, o, n)
      invariant DownDone(S, f.rep, o, i, j) && RightDone(S, f.rep, o, 0, j)
    {
      JoinPair(f, open, o, n, Pt(o.x + i, o.y + j), Pt(o.x + i, o.y + j + 1));
    }
  }

  /** Joins every open square of row j with the open square to its right. */
  method JoinRight(f: Forest<Pt>, open: set<Pt>, o: Pt, n: nat, j: nat)
    requires Joining(f, open, o, n) && j < n
    requires DownDone(Room(open, o, n), f.rep, o, 0, j + 1) && RightDone(Room(open, o, n), f.rep, o, 0, j)
    modifies f
    ensures Joining(f, open, o, n)
    ensures DownDone(Room(open, o, n), f.rep, o, 0, j + 1) && RightDone(Room(open, o, n), f.rep, o, 0, j + 1)
  {
    hide RootsStay, Linked, ForestOK;
    ghost var S := Room(open, o, n);
    for i := 0 to n - 1
      invariant Joining(f, open, o, n)
      invariant DownDone(S, f.rep, o, 0, j + 1) && RightDone(S, f.rep, o, i, j)
    {
      JoinPair(f, open, o, n, Pt(o.x + i, o.y + j), Pt(o.x + i + 1, o.y + j));
    }
  }

  /** Unites every two open squares that touch inside the box. */
  method JoinNeighbours(f: Forest<Pt>, open: set<Pt>, o: Pt, n: nat)
    requires f.Valid() && f.dom == Box(o, n) && forall p :: p in f.rep ==> f.rep[p] == p
    modifies f
    ensures f.Valid() && f.dom == Box(o, n) && f.rep.Keys == Box(o, n)
    ensures Classes(Room(open, o, n), f.rep) && RootsStay(Room(open, o, n), f.rep)
  {
    hide Joined, NodeOK;
    ghost var S := Room(open, o, n);
    forall p | p in S ensures Joined(S, p, f.rep[p]) {
      JoinedRefl(S, p);
    }
    for j := 0 to n
      invariant Joining(f, open, o, n)
      invariant DownDone(S, f.rep, o, 0, j) && RightDone(S, f.rep, o, 0, j)
    {
      if j < n - 1 {
        JoinDown(f, open, o, n, j);
      }
      assert DownDone(S, f.rep, o, 0, j + 1);
      JoinRight(f, open, o, n, j);
    }
    ClassesFromPairs(S, f.rep);
  }

  // ---------------------------------------------------------------- numbering the clumps

  /** The forest on the box classifies the open squares by connectivity. */
  ghost predicate Classified(f: Forest<Pt>, open: set<Pt>, o: Pt, n: nat)
    reads f
  {
    && f.Valid() && f.dom == Box(o, n) && f.rep.Keys == Box(o, n)
    && Classes(Room(open, o, n), f.rep) && RootsStay(Room(open, o, n), f.rep)
  }

  /** The id of the square v was handed out to v itself. */
  ghost predicate Named(mark: map<Pt, nat>, owner: seq<Pt>, v: Pt) {
    v in mark && mark[v] < |owner| && owner[mark[v]] == v
  }

  /** Id k was handed out to the root owner[k]; every settled root has an id and settled closed squares have none. */
  ghost predicate Settled(S: set<Pt>, rep: map<Pt, Pt>, none: nat, mark: map<Pt, nat>, owner: seq<Pt>, done: set<Pt>) {
    && (forall k {:trigger owner[k]} :: 0 <= k < |owner| ==>
          && owner[k] in S && owner[k] in done && owner[k] in rep && rep[owner[k]] == owner[k]
          && owner[k] in mark && mark[owner[k]] == k)
    && (forall v {:trigger v in done} :: v in done ==>
          && v in rep
          && (v in S && rep[v] == v ==> Named(mark, owner, v))
          && (v !in S ==> v in mark && mark[v] == none))
  }

  ghost predicate EdgeState(S: set<Pt>, o: Pt, n: nat, rep: map<Pt, Pt>, none: nat,
                            mark: map<Pt, nat>, owner: seq<Pt>, done: set<Pt>)
  {
    && Settled(S, rep, none, mark, owner, done)
    && (forall v {:trigger v in done} :: v in done ==> OnEdge(o, n, v))
    && (forall v {:trigger rep[v]} :: v in done && v in S && v in rep ==> OnEdge(o, n, rep[v]))
    && (forall v {:trigger v in mark} :: OnEdge(o, n, v) ==> v in mark && (v !in S ==> mark[v] == none))
  }

  lemma EdgeStateSwitch(S: set<Pt>, o: Pt, n: nat, rep: map<Pt, Pt>, none: nat,
                        mark: map<Pt, nat>, owner: seq<Pt>, done: set<Pt>, v: Pt)
    requires EdgeState(S, o, n, rep, none, mark, owner, done) && RootsStay(S, rep)
    requires v in rep && v in S && v !in done && !OnEdge(o, n, rep[v])
    ensures EdgeState(S, o, n, Moved(rep, rep[v], v), none, mark, owner, done)
  {
  }

  lemma EdgeStateName(S: set<Pt>, o: Pt, n: nat, rep: map<Pt, Pt>, none: nat,
                      mark: map<Pt, nat>, owner: seq<Pt>, done: set<Pt>, v: Pt)
    requires EdgeState(S, o, n, rep, none, mark, owner, done)
    requires v in rep && v in S && v !in done && OnEdge(o, n, v) && rep[v] == v
    ensures EdgeState(S, o, n, rep, none, mark[v := |owner|], owner + [v], done + {v})
  {
  }

  lemma EdgeStateSkip(S: set<Pt>, o: Pt, n: nat, rep: map<Pt, Pt>, none: nat,
                      mark: map<Pt, nat>, owner: seq<Pt>, done: set<Pt>, v: Pt)
    requires EdgeState(S, o, n, rep, none, mark, owner, done)
    requires v in rep && OnEdge(o, n, v) && (v in S ==> OnEdge(o, n, rep[v]) && rep[v] != v)
    ensures EdgeState(S, o, n, rep, none, mark, owner, done + {v})
  {
    assert v in mark;
  }

  /** One square of the edge pass: a root gets the next id, an interior root is first replaced by this square. */
  method VisitEdgeSquare(f: Forest<Pt>, open: set<Pt>, o: Pt, n: nat, v: Pt, ghost none: nat,
                         mark: map<Pt, nat>, count: nat, ghost owner: seq<Pt>, ghost done: set<Pt>)
    returns (mark': map<Pt, nat>, count': nat, ghost owner': seq<Pt>)
    requires Classified(f, open, o, n) && OnEdge(o, n, v) && v !in done && count == |owner|
    requires EdgeState(Room(open, o, n), o, n, f.rep, none, mark, owner, done)
    modifies f
    ensures Classified(f, open, o, n) && count' == |owner'|
    ensures EdgeState(Room(open, o, n), o, n, f.rep, none, mark', owner', done + {v})
  {
    hide NodeOK, Classes, RootsStay, EdgeState;
    ghost var S := Room(open, o, n);
    mark', count', owner' := mark, count, owner;
    if v in open {
      var p := f.Find(v);
      if p == v {
        EdgeStateName(S, o, n, f.rep, none, mark, owner, done, v);
        mark', count', owner' := mark[v := count], count + 1, owner + [v];
      } else if !OnEdge(o, n, p) {
        EdgeStateSwitch(S, o, n, f.rep, none, mark, owner, done, v);
        ClassesAfterSwitch(S, f.rep, v);
        f.SwitchRoot(v, p);
        EdgeStateName(S, o, n, f.rep, none, mark, owner, done, v);
        mark', count', owner' := mark[v := count], count + 1, owner + [v];
      } else {
        EdgeStateSkip(S, o, n, f.rep, none, mark, owner, done, v);
      }
    } else {
      EdgeStateSkip(S, o, n, f.rep, none, mark, owner, done, v);
    }
  }

  /** Every square of the edge starts out with the id of a closed square. */
  method MarkEdgeClosed(o: Pt, n: nat, none: nat) returns (mark: map<Pt, nat>)
    ensures forall v :: OnEdge(o, n, v) ==> v in mark && mark[v] == none
  {
    mark := map[];
    for j := 0 to n
      invariant forall v :: OnEdge(o, n, v) && (v.x == o.x || v.x == o.x + n - 1) && v.y < o.y + j ==>
                  v in mark && mark[v] == none
    {
      mark := mark[Pt(o.x, o.y + j) := none][Pt(o.x + n - 1, o.y + j) := none];
    }
    for i := 0 to n
      invariant forall v :: OnEdge(o, n, v) && (v.x == o.x || v.x == o.x + n - 1) ==> v in mark && mark[v] == none
      invariant forall v :: OnEdge(o, n, v) && v.x < o.x + i ==> v in mark && mark[v] == none
    {
      mark := mark[Pt(o.x + i, o.y) := none][Pt(o.x + i, o.y + n - 1) := none];
    }
  }

  /** The edge pass over the left and right columns, top to bottom. */
  method MarkColumns(f: Forest<Pt>, open: set<Pt>, o: Pt, n: nat, none: nat, mark0: map<Pt, nat>)
    returns (mark: map<Pt, nat>, count: nat, ghost owner: seq<Pt>, ghost done: set<Pt>)
    requires Classified(f, open, o, n) && n >= 2
    requires EdgeState(Room(open, o, n), o, n, f.rep, none, mark0, [], {})
    modifies f
    ensures Classified(f, open, o, n) && count == |owner|
    ensures EdgeState(Room(open, o, n), o, n, f.rep, none, mark, owner, done)
    ensures forall v :: v in done <==> OnEdge(o, n, v) && (v.x == o.x || v.x == o.x + n - 1)
  {
    hide Classified, EdgeState;
    mark, count, owner, done := mark0, 0, [], {};
    for j := 0 to n
      invariant Classified(f, open, o, n) && count == |owner|
      invariant EdgeState(Room(open, o, n), o, n, f.rep, none, mark, owner, done)
      invariant forall v :: v in done <==> OnEdge(o, n, v) && (v.x == o.x || v.x == o.x + n - 1) && v.y < o.y + j
    {
      var left, right := Pt(o.x, o.y + j), Pt(o.x + n - 1, o.y + j);
      mark, count, owner := VisitEdgeSquare(f, open, o, n, left, none, mark, count, owner, done);
      done := done + {left};
      mark, count, owner := VisitEdgeSquare(f, open, o, n, right, none, mark, count, owner, done);
      done := done + {right};
    }
  }

  /** The edge pass over what remains of the top and bottom rows, left to right. */
  method MarkRows(f: Forest<Pt>, open: set<Pt>, o: Pt, n: nat, none: nat, mark0: map<Pt, nat>, count0: nat,
                  ghost owner0: seq<Pt>, ghost done0: set<Pt>)
    returns (mark: map<Pt, nat>, count: nat, ghost owner: seq<Pt>, ghost done: set<Pt>)
    requires Classified(f, open, o, n) && n >= 2 && count0 == |owner0|
    requires EdgeState(Room(open, o, n), o, n, f.rep, none, mark0, owner0, done0)
    requires forall v :: v in done0 <==> OnEdge(o, n, v) && (v.x == o.x || v.x == o.x + n - 1)
    modifies f
    ensures Classified(f, open, o, n) && count == |owner|
    ensures EdgeState(Room(open, o, n), o, n, f.rep, none, mark, owner, done)
    ensures forall v :: v in done <==> OnEdge(o, n, v)
  {
    hide Classified, EdgeState;
    mark, count, owner, done := mark0, count0, owner0, done0;
    for i := 1 to n - 1
      invariant Classified(f, open, o, n) && count == |owner|
      invariant EdgeState(Room(open, o, n), o, n, f.rep, none, mark, owner, done)
      invariant forall v :: v in done <==> OnEdge(o, n, v) && (v.x == o.x + n - 1 || v.x < o.x + i)
    {
      var top, bottom := Pt(o.x + i, o.y), Pt(o.x + i, o.y + n - 1);
      mark, count, owner := VisitEdgeSquare(f, open, o, n, top, none, mark, count, owner, done);
      done := done + {top};
      mark, count, owner := VisitEdgeSquare(f, open, o, n, bottom, none, mark, count, owner, done);
      done := done + {bottom};
    }
  }

  /** Ids below numEdge belong to edge squares, the others to interior ones. */
  ghost predicate EdgeFirst(o: Pt, n: nat, owner: seq<Pt>, numEdge: nat) {
    && numEdge <= |owner|
    && forall k {:trigger owner[k]} :: 0 <= k < |owner| ==> (k < numEdge <==> OnEdge(o, n, owner[k]))
  }

  lemma SettledName(S: set<Pt>, rep: map<Pt, Pt>, none: nat, mark: map<Pt, nat>, owner: seq<Pt>, done: set<Pt>, v: Pt)
    requires Settled(S, rep, none, mark, owner, done) && v in rep && v !in done && v in S && rep[v] == v
    ensures Settled(S, rep, none, mark[v := |owner|], owner + [v], done + {v})
  {
  }

  lemma SettledSkip(S: set<Pt>, rep: map<Pt, Pt>, none: nat, mark: map<Pt, nat>, owner: seq<Pt>, done: set<Pt>, v: Pt)
    requires Settled(S, rep, none, mark, owner, done) && v in rep && v !in done && (v in S ==> rep[v] != v)
    ensures v in S ==> Settled(S, rep, none, mark, owner, done + {v})
    ensures v !in S ==> Settled(S, rep, none, mark[v := none], owner, done + {v})
  {
  }

  /** One interior square: an open root gets the next id, a closed square the id of closed squares. */
  method VisitInterior(f: Forest<Pt>, open: set<Pt>, o: Pt, n: nat, none: nat, v: Pt, mark: map<Pt, nat>, count: nat,
                       ghost owner: seq<Pt>, ghost done: set<Pt>)
    returns (mark': map<Pt, nat>, count': nat, ghost owner': seq<Pt>)
    requires Classified(f, open, o, n) && count == |owner| && InBox(o, n, v) && v !in done
    requires Settled(Room(open, o, n), f.rep, none, mark, owner, done)
    ensures count' == |owner'| && (owner' == owner || owner' == owner + [v])
    ensures Settled(Room(open, o, n), f.rep, none, mark', owner', done + {v})
  {
    hide Classes, Settled;
    ghost var S := Room(open, o, n);
    mark', count', owner' := mark, count, owner;
    assert NodeOK(f.dom, f.parent, f.rep, f.dist, v);
    if f.parent[v] == v {
      if v in open {
        SettledName(S, f.rep, none, mark, owner, done, v);
        mark', count', owner' := mark[v := count], count + 1, owner + [v];
      } else {
        SettledSkip(S, f.rep, none, mark, owner, done, v);
        mark' := mark[v := none];
      }
    } else {
      SettledSkip(S, f.rep, none, mark, owner, done, v);
    }
  }

  /** The interior pass over row j. */
  method MarkInteriorRow(f: Forest<Pt>, open: set<Pt>, o: Pt, n: nat, none: nat, j: nat, mark0: map<Pt, nat>,
                         count0: nat, ghost owner0: seq<Pt>, ghost done0: set<Pt>, ghost numEdge: nat)
    returns (mark: map<Pt, nat>, count: nat, ghost owner: seq<Pt>, ghost done: set<Pt>)
    requires Classified(f, open, o, n) && 1 <= j < n - 1 && count0 == |owner0| && EdgeFirst(o, n, owner0, numEdge)
    requires Settled(Room(open, o, n), f.rep, none, mark0, owner0, done0)
    requires forall v :: v in done0 <==> InBox(o, n, v) && (OnEdge(o, n, v) || v.y < o.y + j)
    ensures count == |owner| && EdgeFirst(o, n, owner, numEdge)
    ensures Settled(Room(open, o, n), f.rep, none, mark, owner, done)
    ensures forall v :: v in done <==> InBox(o, n, v) && (OnEdge(o, n, v) || v.y < o.y + j + 1)
  {
    hide Classified, Settled;
    mark, count, owner, done := mark0, count0, owner0, done0;
    for i := 1 to n - 1
      invariant count == |owner| && EdgeFirst(o, n, owner, numEdge)
      invariant Settled(Room(open, o, n), f.rep, none, mark, owner, done)
      invariant forall v :: v in done <==> InBox(o, n, v) && (OnEdge(o, n, v) || Before(o, i, j, v))
    {
      var v := Pt(o.x + i, o.y + j);
      mark, count, owner := VisitInterior(f, open, o, n, none, v, mark, count, owner, done);
      done := done + {v};
    }
  }

  /** The interior pass over the squares that are not on the edge. */
  method MarkInterior(f: Forest<Pt>, open: set<Pt>, o: Pt, n: nat, none: nat, mark0: map<Pt, nat>, numEdge: nat,
                      ghost owner0: seq<Pt>, ghost done0: set<Pt>)
    returns (mark: map<Pt, nat>, count: nat, ghost owner: seq<Pt>)
    requires Classified(f, open, o, n) && n >= 2 && numEdge == |owner0|
    requires EdgeState(Room(open, o, n), o, n, f.rep, none, mark0, owner0, done0)
    requires forall v :: v in done0 <==> OnEdge(o, n, v)
    ensures count == |owner| && EdgeFirst(o, n, owner, numEdge)
    ensures Settled(Room(open, o, n), f.rep, none, mark, owner, Box(o, n))
  {
    ghost var done := done0;
    mark, count, owner := mark0, numEdge, owner0;
    assert EdgeFirst(o, n, owner, numEdge);
    hide Classified, Settled, EdgeFirst;
    for j := 1 to n - 1
      invariant count == |owner| && EdgeFirst(o, n, owner, numEdge)
      invariant Settled(Room(open, o, n), f.rep, none, mark, owner, done)
      invariant forall v :: v in done <==> InBox(o, n, v) && (OnEdge(o, n, v) || v.y < o.y + j)
    {
      mark, count, owner, done := MarkInteriorRow(f, open, o, n, none, j, mark, count, owner, done, numEdge);
    }
    assert done == Box(o, n);
  }

  /** Open squares up to column i of row j carry the id of their root. */
  ghost predicate Copied(S: set<Pt>, rep: map<Pt, Pt>, mark: map<Pt, nat>, o: Pt, i: int, j: int) {
    forall v {:trigger rep[v]} :: v in S && v in rep && Before(o, i, j, v) ==>
      v in mark && rep[v] in mark && mark[v] == mark[rep[v]]
  }

  lemma CopyId(S: set<Pt>, rep: map<Pt, Pt>, none: nat, mark: map<Pt, nat>, owner: seq<Pt>, done: set<Pt>,
               o: Pt, i: int, j: int, v: Pt)
    requires Settled(S, rep, none, mark, owner, done) && RootsStay(S, rep) && Copied(S, rep, mark, o, i, j)
    requires v in S && v in rep && rep[v] in done && v == Pt(o.x + i, o.y + j)
    ensures rep[v] in mark
    ensures rep[v] != v ==> Settled(S, rep, none, mark[v := mark[rep[v]]], owner, done)
    ensures rep[v] != v ==> Copied(S, rep, mark[v := mark[rep[v]]], o, i + 1, j)
    ensures rep[v] == v ==> Copied(S, rep, mark, o, i + 1, j)
  {
  }

  /** Gives the open squares of row j that are not roots the id of their root. */
  method MarkRestRow(f: Forest<Pt>, open: set<Pt>, o: Pt, n: nat, ghost none: nat, j: nat, mark0: map<Pt, nat>,
                     ghost owner: seq<Pt>)
    returns (mark: map<Pt, nat>)
    requires Classified(f, open, o, n) && j < n
    requires Settled(Room(open, o, n), f.rep, none, mark0, owner, Box(o, n))
    requires Copied(Room(open, o, n), f.rep, mark0, o, 0, j)
    modifies f`parent
    ensures Classified(f, open, o, n)
    ensures Settled(Room(open, o, n), f.rep, none, mark, owner, Box(o, n))
    ensures Copied(Room(open, o, n), f.rep, mark, o, 0, j + 1)
  {
    hide Classes, RootsStay, Settled, Copied, NodeOK;
    ghost var S, box := Room(open, o, n), Box(o, n);
    mark := mark0;
    for i := 0 to n
      invariant Classified(f, open, o, n)
      invariant Settled(S, f.rep, none, mark, owner, box)
      invariant Copied(S, f.rep, mark, o, i, j)
    {
      var v := Pt(o.x + i, o.y + j);
      RootInDomain(f, v);
      var p := f.Find(v);
      if v in open {
        CopyId(S, f.rep, none, mark, owner, box, o, i, j, v);
        if p != v {
          mark := mark[v := mark[p]];
        }
      } else {
        CopiedPastClosed(S, f.rep, mark, o, i, j);
      }
    }
    CopiedRow(S, f.rep, mark, o, n, j);
  }

  lemma RootInDomain(f: Forest<Pt>, v: Pt)
    requires f.Valid() && v in f.dom
    ensures f.rep[v] in f.dom
  {
    assert NodeOK(f.dom, f.parent, f.rep, f.dist, v);
  }

  lemma CopiedPastClosed(S: set<Pt>, rep: map<Pt, Pt>, mark: map<Pt, nat>, o: Pt, i: int, j: int)
    requires Copied(S, rep, mark, o, i, j) && Pt(o.x + i, o.y + j) !in S
    ensures Copied(S, rep, mark, o, i + 1, j)
  {
  }

  lemma CopiedRow(S: set<Pt>, rep: map<Pt, Pt>, mark: map<Pt, nat>, o: Pt, n: nat, j: int)
    requires Copied(S, rep, mark, o, n, j) && forall v :: v in S ==> InBox(o, n, v)
    ensures Copied(S, rep, mark, o, 0, j + 1)
  {
  }

  // ---------------------------------------------------------------- the finished labelling

  /** Some open square carries id k, and one on the edge if k is an edge id. */
  ghost predicate Inhabited(open: set<Pt>, o: Pt, n: nat, mark: map<Pt, nat>, numEdge: nat, k: nat) {
    exists p :: p in open && InBox(o, n, p) && p in mark && mark[p] == k && (k < numEdge ==> OnEdge(o, n, p))
  }

  /**
    Ids classify the open squares of the box by connectivity inside the box, they
    are dense from zero, clumps that reach the edge come first, and closed squares
    carry the id none.
   */
  ghost predicate Labelled(open: set<Pt>, o: Pt, n: nat, none: nat, mark: map<Pt, nat>, numEdge: nat, numClumps: nat) {
    && numEdge <= numClumps
    && (forall p {:trigger p in mark} {:trigger InBox(o, n, p)} :: InBox(o, n, p) ==>
          && p in mark
          && (p in open ==> mark[p] < numClumps)
          && (p !in open ==> mark[p] == none)
          && (p in open && OnEdge(o, n, p) ==> mark[p] < numEdge))
    && (forall p, q {:trigger Joined(Room(open, o, n), p, q)} ::
          p in Room(open, o, n) && q in Room(open, o, n) ==> (mark[p] == mark[q] <==> Joined(Room(open, o, n), p, q)))
    && (forall k: nat {:trigger Inhabited(open, o, n, mark, numEdge, k)} ::
          k < numClumps ==> Inhabited(open, o, n, mark, numEdge, k))
  }

  ghost predicate EdgeRoots(S: set<Pt>, o: Pt, n: nat, rep: map<Pt, Pt>) {
    forall v {:trigger rep[v]} :: v in S && v in rep && OnEdge(o, n, v) ==> OnEdge(o, n, rep[v])
  }

  lemma LabelledFromRoots(open: set<Pt>, o: Pt, n: nat, rep: map<Pt, Pt>, none: nat, mark: map<Pt, nat>,
                          owner: seq<Pt>, numEdge: nat)
    requires rep.Keys == Box(o, n) && Classes(Room(open, o, n), rep) && RootsStay(Room(open, o, n), rep)
    requires Settled(Room(open, o, n), rep, none, mark, owner, Box(o, n)) && EdgeFirst(o, n, owner, numEdge)
    requires Copied(Room(open, o, n), rep, mark, o, 0, n) && EdgeRoots(Room(open, o, n), o, n, rep)
    ensures Labelled(open, o, n, none, mark, numEdge, |owner|)
  {
    hide Joined;
    var S := Room(open, o, n);
    forall p | InBox(o, n, p)
      ensures p in mark && (p !in open ==> mark[p] == none)
      ensures p in open ==> Named(mark, owner, rep[p]) && mark[p] == mark[rep[p]]
      ensures p in open && OnEdge(o, n, p) ==> mark[p] < numEdge
    {
      assert p in Box(o, n);
      if p in open {
        assert p in S && rep[p] in S && rep[p] in Box(o, n);
        assert owner[mark[rep[p]]] == rep[p];
      }
    }
    forall p, q | p in S && q in S ensures mark[p] == mark[q] <==> Joined(S, p, q) {
      assert owner[mark[rep[p]]] == rep[p] && owner[mark[rep[q]]] == rep[q];
    }
    forall k: nat | k < |owner| ensures Inhabited(open, o, n, mark, numEdge, k) {
      var p := owner[k];
      assert p in open && InBox(o, n, p) && p in mark && mark[p] == k;
    }
  }

  /** The whole edge pass. */
  method MarkEdge(f: Forest<Pt>, open: set<Pt>, o: Pt, n: nat, none: nat)
    returns (mark: map<Pt, nat>, numEdge: nat, ghost owner: seq<Pt>, ghost done: set<Pt>)
    requires Classified(f, open, o, n) && n >= 2
    modifies f
    ensures Classified(f, open, o, n) && numEdge == |owner| && EdgeRoots(Room(open, o, n), o, n, f.rep)
    ensures EdgeState(Room(open, o, n), o, n, f.rep, none, mark, owner, done)
    ensures forall v :: v in done <==> OnEdge(o, n, v)
  {
    hide Classified;
    mark := MarkEdgeClosed(o, n, none);
    mark, numEdge, owner, done := MarkColumns(f, open, o, n, none, mark);
    mark, numEdge, owner, done := MarkRows(f, open, o, n, none, mark, numEdge, owner, done);
  }

  /** Gives every open square the id of its root. */
  method MarkRest(f: Forest<Pt>, open: set<Pt>, o: Pt, n: nat, ghost none: nat, mark0: map<Pt, nat>,
                  ghost owner: seq<Pt>)
    returns (mark: map<Pt, nat>)
    requires Classified(f, open, o, n)
    requires Settled(Room(open, o, n), f.rep, none, mark0, owner, Box(o, n))
    modifies f`parent
    ensures Classified(f, open, o, n)
    ensures Settled(Room(open, o, n), f.rep, none, mark, owner, Box(o, n)) &&
            Copied(Room(open, o, n), f.rep, mark, o, 0, n)
  {
    mark := mark0;
    assert Copied(Room(open, o, n), f.rep, mark, o, 0, 0);
    hide Classified, Settled, Copied;
    for j := 0 to n
      invariant Classified(f, open, o, n)
      invariant Settled(Room(open, o, n), f.rep, none, mark, owner, Box(o, n)) &&
                Copied(Room(open, o, n), f.rep, mark, o, 0, j)
    {
      mark := MarkRestRow(f, open, o, n, none, j, mark, owner);
    }
  }

  /** Labels the box from scratch; only the open squares inside the box play a part. */
  method LabelCluster(open: set<Pt>, o: Pt, n: nat, none: nat)
    returns (mark: map<Pt, nat>, numEdge: nat, numClumps: nat)
    requires n >= 2
    ensures Labelled(open, o, n, none, mark, numEdge, numClumps)
  {
    hide Classes, RootsStay, ForestOK, EdgeRoots, EdgeState, Settled, Copied, EdgeFirst, Labelled;
    var f := Singletons(o, n);
    JoinNeighbours(f, open, o, n);
    ghost var owner, done;
    mark, numEdge, owner, done := MarkEdge(f, open, o, n, none);
    mark, numClumps, owner := MarkInterior(f, open, o, n, none, mark, numEdge, owner, done);
    mark := MarkRest(f, open, o, n, none, mark, owner);
    LabelledFromRoots(open, o, n, f.rep, none, mark, owner, numEdge);
  }

  // ---------------------------------------------------------------- how many clumps there can be

  ghost function Member(open: set<Pt>, o: Pt, n: nat, mark: map<Pt, nat>, numEdge: nat, k: nat): (p: Pt)
    requires Inhabited(open, o, n, mark, numEdge, k)
    ensures p in open && InBox(o, n, p) && p in mark && mark[p] == k && (k < numEdge ==> OnEdge(o, n, p))
  {
    var p :| p in open && InBox(o, n, p) && p in mark && mark[p] == k && (k < numEdge ==> OnEdge(o, n, p));
    p
  }

  /** Squares of different clumps of one box neither coincide nor touch. */
  lemma ClumpsApart(open: set<Pt>, o: Pt, n: nat, none: nat, mark: map<Pt, nat>, numEdge: nat, numClumps: nat, p: Pt,
                    q: Pt)
    requires Labelled(open, o, n, none, mark, numEdge, numClumps)
    requires p in open && q in open && InBox(o, n, p) && InBox(o, n, q) && mark[p] != mark[q]
    ensures p != q && !Adjacent(p, q)
  {
    hide Joined;
    var S := Room(open, o, n);
    if Adjacent(p, q) {
      JoinedEdge(S, p, q);
    }
  }

  /** The edge of a box is covered by 2n-2 pairs of touching squares, numbered around the edge. */
  ghost function EdgePair(o: Pt, n: nat, p: Pt): int {
    if p.x == o.x then (p.y - o.y) / 2
    else if p.x == o.x + n - 1 then n / 2 + (p.y - o.y) / 2
    else if p.y == o.y then n + (p.x - o.x - 1) / 2
    else n + (n / 2 - 1) + (p.x - o.x - 1) / 2
  }

  lemma EdgePairTouch(o: Pt, n: nat, p: Pt, q: Pt)
    requires n % 2 == 0 && n >= 2 && OnEdge(o, n, p) && OnEdge(o, n, q)
    ensures 0 <= EdgePair(o, n, p) < 2 * n - 2
    ensures EdgePair(o, n, p) == EdgePair(o, n, q) ==> p == q || Adjacent(p, q)
  {
  }

  /** At most 2n-2 clumps reach the edge. */
  lemma EdgeClumpBound(open: set<Pt>, o: Pt, n: nat, none: nat, mark: map<Pt, nat>, numEdge: nat, numClumps: nat)
    requires Labelled(open, o, n, none, mark, numEdge, numClumps) && n % 2 == 0 && n >= 2
    ensures numEdge <= 2 * n - 2
  {
    hide Joined;
    forall k: nat | k < numClumps ensures Inhabited(open, o, n, mark, numEdge, k) {}
    hide Labelled, Inhabited;
    var owner := seq(numEdge, k requires 0 <= k < numEdge => Member(open, o, n, mark, numEdge, k));
    var pair := seq(numEdge, k requires 0 <= k < numEdge => EdgePair(o, n, owner[k]));
    forall k | 0 <= k < |pair| ensures 0 <= pair[k] < 2 * n - 2 {
      EdgePairTouch(o, n, owner[k], owner[k]);
    }
    forall k, l | 0 <= k < l < |pair| ensures pair[k] != pair[l] {
      EdgePairTouch(o, n, owner[k], owner[l]);
      ClumpsApart(open, o, n, none, mark, numEdge, numClumps, owner[k], owner[l]);
    }
    Counting.Pigeonhole(pair, 2 * n - 2);
  }

  /** The box is covered by n*(n/2) horizontal pairs of touching squares. */
  ghost function FlatPair(o: Pt, n: nat, p: Pt): int {
    (p.y - o.y) * (n / 2) + (p.x - o.x) / 2
  }

  lemma FlatPairTouch(o: Pt, n: nat, p: Pt, q: Pt)
    requires n % 2 == 0 && InBox(o, n, p) && InBox(o, n, q)
    ensures 0 <= FlatPair(o, n, p) < n * (n / 2)
    ensures FlatPair(o, n, p) == FlatPair(o, n, q) ==> p == q || Adjacent(p, q)
  {
    RowMajor(p.y - o.y, (p.x - o.x) / 2, q.y - o.y, (q.x - o.x) / 2, n / 2, n);
  }

  /** At most n*n/2 clumps fit a box, so no clump is numbered like a closed square. */
  lemma ClumpBound(open: set<Pt>, o: Pt, n: nat, none: nat, mark: map<Pt, nat>, numEdge: nat, numClumps: nat)
    requires Labelled(open, o, n, none, mark, numEdge, numClumps) && n % 2 == 0
    ensures numClumps <= n * (n / 2)
  {
    hide Joined;
    forall k: nat | k < numClumps ensures Inhabited(open, o, n, mark, numEdge, k) {}
    hide Labelled, Inhabited;
    var owner := seq(numClumps, k requires 0 <= k < numClumps => Member(open, o, n, mark, numEdge, k));
    var pair := seq(numClumps, k requires 0 <= k < numClumps => FlatPair(o, n, owner[k]));
    forall k | 0 <= k < |pair| ensures 0 <= pair[k] < n * (n / 2) {
      FlatPairTouch(o, n, owner[k], owner[k]);
    }
    forall k, l | 0 <= k < l < |pair| ensures pair[k] != pair[l] {
      FlatPairTouch(o, n, owner[k], owner[l]);
      ClumpsApart(open, o, n, none, mark, numEdge, numClumps, owner[k], owner[l]);
    }
    Counting.Pigeonhole(pair, n * (n / 2));
  }
}
