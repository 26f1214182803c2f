/**
 * The skyline rectangle packer of libs/stb/stb_rect_pack.h.
 */
module RectPack {
  import opened Arith
  import opened Skyline
  import opened NodeLists

  /** Larger than any usable height: the starting value of the search for the lowest position. */
  const BIG: int := 0x40000000
  /** Largest supported coordinate; marks rectangles that were not packed. */
  const MAXVAL: int := 0x7fffffff

  function AlignUp(w: nat, align: nat): (r: nat)
    requires align > 0
    ensures w <= r < w + align && r % align == 0
  {
    var v := w + align - 1;
    RoundDown(v, align);
    v - v % align
  }

  lemma RoundDown(v: nat, align: nat)
    requires align > 0
    ensures (v - v % align) % align == 0 && 0 <= v % align < align
  {
    var q := v / align;
    assert v - v % align == q * align + 0;
    Quotient(v - v % align, align, q, 0);
  }

  lemma AtLeastOne(w: nat, n: nat)
    requires w > 0 && n > 0
    ensures (w + n - 1) / n > 0
  {
    var v := w + n - 1;
    assert v == v / n * n + v % n;
  }

  lemma LevelZero(p: seq<Step>, x0: int)
    ensures Level(p, x0, 0) == 0
  {
  }

  /** One more step to the right: the level up to its start, and up to the next one's. */
  lemma LevelGrows(p: seq<Step>, width: int, height: int, x0: int, w: nat, j: nat, y: int)
    requires Rising(p, width, height) && 0 < w && x0 + w <= width && j < |p| && p[j].x < x0 + w
    requires p[j].x <= x0 ==> y == 0 && j + 1 < |p| && x0 < p[j + 1].x
    requires p[j].x > x0 ==> y == Level(p, x0, p[j].x - x0)
    ensures j + 1 < |p| && x0 < p[j + 1].x
    ensures Level(p, x0, (if p[j + 1].x < x0 + w then p[j + 1].x else x0 + w) - x0) == if p[j].y > y then p[j].y else y
  {
    hide Level, SkyAt;
    var from, upto := if p[j].x > x0 then p[j].x else x0, if p[j + 1].x < x0 + w then p[j + 1].x else x0 + w;
    LevelZero(p, x0);
    forall t {:trigger SkyAt(p, t)} | from <= t < upto ensures SkyAt(p, t) == p[j].y {
      Column(p, j, t);
    }
    LevelStretch(p, x0, from - x0, upto - x0, p[j].y);
  }

  /** A step that leaves room for w columns is not the border. */
  lemma NextStep(p: seq<Step>, width: int, height: int, i: nat, w: nat)
    requires Rising(p, width, height) && i < |p| && w > 0 && p[i].x + w <= width
    ensures i + 1 < |p| && p[i].x < p[i + 1].x
  {
  }

  /** After a step that leaves no room for w columns there is none that does. */
  lemma StepsPast(p: seq<Step>, width: int, height: int, i: nat, w: nat)
    requires Rising(p, width, height) && i < |p| && p[i].x + w > width
    ensures forall j {:trigger p[j]} :: 0 <= j < |p| && p[j].x + w <= width ==> j < i
  {
  }

  /** Every position has a left-aligned one that is no higher and no further right. */
  lemma LeftStep(p: seq<Step>, width: int, height: int, w: nat, t: int) returns (j: nat)
    requires Rising(p, width, height) && 0 < w && 0 <= t <= width - w
    ensures j < |p| && p[j].x <= t && Level(p, p[j].x, w) <= Level(p, t, w)
  {
    j := StepOf(p, t, |p| - 1);
    LeftAlign(p, j, t, w);
  }

  /** What is no higher than all left-aligned positions is no higher than any position. */
  lemma LowestEverywhere(p: seq<Step>, width: int, height: int, w: nat, y: int)
    requires Rising(p, width, height) && 0 < w <= width
    requires forall j {:trigger p[j]} :: 0 <= j < |p| && p[j].x + w <= width ==> y <= Level(p, p[j].x, w)
    ensures forall t {:trigger Level(p, t, w)} :: 0 <= t <= width - w ==> y <= Level(p, t, w)
  {
    hide Level, Sorted;
    forall t {:trigger Level(p, t, w)} | 0 <= t <= width - w ensures y <= Level(p, t, w) {
      var j := LeftStep(p, width, height, w, t);
    }
  }

  lemma LeftmostEverywhere(p: seq<Step>, width: int, height: int, w: nat, y: int, k: nat)
    requires Rising(p, width, height) && 0 < w && k < |p| && p[k].x + w <= width
    requires forall j {:trigger p[j]} :: 0 <= j < k ==> y < Level(p, p[j].x, w)
    ensures forall t {:trigger Level(p, t, w)} :: 0 <= t < p[k].x ==> y < Level(p, t, w)
  {
    hide Level;
    forall t {:trigger Level(p, t, w)} | 0 <= t < p[k].x ensures y < Level(p, t, w) {
      var j := LeftStep(p, width, height, w, t);
      assert j < k;
    }
  }

  lemma TailInside(p: seq<Step>, width: int, height: int, a: nat)
    requires Rising(p, width, height) && a < |p|
    ensures 0 <= p[a].x <= width && (a + 1 < |p| ==> p[a].x < p[a + 1].x)
  {
  }

  /** A rectangle of the caller: its size, and on return its position and whether it was packed. */
  datatype Item = Item(w: nat, h: nat, x: int, y: int, mark: int)

  /** The skyline and the number of free nodes at some moment of a run. */
  datatype Snapshot = Snapshot(sky: seq<Step>, spare: nat)

  predicate Failed(it: Item) {
    it.x == MAXVAL && it.y == MAXVAL
  }

  ghost predicate Packed(it: Item) {
    it.w > 0 && it.h > 0 && !Failed(it)
  }

  function RectOf(it: Item): Rect {
    Rect(it.x, it.y, it.w, it.h)
  }

  /** The items in this order. */
  function Ordered(items: seq<Item>, order: seq<int>): (s: seq<Item>)
    requires forall i :: 0 <= i < |order| ==> 0 <= order[i] < |items|
    ensures |s| == |order| && forall i :: 0 <= i < |s| ==> s[i] == items[order[i]]
  {
    seq(|order|, i requires 0 <= i < |order| => items[order[i]])
  }

  ghost predicate PairwiseApart(items: seq<Item>) {
    forall i, j :: 0 <= i < j < |items| && Packed(items[i]) && Packed(items[j]) ==>
      Apart(RectOf(items[i]), RectOf(items[j]))
  }

  ghost predicate ApartFrom(items: seq<Item>, others: set<Rect>) {
    forall i, r :: 0 <= i < |items| && Packed(items[i]) && r in others ==> Apart(r, RectOf(items[i]))
  }

  ghost function PackedRects(items: seq<Item>): set<Rect> {
    set i | 0 <= i < |items| && Packed(items[i]) :: RectOf(items[i])
  }

  /** The lists of an empty target. */
  lemma Start(ns: seq<Node>, n: nat, width: int, height: int)
    requires n > 0 && |ns| == n + 2 && ns[n] == Node(0, 0, n + 1) && ns[n + 1] == Node(width, BIG, -1) && width > 0 &&
             height >= 0
    requires forall i :: 0 <= i < n ==> ns[i].next == if i + 1 < n then i + 1 else -1
    ensures Links(ns, n, [n, n + 1], -1) && Links(ns, 0, Range(0, n), -1)
    ensures multiset([n, n + 1]) + multiset(Range(0, n)) == Whole(n + 2)
    ensures Profile(ns, [n, n + 1]) == [Step(0, 0), Step(width, BIG)] && Rising(Profile(ns, [n, n + 1]), width, height)
  {
    hide Links, Whole, Profile, Range;
    LinksRange(ns, 0, n);
    TwoLinks(ns, n);
    StartWhole(n);
    StartSky(ns, n, width, height);
  }

  lemma TwoLinks(ns: seq<Node>, n: nat)
    requires |ns| == n + 2 && ns[n].next == n + 1 && ns[n + 1].next == -1
    ensures Links(ns, n, [n, n + 1], -1)
  {
    assert [n, n + 1][1..] == [n + 1] && [n + 1][1..] == [];
    assert Links(ns, n + 1, [n + 1], -1);
  }

  lemma StartWhole(n: nat)
    ensures multiset([n, n + 1]) + multiset(Range(0, n)) == Whole(n + 2)
  {
    assert Whole(n + 2) == Whole(n + 1) + multiset{n + 1} == Whole(n) + multiset{n} + multiset{n + 1};
    WholeRange(n);
    hide Range, Whole;
    PairFirst(n, n + 1, Whole(n));
  }

  lemma PairFirst(a: int, b: int, m: multiset<int>)
    ensures multiset([a, b]) + m == m + multiset{a} + multiset{b}
  {
    assert [a, b] == [a] + [b];
    assert multiset([a, b]) == multiset{a} + multiset{b};
  }

  lemma StartSky(ns: seq<Node>, n: nat, width: int, height: int)
    requires |ns| == n + 2 && ns[n] == Node(0, 0, n + 1) && ns[n + 1] == Node(width, BIG, -1) && width > 0 &&
             height >= 0
    ensures Profile(ns, [n, n + 1]) == [Step(0, 0), Step(width, BIG)] && Rising(Profile(ns, [n, n + 1]), width, height)
  {
    assert Profile(ns, [n, n + 1]) == [Step(0, 0), Step(width, BIG)];
  }

  class Context {
    const width: int
    const height: int
    const nodes: array<Node>
    var align: nat
    var bestFit: bool
    var activeHead: int
    var freeHead: int
    ghost var active: seq<int>
    ghost var free: seq<int>
    /** All non-empty rectangles placed so far. */
    ghost var placed: set<Rect>

    ghost predicate Lists()
      reads this, nodes
    {
      Links(nodes[..], activeHead, active, -1) && Links(nodes[..], freeHead, free, -1) &&
      multiset(active) + multiset(free) == Whole(nodes.Length) &&
      forall i {:trigger active[i]} :: 0 <= i < |active| ==> 0 <= active[i] < nodes.Length
    }

    ghost function Sky(): seq<Step>
      requires Lists()
      reads this, nodes
    {
      Profile(nodes[..], active)
    }

    ghost predicate Shape()
      reads this, nodes
    {
      width > 0 && height >= 0 && align > 0 && Lists() && Rising(Sky(), width, height)
    }

    ghost predicate Valid()
      reads this, nodes
    {
      Shape() && (forall r :: r in placed ==> Settled(Sky(), width, height, r)) &&
      forall a, b :: a in placed && b in placed && a != b ==> Apart(a, b)
    }

    /** An empty target: one step over the whole width, and numNodes free nodes. */
    constructor (width: int, height: int, numNodes: nat)
      requires width > 0 && height >= 0 && numNodes > 0
      ensures Valid() && fresh(nodes) && nodes.Length == numNodes + 2 && placed == {}
      ensures this.width == width && this.height == height && align == (width + numNodes - 1) / numNodes
      ensures |active| == 2 && |free| == numNodes && Sky()[0] == Step(0, 0)
    {
      this.width, this.height := width, height;
      nodes := new Node[numNodes + 2](i => Node(0, 0, i + 1));
      align := (width + numNodes - 1) / numNodes;
      bestFit := false;
      activeHead, freeHead := numNodes, 0;
      active, free, placed := [numNodes, numNodes + 1], Range(0, numNodes), {};
      AtLeastOne(width, numNodes);
      hide Links, Profile, Whole, Rising;
      new;
      nodes[numNodes - 1] := Node(0, 0, -1);
      nodes[numNodes] := Node(0, 0, numNodes + 1);
      nodes[numNodes + 1] := Node(width, BIG, -1);
      Start(nodes[..], numNodes, width, height);
    }

    /** Either packs without aligning, and may run out of nodes, or aligns widths. */
    method SetupAllowOutOfMem(allow: bool)
      requires Valid() && nodes.Length > 2
      modifies this`align
      ensures Valid() && align == if allow then 1 else (width + nodes.Length - 3) / (nodes.Length - 2)
    {
      if allow {
        align := 1;
      } else {
        AtLeastOne(width, nodes.Length - 2);
        align := (width + nodes.Length - 3) / (nodes.Length - 2);
      }
    }

    method SetupHeuristic(bestFit: bool)
      requires Valid()
      modifies this`bestFit
      ensures Valid() && this.bestFit == bestFit
    {
      this.bestFit := bestFit;
    }

    // ------------------------------------------------------------ reading the skyline

    lemma NodeAt(j: nat)
      requires Lists() && j < |active|
      ensures 0 <= active[j] < nodes.Length && Sky()[j] == Step(nodes[active[j]].x, nodes[active[j]].y)
      ensures nodes[active[j]].next == if j + 1 < |active| then active[j + 1] else -1
      ensures j == 0 ==> activeHead == active[0]
    {
      LinkAt(nodes[..], activeHead, active, -1, j);
    }

    /** The lowest y for a rectangle of width w at x0; first is the node whose step holds x0. */
    method FindMinY(first: int, ghost i: nat, x0: int, w: nat) returns (y: int, waste: int)
      requires Shape() && i + 1 < |active| && first == active[i] && Sky()[i].x <= x0 < Sky()[i + 1].x && w > 0 &&
               x0 + w <= width
      ensures y == Level(Sky(), x0, w)
    {
      hide Links, Profile, Level, SkyAt;
      ghost var p := Sky();
      var node, x1 := first, x0 + w;
      ghost var j := i;
      y, waste := 0, 0;
      var visited := 0;
      NodeAt(j);
      LevelZero(p, x0);
      while nodes[node].x < x1
        invariant i <= j < |active| && node == active[j] && 0 <= node < nodes.Length && p[j].x == nodes[node].x &&
                  p[j].y == nodes[node].y
        invariant j == i ==> y == 0
        invariant j > i ==> p[j].x > x0 && y == Level(p, x0, (if p[j].x < x1 then p[j].x else x1) - x0)
        decreases |active| - j
      {
        NodeAt(j);
        NodeAt(j + 1);
        var next := nodes[node].next;
        LevelGrows(p, width, height, x0, w, j, y);
        if nodes[node].y > y {
          waste := waste + visited * (nodes[node].y - y);
          y := nodes[node].y;
          if nodes[node].x < x0 {
            visited := visited + nodes[next].x - x0;
          } else {
            visited := visited + nodes[next].x - nodes[node].x;
          }
        } else {
          var under := nodes[next].x - nodes[node].x;
          if under + visited > w {
            under := w - visited;
          }
          waste := waste + under * (y - nodes[node].y);
          visited := visited + under;
        }
        node := next;
        j := j + 1;
      }
    }

    // ------------------------------------------------------------ choosing a position

    /** The link that leads to the k-th active node: -1 for the list head, otherwise the node before. */
    ghost function LinkTo(k: nat): int
      requires k < |active|
      reads this
    {
      if k == 0 then -1 else active[k - 1]
    }

    /** A position at the given level is no lower than y, or best-fit finds that it does not fit. */
    predicate NoUse(level: int, y: int, h: nat)
      reads this
    {
      y <= level || (bestFit && height < level + h)
    }

    /** Tries all positions left-aligned with a step. */
    method ScanLeft(w: nat, h: nat) returns (found: bool, x: int, y: int, waste: int, prev: int, ghost k: nat)
      requires Shape() && 0 < w <= width
      ensures found ==>
                k + 1 < |active| && prev == LinkTo(k) && x == Sky()[k].x && x + w <= width &&
                y == Level(Sky(), x, w) <= BIG
      ensures found ==> forall j {:trigger Sky()[j]} :: 0 <= j < |Sky()| && Sky()[j].x + w <= width ==>
                y <= Level(Sky(), Sky()[j].x, w)
      ensures found && bestFit ==> y + h <= height
      ensures found && !bestFit ==> forall j {:trigger Sky()[j]} :: 0 <= j < k ==> y < Level(Sky(), Sky()[j].x, w)
      ensures !found ==> x == 0 && y == BIG &&
                         forall j {:trigger Sky()[j]} :: 0 <= j < |Sky()| && Sky()[j].x + w <= width ==>
                           NoUse(Level(Sky(), Sky()[j].x, w), BIG, h)
    {
      hide Links, Profile, Level, SkyAt, Sorted;
      ghost var p := Sky();
      found, x, y, waste, prev, k := false, 0, BIG, BIG, -1, 0;
      NodeAt(0);
      var node, link := activeHead, -1;
      ghost var i := 0;
      while nodes[node].x + w <= width
        invariant i < |active| && node == active[i] && 0 <= node < nodes.Length && p[i].x == nodes[node].x &&
                  link == LinkTo(i)
        invariant found ==> k < i && prev == LinkTo(k) && x == p[k].x && x + w <= width && y == Level(p, x, w) <= BIG
        invariant found ==> forall j {:trigger p[j]} :: 0 <= j < i ==> NoUse(Level(p, p[j].x, w), y, h)
        invariant found && bestFit ==> y + h <= height
        invariant found && !bestFit ==> forall j {:trigger p[j]} :: 0 <= j < k ==> y < Level(p, p[j].x, w)
        invariant !found ==> x == 0 && y == BIG && forall j {:trigger p[j]} :: 0 <= j < i ==>
                    NoUse(Level(p, p[j].x, w), BIG, h)
        decreases |active| - i
      {
        NextStep(p, width, height, i, w);
        NodeAt(i);
        NodeAt(i + 1);
        var y', waste' := FindMinY(node, i, nodes[node].x, w);
        if !bestFit {
          if y' < y {
            found, x, y, prev, k := true, nodes[node].x, y', link, i;
          }
        } else if y' + h <= height && (y' < y || (y' == y && waste' < waste)) {
          found, x, y, waste, prev, k := true, nodes[node].x, y', waste', link, i;
        }
        link, node := node, nodes[node].next;
        i := i + 1;
      }
      StepsPast(p, width, height, i, w);
    }

    /** Walks on to the node whose step holds column x. */
    method AdvanceTo(node: int, link: int, ghost i: nat, x: int) returns (node': int, link': int, ghost i': nat)
      requires Shape() && i + 1 < |active| && node == active[i] && link == LinkTo(i) && Sky()[i].x <= x < width
      ensures i <= i' && i' + 1 < |active| && node' == active[i'] && link' == LinkTo(i') &&
              Sky()[i'].x <= x < Sky()[i' + 1].x
    {
      hide Links, Profile, Sorted;
      ghost var p := Sky();
      node', link', i' := node, link, i;
      NodeAt(i');
      NodeAt(i' + 1);
      while nodes[nodes[node'].next].x <= x
        invariant i <= i' && i' + 1 < |active| && node' == active[i'] && link' == LinkTo(i') && p[i'].x <= x
        invariant 0 <= node' < nodes.Length && nodes[node'].next == active[i' + 1] && 0 <= active[i' + 1] < nodes.Length
        invariant nodes[active[i' + 1]].x == p[i' + 1].x
        decreases |active| - i'
      {
        assert i' + 2 < |active|;
        NodeAt(i' + 1);
        NodeAt(i' + 2);
        link', node', i' := node', nodes[node'].next, i' + 1;
      }
    }

    /** The first node from which w columns are left of it. */
    method FirstTail(w: nat) returns (tail: int, ghost a: nat)
      requires Shape() && w <= width
      ensures a < |active| && tail == active[a] && w <= Sky()[a].x
    {
      hide Links, Profile, Sorted;
      ghost var p := Sky();
      NodeAt(0);
      tail, a := activeHead, 0;
      while nodes[tail].x < w
        invariant a < |active| && tail == active[a] && 0 <= tail < nodes.Length && nodes[tail].x == p[a].x
        decreases |active| - a
      {
        assert a + 1 < |active|;
        NodeAt(a);
        NodeAt(a + 1);
        tail, a := nodes[tail].next, a + 1;
      }
    }

    /** Tries all positions right-aligned with a step against the best one so far. */
    method ScanRight(w: nat, h: nat, found0: bool, x0: int, y0: int, waste0: int, prev0: int, ghost k0: nat)
      returns (found: bool, x: int, y: int, prev: int, ghost k: nat)
      requires Shape() && 0 < w <= width && (found0 ==> Usable(w, x0, y0, prev0, k0) && y0 + h <= height)
      ensures found ==> Usable(w, x, y, prev, k) && y + h <= height && y <= y0
      ensures found0 ==> found
      ensures !found ==> y == y0 && x == x0
    {
      hide Links, Profile, Level, SkyAt, Sorted;
      ghost var p := Sky();
      var waste := waste0;
      found, x, y, prev, k := found0, x0, y0, prev0, k0;
      var tail;
      ghost var a;
      tail, a := FirstTail(w);
      NodeAt(0);
      var node, link := activeHead, -1;
      ghost var i := 0;
      while tail != -1
        invariant a <= |active| && tail == (if a < |active| then active[a] else -1)
        invariant i + 1 < |active| && node == active[i] && link == LinkTo(i) && (a < |active| ==> p[i].x <= p[a].x - w)
        invariant found ==> Usable(w, x, y, prev, k) && y + h <= height && y <= y0
        invariant found0 ==> found
        invariant !found ==> y == y0 && x == x0
        decreases |active| - a
      {
        NodeAt(a);
        TailInside(p, width, height, a);
        var xpos := nodes[tail].x - w;
        node, link, i := AdvanceTo(node, link, i, xpos);
        var y', waste' := FindMinY(node, i, xpos, w);
        if y' + h <= height && y' <= y && (y' < y || waste' < waste || (waste' == waste && xpos < x)) {
          found, x, y, waste, prev, k := true, xpos, y', waste', link, i;
        }
        tail, a := nodes[tail].next, a + 1;
      }
    }

    /** Column x lies on step k, which prev leads to, and w columns from there the level is y. */
    ghost predicate Usable(w: nat, x: int, y: int, prev: int, k: nat)
      requires Shape()
      reads this, nodes
    {
      k + 1 < |active| && prev == LinkTo(k) && Sky()[k].x <= x < Sky()[k + 1].x && x + w <= width &&
      y == Level(Sky(), x, w)
    }

    lemma NoUseAnywhere(w: nat, h: nat)
      requires Shape() && 0 < w <= width
      requires forall j {:trigger Sky()[j]} :: 0 <= j < |Sky()| && Sky()[j].x + w <= width ==>
                 NoUse(Level(Sky(), Sky()[j].x, w), BIG, h)
      ensures forall t {:trigger Level(Sky(), t, w)} :: 0 <= t <= width - w ==> NoUse(Level(Sky(), t, w), BIG, h)
    {
      hide Links, Profile, Level, SkyAt, Sorted;
      ghost var p := Sky();
      forall t {:trigger Level(p, t, w)} | 0 <= t <= width - w ensures NoUse(Level(p, t, w), BIG, h) {
        var j := LeftStep(p, width, height, w, t);
        assert NoUse(Level(p, p[j].x, w), BIG, h);
      }
    }

    /** Looks for the lowest position; bottom-left takes the leftmost of the lowest ones. */
    method FindBestPos(w0: nat, h: nat) returns (found: bool, x: int, y: int, prev: int, ghost k: nat)
      requires Shape() && w0 > 0
      ensures found ==> Usable(AlignUp(w0, align), x, y, prev, k) && h <= height && (bestFit ==> y + h <= height)
      ensures found ==>
                forall t {:trigger Level(Sky(), t, AlignUp(w0, align))} :: 0 <= t <= width - AlignUp(w0, align) ==>
                          y <= Level(Sky(), t, AlignUp(w0, align))
      ensures found && !bestFit ==> forall t {:trigger Level(Sky(), t, AlignUp(w0, align))} :: 0 <= t < x ==>
                                      y < Level(Sky(), t, AlignUp(w0, align))
      ensures !found ==>
                h > height || forall t {:trigger Level(Sky(), t, AlignUp(w0, align))} ::
                0 <= t <= width - AlignUp(w0, align) ==>
                           NoUse(Level(Sky(), t, AlignUp(w0, align)), BIG, h)
    {
      hide Links, Profile, Level, SkyAt, Sorted, AlignUp;
      var w := AlignUp(w0, align);
      if w > width || h > height {
        return false, 0, 0, -1, 0;
      }
      var waste;
      found, x, y, waste, prev, k := ScanLeft(w, h);
      if found {
        LowestEverywhere(Sky(), width, height, w, y);
        if !bestFit {
          LeftmostEverywhere(Sky(), width, height, w, y, k);
        }
      } else {
        NoUseAnywhere(w, h);
      }
      NextStep(Sky(), width, height, if found then k else 0, w);
      if bestFit {
        found, x, y, prev, k := ScanRight(w, h, found, x, y, waste, prev, k);
      }
    }

    // ------------------------------------------------------------ placing a rectangle

    /** The active list is open after front, where node belongs; rest, from cur on, and spare are intact lists. */
    ghost predicate Opened(front: seq<int>, node: int, rest: seq<int>, cur: int, spare: seq<int>)
      reads this, nodes
    {
      Links(nodes[..], activeHead, front, node) && Links(nodes[..], cur, rest, -1) &&
      Links(nodes[..], freeHead, spare, -1) &&
      0 <= node < nodes.Length && multiset(front) + multiset{node} + multiset(rest) +
        multiset(spare) == Whole(nodes.Length)
    }

    /** Takes a node off the free list for a step at x of height top. */
    method TakeNode(x: int, top: int) returns (node: int)
      requires Lists() && free != []
      modifies this`freeHead, nodes
      ensures node == free[0] && 0 <= node < nodes.Length && node !in active && nodes[node].x == x &&
              nodes[node].y == top
      ensures Links(nodes[..], activeHead, active, -1) && Links(nodes[..], freeHead, free[1..], -1) &&
              SameSpots(old(nodes[..]), nodes[..], node)
      ensures multiset(free) == multiset{node} + multiset(free[1..])
    {
      hide Links, Profile, Whole;
      ghost var ns := nodes[..];
      FirstNode(ns, freeHead, free, -1, multiset(active));
      node := freeHead;
      freeHead := nodes[node].next;
      nodes[node] := Node(x, top, nodes[node].next);
      LinksUpdate(ns, node, nodes[node], activeHead, active, -1);
      LinksUpdate(ns, node, nodes[node], freeHead, free[1..], -1);
    }

    /** Makes the link before the a-th active node, held by node link or by the list head, lead to node. */
    method PointTo(node: int, link: int, ghost a: nat)
      requires free != [] && Links(nodes[..], activeHead, active, -1) && Links(nodes[..], freeHead, free[1..], -1)
      requires 0 <= node < nodes.Length && a < |active| && link == LinkTo(a) &&
               multiset(free) == multiset{node} + multiset(free[1..])
      requires multiset(active) + multiset(free) == Whole(nodes.Length) && 0 <= active[a] < nodes.Length && (a > 0 ==>
                 0 <= link < nodes.Length)
      modifies this`activeHead, nodes
      ensures Opened(active[..a], node, active[a..], active[a], free[1..])
      ensures forall i {:trigger nodes[i]} :: 0 <= i < nodes.Length ==>
                nodes[i].x == old(nodes[i].x) && nodes[i].y == old(nodes[i].y)
    {
      hide Links, Profile, Whole;
      ghost var ns := nodes[..];
      MultisetCut(active, a);
      if link == -1 {
        LinksCut(ns, activeHead, active, -1, 0);
        activeHead := node;
        NoLinks(ns, node);
      } else {
        nodes[link] := nodes[link].(next := node);
        Redirect(ns, nodes[..], activeHead, active, a, node, multiset(free));
        LinksUpdate(ns, link, nodes[link], freeHead, free[1..], -1);
      }
    }

    /** Takes a free node for the new step and links it in where column x begins. */
    method OpenAt(x: int, top: int, prev: int, ghost k: nat) returns (node: int, cur: int, ghost a: nat)
      requires Lists() && free != [] && k + 1 < |active| && prev == LinkTo(k) && Sky()[k].x <= x
      modifies this`activeHead, this`freeHead, nodes
      ensures node == free[0] && a == (if old(Sky())[k].x < x then k + 1 else k) && a < |active| && cur == active[a]
      ensures Opened(active[..a], node, active[a..], cur, free[1..])
      ensures nodes[node].x == x && nodes[node].y == top && SameSpots(old(nodes[..]), nodes[..], node)
    {
      hide Links, Profile, Whole, Opened;
      NodeAt(k);
      node := TakeNode(x, top);
      LinkAt(nodes[..], activeHead, active, -1, k);
      LinkAt(nodes[..], activeHead, active, -1, k + 1);
      if k > 0 {
        LinkAt(nodes[..], activeHead, active, -1, k - 1);
      } else {
        HeadOf(nodes[..], activeHead, active);
      }
      cur := if prev == -1 then activeHead else nodes[prev].next;
      var link := prev;
      a := k;
      if nodes[cur].x < x {
        link, cur, a := cur, nodes[cur].next, k + 1;
      }
      PointTo(node, link, a);
    }

    /** Moves the first node of rest to the free list. */
    method ReleaseOne(cur: int, ghost front: seq<int>, ghost node: int, ghost rest: seq<int>, ghost spare: seq<int>)
      returns (next: int)
      requires Opened(front, node, rest, cur, spare) && rest != [] && 0 <= cur < nodes.Length
      modifies this`freeHead, nodes
      ensures next == old(nodes[cur].next) && Opened(front, node, rest[1..], next, [cur] + spare)
      ensures SameSpots(old(nodes[..]), nodes[..], -1)
    {
      hide Links, Whole;
      ghost var ns := nodes[..];
      FirstNode(ns, cur, rest, -1, multiset(front) + multiset{node} + multiset(spare));
      next := nodes[cur].next;
      nodes[cur] := nodes[cur].(next := freeHead);
      LinksUpdate(ns, cur, nodes[cur], activeHead, front, node);
      LinksUpdate(ns, cur, nodes[cur], next, rest[1..], -1);
      LinksUpdate(ns, cur, nodes[cur], freeHead, spare, -1);
      OneMore(nodes[..], cur, freeHead, spare);
      freeHead := cur;
    }

    /** Frees the nodes of rest that the columns up to x1 cover. */
    method Release(cur0: int, x1: int, ghost front: seq<int>, ghost node: int, ghost rest: seq<int>,
                   ghost spare0: seq<int>)
      returns (cur: int, ghost m: nat, ghost spare: seq<int>)
      requires Opened(front, node, rest, cur0, spare0) && rest != []
      modifies this`freeHead, nodes
      ensures m < |rest| && cur == rest[m] && Opened(front, node, rest[m..], cur, spare) &&
              SameSpots(old(nodes[..]), nodes[..], -1)
      ensures forall i {:trigger rest[i]} :: 0 < i <= m ==> 0 <= rest[i] < nodes.Length && nodes[rest[i]].x <= x1
      ensures m + 1 < |rest| ==> 0 <= rest[m + 1] < nodes.Length && nodes[rest[m + 1]].x > x1
    {
      hide Links, Opened;
      cur, m, spare := cur0, 0, spare0;
      assert rest[0..] == rest;
      RestHead(front, node, rest, cur, spare);
      while nodes[cur].next != -1 && nodes[nodes[cur].next].x <= x1
        invariant m < |rest| && cur == rest[m] && 0 <= cur < nodes.Length && Opened(front, node, rest[m..], cur, spare)
        invariant SameSpots(old(nodes[..]), nodes[..], -1)
        invariant m + 1 < |rest| ==> nodes[cur].next == rest[m + 1] && 0 <= rest[m + 1] < nodes.Length
        invariant m + 1 == |rest| ==> nodes[cur].next == -1
        invariant forall i {:trigger rest[i]} :: 0 < i <= m ==> 0 <= rest[i] < nodes.Length && nodes[rest[i]].x <= x1
        decreases |rest| - m
      {
        ghost var was := spare;
        spare := [cur] + spare;
        assert rest[m..][1..] == rest[m + 1..];
        cur := ReleaseOne(cur, front, node, rest[m..], was);
        m := m + 1;
        RestHead(front, node, rest[m..], cur, spare);
      }
    }

    lemma RestHead(front: seq<int>, node: int, rest: seq<int>, cur: int, spare: seq<int>)
      requires Opened(front, node, rest, cur, spare) && rest != []
      ensures cur == rest[0] && 0 <= cur < nodes.Length
      ensures nodes[cur].next == if |rest| > 1 then rest[1] else -1
      ensures |rest| > 1 ==> 0 <= rest[1] < nodes.Length
    {
      LinkAt(nodes[..], cur, rest, -1, 0);
      if |rest| > 1 {
        LinkAt(nodes[..], cur, rest, -1, 1);
      }
    }

    /** Links node to the rest of the list, whose first step begins no earlier than x1. */
    method Close(ghost front: seq<int>, node: int, cur: int, x1: int, ghost rest: seq<int>, ghost spare: seq<int>)
      requires Opened(front, node, rest, cur, spare) && rest != []
      modifies this`active, this`free, nodes
      ensures Lists() && active == front + [node] + rest && free == spare
      ensures forall i {:trigger nodes[i]} :: 0 <= i < nodes.Length ==>
                nodes[i].y == old(nodes[i].y) && nodes[i].x == if i == cur && old(nodes[i].x) < x1 then x1
                  else old(nodes[i].x)
    {
      hide Links, Whole;
      RestHead(front, node, rest, cur, spare);
      ghost var ns := nodes[..];
      OnlyOnce(multiset{node}, multiset(front) + multiset(rest) + multiset(spare), nodes.Length, node);
      nodes[node] := nodes[node].(next := cur);
      ghost var ns1 := nodes[..];
      LinksUpdate(ns, node, nodes[node], activeHead, front, node);
      LinksUpdate(ns, node, nodes[node], cur, rest, -1);
      LinksUpdate(ns, node, nodes[node], freeHead, spare, -1);
      LinksSnoc(ns1, activeHead, front, node, cur);
      LinksConcat(ns1, activeHead, front + [node], cur, rest, -1);
      active, free := front + [node] + rest, spare;
      if nodes[cur].x < x1 {
        nodes[cur] := nodes[cur].(x := x1);
        LinksUpdate(ns1, cur, nodes[cur], activeHead, active, -1);
        LinksUpdate(ns1, cur, nodes[cur], freeHead, free, -1);
      }
      LinksInRange(nodes[..], activeHead, active, -1);
    }

    /** Opens the list for a step over columns x to x1 and frees the nodes it covers. */
    method CutOut(x: int, top: int, x1: int, prev: int, ghost k: nat)
      returns (node: int, cur: int, ghost a: nat, ghost m: nat, ghost spare: seq<int>)
      requires Shape() && free != [] && k + 1 < |active| && prev == LinkTo(k) && Sky()[k].x <= x < Sky()[k + 1].x &&
               x < x1
      modifies this`activeHead, this`freeHead, nodes
      ensures Cut(old(Sky()), a, m, x, x1) && a <= m < |active| && cur == active[m] && node !in active
      ensures Opened(active[..a], node, active[m..], cur, spare)
      ensures nodes[node].x == x && nodes[node].y == top && SameSpots(old(nodes[..]), nodes[..], node)
    {
      hide Links, Whole, Opened, Profile, Sorted, Cut;
      ghost var ns, p := nodes[..], Sky();
      ProfileSpots(ns, active);
      FirstNode(ns, freeHead, free, -1, multiset(active));
      node, cur, a := OpenAt(x, top, prev, k);
      ghost var d;
      cur, d, spare := Release(cur, x1, active[..a], node, active[a..], free[1..]);
      m := a + d;
      assert active[a..][d..] == active[m..];
      CutBounds(ns, nodes[..], active, p, node, a, m, x1);
      CutHere(p, width, height, k, a, m, x, x1);
    }

    /** Puts a step of height top over columns x to x1. */
    method PlaceAt(x: int, top: int, x1: int, prev: int, ghost k: nat) returns (ghost a: nat, ghost m: nat)
      requires Shape() && free != [] && k + 1 < |active| && prev == LinkTo(k) && Sky()[k].x <= x < Sky()[k + 1].x &&
               x < x1
      modifies this`activeHead, this`freeHead, this`active, this`free, nodes
      ensures Lists() && Cut(old(Sky()), a, m, x, x1) && Sky() == Raised(old(Sky())[..a], x, top, x1, old(Sky())[m..])
    {
      hide Links, Whole, Profile, Sorted, Raised, Cut;
      ghost var list, ns, p := active, nodes[..], Sky();
      ProfileSpots(ns, list);
      var node, cur;
      ghost var spare;
      node, cur, a, m, spare := CutOut(x, top, x1, prev, k);
      Close(list[..a], node, cur, x1, list[m..], spare);
      AllDifferent(active, multiset(free), nodes.Length);
      RaisedProfile(ns, nodes[..], list, p, node, a, m, x, top, x1);
    }

    /** A rectangle of width w, aligned, and height h fits on the skyline somewhere. */
    ghost predicate Fits(p: seq<Step>, w: nat, h: nat)
      requires align > 0
      reads this`align
    {
      exists t {:trigger Level(p, t, AlignUp(w, align))} ::
        0 <= t <= width - AlignUp(w, align) && Level(p, t, AlignUp(w, align)) + h <= height &&
        Level(p, t, AlignUp(w, align)) < BIG
    }

    /** A position on p that is lowest for the aligned width of r, and under bottom-left the leftmost of these. */
    ghost predicate Lowest(p: seq<Step>, r: Rect)
      requires align > 0 && r.w >= 0
      reads this`align, this`bestFit
    {
      var wide := AlignUp(r.w, align);
      r.y == Level(p, r.x, wide) && 0 <= r.x && r.x + wide <= width &&
      forall t {:trigger Level(p, t, wide)} :: 0 <= t <= width - wide ==>
        r.y <= Level(p, t, wide) && (!bestFit && t < r.x ==> r.y < Level(p, t, wide))
    }

    /** Packs one non-empty rectangle, at a lowest position; it fails only if it fits nowhere or no node is free. */
    method PackRectangle(w: nat, h: nat) returns (ok: bool, x: int, y: int)
      requires Valid() && w > 0 && h > 0
      modifies this`activeHead, this`freeHead, this`active, this`free, this`placed, nodes
      ensures Valid() && placed == old(placed) + (if ok then {Rect(x, y, w, h)} else {})
      ensures ok ==> Inside(Rect(x, y, w, h), width, height) && forall r :: r in old(placed) ==>
                Apart(r, Rect(x, y, w, h))
      ensures ok ==>
                old(free) != [] && Lowest(old(Sky()), Rect(x, y, w, h)) &&
                Grown(old(Sky()), Sky(), width, Rect(x, y, w, h))
      ensures !ok ==>
                active == old(active) && free == old(free) && Sky() == old(Sky()) && (free == [] || !Fits(Sky(), w, h))
    {
      hide Links, Whole, Profile, Sorted, Level, SkyAt, AlignUp, Settled, Fits, Rising, NoUse, Grown;
      var found, prev;
      ghost var k;
      found, x, y, prev, k := FindBestPos(w, h);
      EmptyFree(nodes[..], freeHead, free);
      NowhereFits(w, h, found, y);
      ok := found && y + h <= height && freeHead != -1;
      if ok {
        Place(x, y, w, h, prev, k);
      }
    }

    lemma NowhereFits(w: nat, h: nat, found: bool, y: int)
      requires Shape() && w > 0
      requires found ==>
                 forall t {:trigger Level(Sky(), t, AlignUp(w, align))} :: 0 <= t <= width - AlignUp(w, align) ==>
                           y <= Level(Sky(), t, AlignUp(w, align))
      requires !found ==>
                 h > height || forall t {:trigger Level(Sky(), t, AlignUp(w, align))} ::
                 0 <= t <= width - AlignUp(w, align) ==>
                            NoUse(Level(Sky(), t, AlignUp(w, align)), BIG, h)
      ensures !found || y + h > height ==> !Fits(Sky(), w, h)
    {
      hide Links, Whole, Profile, Sorted, Level, SkyAt, AlignUp;
      var p, wide := Sky(), AlignUp(w, align);
      if Fits(p, w, h) {
        var t :| 0 <= t <= width - wide && Level(p, t, wide) + h <= height && Level(p, t, wide) < BIG;
        LevelNat(p, t, wide);
      }
    }

    method Place(x: int, y: int, w: nat, h: nat, prev: int, ghost k: nat)
      requires Valid() && w > 0 && h > 0 && free != [] && Usable(AlignUp(w, align), x, y, prev, k) && y + h <= height
      modifies this`activeHead, this`freeHead, this`active, this`free, this`placed, nodes
      ensures Valid() && placed == old(placed) + {Rect(x, y, w, h)}
      ensures Inside(Rect(x, y, w, h), width, height) && forall r :: r in old(placed) ==> Apart(r, Rect(x, y, w, h))
      ensures Grown(old(Sky()), Sky(), width, Rect(x, y, w, h))
    {
      hide Links, Whole, Profile, Sorted, Level, SkyAt, AlignUp, Settled, Raised, Cut, Rising, Grown;
      ghost var p, n := Sky(), Rect(x, y, w, h);
      ghost var a, m := PlaceAt(x, y + h, x + w, prev, k);
      Columns(p, width, height, k, x, y, w, AlignUp(w, align));
      SettleAll(p, Sky(), width, height, a, m, n, placed);
      placed := placed + {n};
    }

    // ------------------------------------------------------------ packing many rectangles

    /** The result for one rectangle: empty ones need no space, others are placed or marked as not packed. */
    ghost predicate Handled(it: Item)
      reads this
    {
      if it.w == 0 || it.h == 0 then it.x == 0 && it.y == 0 else Failed(it) || RectOf(it) in placed
    }

    ghost function Now(): Snapshot
      requires Lists()
      reads this, nodes
    {
      Snapshot(Sky(), |free|)
    }

    /** One turn of a run: what happens to the skyline, and why a rectangle was or was not packed. */
    ghost predicate Turn(s: Snapshot, s': Snapshot, it: Item)
      requires align > 0
      reads this`align, this`bestFit
    {
      if it.w == 0 || it.h == 0 then s' == s
      else if Failed(it) then s' == s && (s.spare == 0 || !Fits(s.sky, it.w, it.h))
      else s.spare > 0 && Lowest(s.sky, RectOf(it)) && Grown(s.sky, s'.sky, width, RectOf(it))
    }

    /** A run that handled these items one after the other, from snapshot to snapshot. */
    ghost predicate Run(snaps: seq<Snapshot>, items: seq<Item>)
      requires align > 0
      reads this`align, this`bestFit
    {
      |snaps| == |items| + 1 && forall i {:trigger items[i]} :: 0 <= i < |items| ==>
        Turn(snaps[i], snaps[i + 1], items[i])
    }

    method PackItem(it: Item) returns (it': Item)
      requires Valid() && width <= MAXVAL
      modifies this`activeHead, this`freeHead, this`active, this`free, this`placed, nodes
      ensures Valid() && old(placed) <= placed && it' == it.(x := it'.x, y := it'.y) && Handled(it')
      ensures placed == old(placed) + (if Packed(it') then {RectOf(it')} else {})
      ensures Packed(it') ==> forall r :: r in old(placed) ==> Apart(r, RectOf(it'))
      ensures Turn(old(Now()), Now(), it')
    {
      hide Links, Whole, Profile, Sorted, Level, SkyAt, AlignUp, Fits, Rising, Lowest, Grown;
      if it.w == 0 || it.h == 0 {
        it' := it.(x := 0, y := 0);
      } else {
        var ok, x, y := PackRectangle(it.w, it.h);
        it' := if ok then it.(x := x, y := y) else it.(x := MAXVAL, y := MAXVAL);
      }
    }

    /** Packs the rectangles of items, one after the other. */
    method PackInOrder(items: seq<Item>) returns (out: seq<Item>, ghost snaps: seq<Snapshot>)
      requires Valid() && width <= MAXVAL
      modifies this`activeHead, this`freeHead, this`active, this`free, this`placed, nodes
      ensures Valid() && |out| == |items| && forall i :: 0 <= i < |out| ==>
                out[i] == items[i].(x := out[i].x, y := out[i].y) && Handled(out[i])
      ensures placed == old(placed) + PackedRects(out)
      ensures PairwiseApart(out) && ApartFrom(out, old(placed))
      ensures Run(snaps, out) && |snaps| == |items| + 1 && snaps[0] == old(Now()) && snaps[|items|] == Now()
    {
      hide Links, Whole, Profile, Rising, Valid, Apart, Settled, PairwiseApart, ApartFrom, PackedRects, Run, Turn;
      ValidMeans();
      out, snaps := [], [Now()];
      NoTurns(Now());
      NonePacked(placed);
      for n := 0 to |items|
        invariant Valid() && |out| == n && placed == old(placed) + PackedRects(out)
        invariant forall i :: 0 <= i < |out| ==> out[i] == items[i].(x := out[i].x, y := out[i].y) && Handled(out[i])
        invariant PairwiseApart(out) && ApartFrom(out, old(placed))
        invariant Lists() && align > 0 && Run(snaps, out) && |snaps| == n + 1 && snaps[0] == old(Now()) &&
                  snaps[n] == Now()
      {
        var it := PackItem(items[n]);
        OneMorePacked(out, it, old(placed));
        ValidMeans();
        RunNext(snaps, out, it, Now());
        out, snaps := out + [it], snaps + [Now()];
      }
    }

    lemma NoTurns(s: Snapshot)
      requires align > 0
      ensures Run([s], [])
    {
    }

    lemma RunNext(snaps: seq<Snapshot>, out: seq<Item>, it: Item, s: Snapshot)
      requires align > 0 && Run(snaps, out) && Turn(snaps[|out|], s, it)
      ensures Run(snaps + [s], out + [it])
    {
      hide Turn;
      var snaps', out' := snaps + [s], out + [it];
      forall i {:trigger out'[i]} | 0 <= i < |out'| ensures Turn(snaps'[i], snaps'[i + 1], out'[i]) {
        assert i < |out| ==> Turn(snaps[i], snaps[i + 1], out[i]);
      }
    }

    lemma ValidMeans()
      requires Valid()
      ensures Lists() && align > 0
    {
    }

    lemma FitsBelow(p: seq<Step>, q: seq<Step>, w: nat, h: nat)
      requires align > 0 && Above(p, q, width) && Fits(q, w, h)
      ensures Fits(p, w, h)
    {
      hide Level, AlignUp, Above;
      var wide := AlignUp(w, align);
      var t :| 0 <= t <= width - wide && Level(q, t, wide) + h <= height && Level(q, t, wide) < BIG;
      LevelMonotone(p, q, width, t, wide);
    }

    /** What could not be packed at one moment of a run cannot be packed later. */
    lemma {:induction false} NeverLater(snaps: seq<Snapshot>, items: seq<Item>, i: nat, j: nat, w: nat, h: nat)
      requires align > 0 && Run(snaps, items) && i <= j <= |items|
      requires snaps[i].spare == 0 || !Fits(snaps[i].sky, w, h)
      ensures snaps[j].spare == 0 || !Fits(snaps[j].sky, w, h)
      decreases j - i
    {
      hide Fits, Lowest, Above, SkyAt;
      if i < j {
        NeverLater(snaps, items, i, j - 1, w, h);
        assert Turn(snaps[j - 1], snaps[j], items[j - 1]);
        if Fits(snaps[j].sky, w, h) && snaps[j] != snaps[j - 1] {
          FitsBelow(snaps[j - 1].sky, snaps[j].sky, w, h);
        }
      }
    }

    /**
     * Packs all rectangles of an array in the order the sort by height gives, and leaves them in their own order,
     * each with its position and the flag that tells whether it was packed.
     */
    method PackRects(rects: array<Item>, order: seq<int>) returns (all: bool, ghost snaps: seq<Snapshot>)
      requires Valid() && width <= MAXVAL && multiset(order) == Whole(rects.Length) && rects as object != nodes
      modifies this`activeHead, this`freeHead, this`active, this`free, this`placed, nodes, rects
      ensures Valid() && placed == old(placed) + PackedRects(rects[..])
      ensures forall i :: 0 <= i < rects.Length ==>
                rects[i].w == old(rects[i].w) && rects[i].h == old(rects[i].h) && Handled(rects[i])
      ensures forall i :: 0 <= i < rects.Length ==> (rects[i].mark != 0 <==> !Failed(rects[i]))
      ensures all <==> forall i :: 0 <= i < rects.Length ==> !Failed(rects[i])
      ensures PairwiseApart(rects[..]) && ApartFrom(rects[..], old(placed))
      ensures |order| == rects.Length && forall i :: 0 <= i < |order| ==> 0 <= order[i] < rects.Length
      ensures Run(snaps, Ordered(rects[..], order)) && |snaps| == rects.Length + 1
      ensures snaps[0] == old(Now()) && snaps[rects.Length] == Now()
      ensures forall i :: 0 <= i < rects.Length && rects[i].w > 0 && rects[i].h > 0 && Failed(rects[i]) ==>
                free == [] || !Fits(Sky(), rects[i].w, rects[i].h)
    {
      hide Links, Whole, Profile, Valid, Apart, PairwiseApart, ApartFrom, PackedRects, Run, Fits;
      ghost var back := OrderFacts(order, rects.Length);
      var given := rects[..];
      var sorted := seq(|order|, i requires 0 <= i < |order| => given[order[i]].(mark := order[i]));
      var out;
      out, snaps := PackInOrder(sorted);
      ValidMeans();
      all := Deliver(rects, out, order, back);
      SameRects(out, rects[..], order, back, old(placed));
      SameRun(snaps, out, Ordered(rects[..], order));
      FailedForGood(snaps, out);
    }

    lemma SameRun(snaps: seq<Snapshot>, a: seq<Item>, b: seq<Item>)
      requires align > 0 && Run(snaps, a) && |a| == |b| && forall i :: 0 <= i < |a| ==> b[i] == a[i].(mark := b[i].mark)
      ensures Run(snaps, b)
    {
      forall i {:trigger b[i]} | 0 <= i < |b| ensures Turn(snaps[i], snaps[i + 1], b[i]) {
        assert Turn(snaps[i], snaps[i + 1], a[i]);
      }
    }

    lemma FailedForGood(snaps: seq<Snapshot>, items: seq<Item>)
      requires align > 0 && Run(snaps, items)
      ensures var last := snaps[|items|];
              forall i :: 0 <= i < |items| && items[i].w > 0 && items[i].h > 0 && Failed(items[i]) ==>
                last.spare == 0 || !Fits(last.sky, items[i].w, items[i].h)
    {
      hide Fits, Lowest, Grown;
      var last := snaps[|items|];
      forall i | 0 <= i < |items| && items[i].w > 0 && items[i].h > 0 && Failed(items[i])
        ensures last.spare == 0 || !Fits(last.sky, items[i].w, items[i].h)
      {
        assert Turn(snaps[i], snaps[i + 1], items[i]);
        NeverLater(snaps, items, i, |items|, items[i].w, items[i].h);
      }
    }

    /** Puts all items back in their own order and sets their flags. */
    static method Deliver(rects: array<Item>, out: seq<Item>, ghost order: seq<int>, ghost back: seq<int>)
      returns (all: bool)
      requires |out| == |order| == |back| == rects.Length && forall i, j :: 0 <= i < j < |order| ==>
                 order[i] != order[j]
      requires forall i :: 0 <= i < |out| ==> out[i].mark == order[i] && 0 <= order[i] < rects.Length
      requires forall i :: 0 <= i < |out| ==> 0 <= back[i] < |out| && order[back[i]] == i
      modifies rects
      ensures forall i :: 0 <= i < |out| ==> rects[order[i]] == out[i].(mark := rects[order[i]].mark)
      ensures forall i :: 0 <= i < rects.Length ==> rects[i] == out[back[i]].(mark := rects[i].mark)
      ensures forall i :: 0 <= i < rects.Length ==> (rects[i].mark != 0 <==> !Failed(rects[i]))
      ensures all <==> forall i :: 0 <= i < rects.Length ==> !Failed(rects[i])
    {
      PutBack(rects, out, order);
      assert forall i :: 0 <= i < rects.Length ==> rects[i] == out[back[i]];
      all := SetFlags(rects);
    }

    /** Puts every item where its mark says. */
    static method PutBack(rects: array<Item>, out: seq<Item>, ghost order: seq<int>)
      requires |out| == |order| == rects.Length && forall i, j :: 0 <= i < j < |order| ==> order[i] != order[j]
      requires forall i :: 0 <= i < |out| ==> out[i].mark == order[i] && 0 <= order[i] < rects.Length
      modifies rects
      ensures forall i :: 0 <= i < |out| ==> rects[order[i]] == out[i]
    {
      forall i | 0 <= i < |out| {
        rects[out[i].mark] := out[i];
      }
    }

    /** Sets the flag of every rectangle, and tells whether all were packed. */
    static method SetFlags(rects: array<Item>) returns (all: bool)
      modifies rects
      ensures forall i :: 0 <= i < rects.Length ==>
                rects[i] == old(rects[i]).(mark := if Failed(old(rects[i])) then 0 else 1)
      ensures all <==> forall i :: 0 <= i < rects.Length ==> !Failed(rects[i])
    {
      all := true;
      for n := 0 to rects.Length
        invariant forall i :: 0 <= i < rects.Length ==>
                    rects[i] == if i < n then old(rects[i]).(mark := if Failed(old(rects[i])) then 0 else 1)
                      else old(rects[i])
        invariant all <==> forall i :: 0 <= i < n ==> !Failed(rects[i])
      {
        rects[n] := rects[n].(mark := if Failed(rects[n]) then 0 else 1);
        if rects[n].mark == 0 {
          all := false;
        }
      }
    }
  }

  lemma NoLinks(ns: seq<Node>, node: int)
    ensures Links(ns, node, [], node)
  {
  }

  lemma ProfileSpots(ns: seq<Node>, list: seq<int>)
    requires forall i {:trigger list[i]} :: 0 <= i < |list| ==> 0 <= list[i] < |ns|
    ensures forall i {:trigger list[i]} :: 0 <= i < |list| ==>
              Profile(ns, list)[i] == Step(ns[list[i]].x, ns[list[i]].y)
  {
  }

  lemma CutBounds(ns: seq<Node>, ns': seq<Node>, list: seq<int>, p: seq<Step>, node: int, a: nat, m: nat, x1: int)
    requires a <= m < |list| == |p| && |ns| == |ns'| && node !in list && SameSpots(ns, ns', node)
    requires forall i {:trigger list[i]} :: 0 <= i < |list| ==>
               0 <= list[i] < |ns| && p[i] == Step(ns[list[i]].x, ns[list[i]].y)
    requires forall i {:trigger list[a..][i]} :: 0 < i <= m - a ==> ns'[list[a..][i]].x <= x1
    requires m + 1 < |list| ==> ns'[list[a..][m - a + 1]].x > x1
    ensures (a < m ==> p[m].x <= x1) && (m + 1 < |list| ==> x1 < p[m + 1].x)
  {
    if a < m {
      assert list[a..][m - a] == list[m];
    }
    if m + 1 < |list| {
      assert list[a..][m - a + 1] == list[m + 1];
    }
  }

  lemma CutHere(p: seq<Step>, width: int, height: int, k: nat, a: nat, m: nat, x: int, x1: int)
    requires Rising(p, width, height) && k + 1 < |p| && p[k].x <= x < p[k + 1].x && x < x1
    requires a == (if p[k].x < x then k + 1 else k) && a <= m < |p|
    requires (a < m ==> p[m].x <= x1) && (m + 1 < |p| ==> x1 < p[m + 1].x)
    ensures Cut(p, a, m, x, x1)
  {
  }

  lemma AllDifferent(list: seq<int>, others: multiset<int>, n: nat)
    requires multiset(list) + others == Whole(n)
    ensures forall i, j :: 0 <= i < j < |list| ==> list[i] != list[j]
  {
    hide Whole;
    forall i, j | 0 <= i < j < |list| ensures list[i] != list[j] {
      MultisetCut(list, j);
      MultisetCut(list[j..], 1);
      assert list[j..][..1] == [list[j]];
      OnlyOnce(multiset{list[j]}, multiset(list[..j]) + multiset(list[j..][1..]) + others, n, list[j]);
      assert list[..j][i] in list[..j];
    }
  }

  /** The skyline after relinking, in terms of the one before. */
  lemma RaisedProfile(ns: seq<Node>, ns': seq<Node>, list: seq<int>, p: seq<Step>, node: int, a: nat, m: nat, x: int,
                      top: int, x1: int)
    requires a <= m < |list| == |p| && |ns| == |ns'| && 0 <= node < |ns| && node !in list
    requires forall i {:trigger list[i]} :: 0 <= i < |list| ==>
               0 <= list[i] < |ns| && p[i] == Step(ns[list[i]].x, ns[list[i]].y)
    requires var list' := list[..a] + [node] + list[m..]; forall i, j :: 0 <= i < j < |list'| ==> list'[i] != list'[j]
    requires ns'[node].x == x && ns'[node].y == top
    requires forall v {:trigger ns'[v]} :: 0 <= v < |ns| && v != node ==>
               ns'[v].y == ns[v].y && ns'[v].x == if v == list[m] && ns[v].x < x1 then x1 else ns[v].x
    ensures var list' := list[..a] + [node] + list[m..];
            (forall i {:trigger list'[i]} :: 0 <= i < |list'| ==>
              0 <= list'[i] < |ns'|) && Profile(ns', list') == Raised(p[..a], x, top, x1, p[m..])
  {
    var list' := list[..a] + [node] + list[m..];
    var q, r := Profile(ns', list'), Raised(p[..a], x, top, x1, p[m..]);
    assert list'[a + 1] == list[m];
    forall i | 0 <= i < |q| ensures q[i] == r[i] {
      if i < a {
        assert list'[i] == list[i] && list'[i] != list'[a + 1];
      } else if i > a {
        assert list'[i] == list[i - a - 1 + m];
        assert i > a + 1 ==> list'[i] != list'[a + 1] && r[i] == p[i - a - 1 + m];
      }
    }
  }

  lemma EmptyFree(ns: seq<Node>, head: int, list: seq<int>)
    requires Links(ns, head, list, -1)
    ensures head == -1 <==> list == []
  {
  }

  /** The level over the aligned width bounds every column of the rectangle. */
  lemma Columns(p: seq<Step>, width: int, height: int, k: nat, x: int, y: int, w: nat, wide: nat)
    requires Rising(p, width, height) && k < |p| && p[k].x <= x && 0 < w <= wide && y == Level(p, x, wide)
    ensures 0 <= x && 0 <= y && forall t {:trigger SkyAt(p, t)} :: x <= t < x + w ==> SkyAt(p, t) <= y
  {
    hide Sorted;
    TailInside(p, width, height, k);
    LevelNat(p, x, wide);
    forall t {:trigger SkyAt(p, t)} | x <= t < x + w ensures SkyAt(p, t) <= y {
      LevelAtLeast(p, x, wide, t);
    }
  }

  /** After a rectangle has been put on the skyline, it and all others are settled and apart. */
  lemma SettleAll(p: seq<Step>, q: seq<Step>, width: int, height: int, a: nat, m: nat, n: Rect, placed: set<Rect>)
    requires Rising(p, width, height) && Cut(p, a, m, n.x, n.x + n.w) &&
             q == Raised(p[..a], n.x, n.y + n.h, n.x + n.w, p[m..])
    requires n.w > 0 && n.h > 0 && Inside(n, width, height)
    requires forall t {:trigger SkyAt(p, t)} :: n.x <= t < n.x + n.w ==> SkyAt(p, t) <= n.y
    requires forall r :: r in placed ==> Settled(p, width, height, r)
    ensures Rising(q, width, height) && Settled(q, width, height, n) && Grown(p, q, width, n)
    ensures forall r :: r in placed ==> Settled(q, width, height, r) && Apart(r, n) && Apart(n, r)
  {
    hide Sorted, Raised, Cut, SkyAt;
    RaisedRising(p, width, height, a, m, n.x, n.y + n.h, n.x + n.w);
    forall t {:trigger SkyAt(q, t)} | 0 <= t < width
      ensures SkyAt(p, t) <= SkyAt(q, t) && (n.x <= t < n.x + n.w ==> SkyAt(q, t) == n.y + n.h)
    {
      RaisedSky(p, width, height, a, m, n.x, n.y + n.h, n.x + n.w, t);
    }
    forall r | r in placed ensures Settled(q, width, height, r) && Apart(r, n) && Apart(n, r) {
      PlacedApart(p, r, n.x, n.y, n.w, n.h);
      forall t {:trigger SkyAt(q, t)} | r.x <= t < r.x + r.w ensures r.y + r.h <= SkyAt(q, t) {
        assert r.y + r.h <= SkyAt(p, t);
      }
    }
  }

  /** An order of 0 to n and its inverse. */
  lemma OrderFacts(order: seq<int>, n: nat) returns (back: seq<int>)
    requires multiset(order) == Whole(n)
    ensures |order| == n && (forall i :: 0 <= i < n ==> 0 <= order[i] < n)
    ensures forall i, j :: 0 <= i < j < n ==> order[i] != order[j]
    ensures |back| == n && forall j :: 0 <= j < n ==> 0 <= back[j] < n && order[back[j]] == j
  {
    WholeSize(n);
    forall i | 0 <= i < |order| ensures 0 <= order[i] < n {
      assert order[i] in multiset(order);
      OnlyOnce(multiset(order), multiset{}, n, order[i]);
    }
    AllDifferent(order, multiset{}, n);
    back := Inverse(order, n, n);
  }

  lemma {:induction false} Inverse(order: seq<int>, n: nat, m: nat) returns (back: seq<int>)
    requires multiset(order) == Whole(n) && m <= n
    ensures |back| == m && forall j :: 0 <= j < m ==> 0 <= back[j] < |order| && order[back[j]] == j
  {
    if m == 0 {
      back := [];
    } else {
      back := Inverse(order, n, m - 1);
      WholeCount(n, m - 1);
      assert m - 1 in multiset(order);
      var i :| 0 <= i < |order| && order[i] == m - 1;
      back := back + [i];
    }
  }

  lemma NonePacked(others: set<Rect>)
    ensures PackedRects([]) == {} && PairwiseApart([]) && ApartFrom([], others)
  {
  }

  lemma OneMorePacked(out: seq<Item>, it: Item, others: set<Rect>)
    requires PairwiseApart(out) && ApartFrom(out, others)
    requires Packed(it) ==> forall r :: r in others + PackedRects(out) ==> Apart(r, RectOf(it))
    ensures PairwiseApart(out + [it]) && ApartFrom(out + [it], others)
    ensures PackedRects(out + [it]) == PackedRects(out) + (if Packed(it) then {RectOf(it)} else {})
  {
    hide Apart;
    var out' := out + [it];
    forall i | 0 <= i < |out| && Packed(out[i]) ensures RectOf(out[i]) in PackedRects(out) {
    }
    forall r ensures r in PackedRects(out') <==> r in PackedRects(out) || (Packed(it) && r == RectOf(it)) {
      if Packed(it) && r == RectOf(it) {
        assert out'[|out|] == it;
      }
      if r in PackedRects(out) {
        var i :| 0 <= i < |out| && Packed(out[i]) && RectOf(out[i]) == r;
        assert out'[i] == out[i];
      }
    }
  }

  lemma ApartFlip(a: Rect, b: Rect)
    ensures Apart(a, b) <==> Apart(b, a)
  {
  }

  /** Reordering does not change which rectangles are packed, nor that they are apart. */
  lemma SameRects(a: seq<Item>, b: seq<Item>, order: seq<int>, back: seq<int>, others: set<Rect>)
    requires |a| == |b| == |order| == |back|
    requires forall i :: 0 <= i < |a| ==> 0 <= order[i] < |a| && 0 <= back[i] < |a| && order[back[i]] == i
    requires forall i, j :: 0 <= i < j < |order| ==> order[i] != order[j]
    requires forall j :: 0 <= j < |b| ==> b[j] == a[back[j]].(mark := b[j].mark)
    requires PairwiseApart(a) && ApartFrom(a, others)
    ensures PackedRects(a) == PackedRects(b) && PairwiseApart(b) && ApartFrom(b, others)
  {
    hide Apart;
    forall r ensures r in PackedRects(a) <==> r in PackedRects(b) {
      if r in PackedRects(a) {
        var i :| 0 <= i < |a| && Packed(a[i]) && RectOf(a[i]) == r;
        assert back[order[i]] == i;
        assert Packed(b[order[i]]) && RectOf(b[order[i]]) == r;
      }
      if r in PackedRects(b) {
        var j :| 0 <= j < |b| && Packed(b[j]) && RectOf(b[j]) == r;
        assert Packed(a[back[j]]) && RectOf(a[back[j]]) == r;
      }
    }
    forall i, j | 0 <= i < j < |b| && Packed(b[i]) && Packed(b[j]) ensures Apart(RectOf(b[i]), RectOf(b[j])) {
      assert back[i] != back[j];
      ApartFlip(RectOf(b[i]), RectOf(b[j]));
    }
  }

  lemma OneMore(ns: seq<Node>, v: int, head: int, list: seq<int>)
    requires 0 <= v < |ns| && ns[v].next == head && Links(ns, head, list, -1)
    ensures Links(ns, v, [v] + list, -1)
  {
    assert ([v] + list)[1..] == list;
  }

  lemma HeadOf(ns: seq<Node>, head: int, list: seq<int>)
    requires Links(ns, head, list, -1) && list != []
    ensures head == list[0]
  {
  }

  /** Only node v may have changed its place. */
  ghost predicate SameSpots(ns: seq<Node>, ns': seq<Node>, v: int) {
    |ns| == |ns'| && forall i {:trigger ns'[i]} :: 0 <= i < |ns| && i != v ==>
      ns'[i].x == ns[i].x && ns'[i].y == ns[i].y
  }

  /** The skyline q after r was put on p: its columns end at its top, and none gets lower. */
  ghost predicate Grown(p: seq<Step>, q: seq<Step>, width: int, r: Rect) {
    Above(p, q, width) && forall t {:trigger SkyAt(q, t)} :: r.x <= t < r.x + r.w ==> SkyAt(q, t) == r.y + r.h
  }

  /** A non-empty rectangle inside the target and under the skyline. */
  ghost predicate Settled(p: seq<Step>, width: int, height: int, r: Rect) {
    r.w > 0 && r.h > 0 && Inside(r, width, height) && Under(p, r)
  }
}
