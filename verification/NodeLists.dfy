/**
 * Singly linked lists threaded through one array of nodes by index, as the active and
 * free lists of libs/stb/stb_rect_pack.h are; -1 stands for the null pointer.
 */
module NodeLists {
  import opened Skyline

  datatype Node = Node(x: int, y: int, next: int)

  /** Following next from head passes the nodes of list, in order, and arrives at tail. */
  ghost predicate Links(nodes: seq<Node>, head: int, list: seq<int>, tail: int)
    decreases |list|
  {
    if list == [] then head == tail
    else head == list[0] && 0 <= head < |nodes| && Links(nodes, nodes[head].next, list[1..], tail)
  }

  /** The steps that a list of nodes stands for. */
  ghost function Profile(nodes: seq<Node>, list: seq<int>): (p: seq<Step>)
    requires forall i {:trigger list[i]} :: 0 <= i < |list| ==> 0 <= list[i] < |nodes|
    ensures |p| == |list|
  {
    seq(|list|, i requires 0 <= i < |list| => Step(nodes[list[i]].x, nodes[list[i]].y))
  }

  lemma {:induction false} LinkAt(nodes: seq<Node>, head: int, list: seq<int>, tail: int, j: nat)
    requires Links(nodes, head, list, tail) && j < |list|
    ensures 0 <= list[j] < |nodes| && nodes[list[j]].next == if j + 1 < |list| then list[j + 1] else tail
    decreases |list|
  {
    if j > 0 {
      LinkAt(nodes, nodes[head].next, list[1..], tail, j - 1);
    }
  }

  lemma LinksInRange(nodes: seq<Node>, head: int, list: seq<int>, tail: int)
    requires Links(nodes, head, list, tail)
    ensures forall i {:trigger list[i]} :: 0 <= i < |list| ==> 0 <= list[i] < |nodes|
  {
    forall i {:trigger list[i]} | 0 <= i < |list| ensures 0 <= list[i] < |nodes| {
      LinkAt(nodes, head, list, tail, i);
    }
  }

  /** A list does not notice changes to nodes it does not hold, nor changes to coordinates. */
  lemma {:induction false} LinksSame(nodes: seq<Node>, nodes': seq<Node>, head: int, list: seq<int>, tail: int)
    requires Links(nodes, head, list, tail) && |nodes'| == |nodes|
    requires forall v {:trigger nodes'[v]} :: v in list && 0 <= v < |nodes| ==> nodes'[v].next == nodes[v].next
    ensures Links(nodes', head, list, tail)
    decreases |list|
  {
    if list != [] {
      assert list[0] in list && forall v :: v in list[1..] ==> v in list;
      LinksSame(nodes, nodes', nodes[head].next, list[1..], tail);
    }
  }

  lemma {:induction false} LinksUpdate(nodes: seq<Node>, v: int, n: Node, head: int, list: seq<int>, tail: int)
    requires Links(nodes, head, list, tail) && 0 <= v < |nodes| && (v !in list || n.next == nodes[v].next)
    ensures Links(nodes[v := n], head, list, tail)
  {
    LinksSame(nodes, nodes[v := n], head, list, tail);
  }

  lemma {:induction false} LinksConcat(nodes: seq<Node>, head: int, a: seq<int>, mid: int, b: seq<int>, tail: int)
    requires Links(nodes, head, a, mid) && Links(nodes, mid, b, tail)
    ensures Links(nodes, head, a + b, tail)
    decreases |a|
  {
    if a == [] {
      assert a + b == b;
    } else {
      LinksConcat(nodes, nodes[head].next, a[1..], mid, b, tail);
      assert (a + b)[1..] == a[1..] + b;
    }
  }

  /** A list can be cut before any of its nodes. */
  lemma {:induction false} LinksCut(nodes: seq<Node>, head: int, list: seq<int>, tail: int, k: nat)
    requires Links(nodes, head, list, tail) && k < |list|
    ensures Links(nodes, head, list[..k], list[k]) && Links(nodes, list[k], list[k..], tail)
    decreases |list|
  {
    if k > 0 {
      LinksCut(nodes, nodes[head].next, list[1..], tail, k - 1);
      assert list[1..][..k - 1] == list[..k][1..];
      assert list[1..][k - 1..] == list[k..];
    } else {
      assert list[..0] == [] && list[0..] == list;
    }
  }

  lemma {:induction false} LinksSnoc(nodes: seq<Node>, head: int, list: seq<int>, v: int, tail: int)
    requires Links(nodes, head, list, v) && 0 <= v < |nodes| && nodes[v].next == tail
    ensures Links(nodes, head, list + [v], tail)
  {
    assert Links(nodes, tail, [], tail);
    assert [v][1..] == [];
    assert Links(nodes, v, [v], tail);
    LinksConcat(nodes, head, list, v, [v], tail);
  }

  /** Every node once. */
  ghost function Whole(n: nat): multiset<int> {
    if n == 0 then multiset{} else Whole(n - 1) + multiset{n - 1}
  }

  lemma {:induction false} WholeCount(n: nat, v: int)
    ensures Whole(n)[v] == if 0 <= v < n then 1 else 0
  {
    if n > 0 {
      WholeCount(n - 1, v);
    }
  }

  lemma {:induction false} WholeSize(n: nat)
    ensures |Whole(n)| == n
  {
    if n > 0 {
      WholeSize(n - 1);
    }
  }

  lemma OnlyOnce(a: multiset<int>, b: multiset<int>, n: nat, v: int)
    requires a + b == Whole(n) && v in a
    ensures v !in b && 0 <= v < n && a[v] == 1
  {
    WholeCount(n, v);
    assert (a + b)[v] == a[v] + b[v];
  }

  ghost function Range(k: nat, n: nat): (s: seq<int>)
    requires k <= n
    ensures |s| == n - k && forall i :: 0 <= i < |s| ==> s[i] == k + i
  {
    seq(n - k, i => k + i)
  }

  /** Nodes k to n, each linked to the next. */
  lemma {:induction false} LinksRange(nodes: seq<Node>, k: nat, n: nat)
    requires k <= n <= |nodes| && forall i :: k <= i < n ==> nodes[i].next == if i + 1 < n then i + 1 else -1
    ensures Links(nodes, if k < n then k else -1, Range(k, n), -1)
    decreases n - k
  {
    if k < n {
      LinksRange(nodes, k + 1, n);
      assert Range(k, n)[1..] == Range(k + 1, n);
    }
  }

  lemma {:induction false} WholeRange(n: nat)
    ensures multiset(Range(0, n)) == Whole(n)
  {
    if n > 0 {
      WholeRange(n - 1);
      assert Range(0, n) == Range(0, n - 1) + [n - 1];
    }
  }

  lemma MultisetCut(list: seq<int>, a: nat)
    requires a <= |list|
    ensures multiset(list) == multiset(list[..a]) + multiset(list[a..])
  {
    assert list == list[..a] + list[a..];
  }

  /** Pointing the node before position a at another node opens the list there. */
  lemma Redirect(ns: seq<Node>, ns': seq<Node>, head: int, list: seq<int>, a: nat, node: int, others: multiset<int>)
    requires Links(ns, head, list, -1) && 0 < a < |list| && multiset(list) + others == Whole(|ns|)
    requires 0 <= list[a - 1] < |ns| && ns' == ns[list[a - 1] := ns[list[a - 1]].(next := node)]
    ensures list[a - 1] !in others
    ensures Links(ns', head, list[..a], node) && Links(ns', list[a], list[a..], -1)
  {
    hide Links, Whole;
    var v := list[a - 1];
    LinksCut(ns, head, list, -1, a);
    LinksCut(ns, head, list, -1, a - 1);
    MultisetCut(list, a - 1);
    MultisetCut(list[a - 1..], 1);
    assert list[a - 1..][1..] == list[a..] && list[a - 1..][..1] == [v];
    OnlyOnce(multiset{v}, multiset(list[..a - 1]) + multiset(list[a..]) + others, |ns|, v);
    LinksUpdate(ns, v, ns'[v], head, list[..a - 1], v);
    LinksUpdate(ns, v, ns'[v], list[a], list[a..], -1);
    LinksSnoc(ns', head, list[..a - 1], v, node);
    assert list[..a - 1] + [v] == list[..a];
  }

  /** The first node of a list, apart from the rest of it and from all others. */
  lemma FirstNode(ns: seq<Node>, head: int, list: seq<int>, tail: int, others: multiset<int>)
    requires Links(ns, head, list, tail) && list != [] && multiset(list) + others == Whole(|ns|)
    ensures head == list[0] && 0 <= head < |ns| && Links(ns, ns[head].next, list[1..], tail)
    ensures head !in list[1..] && head !in others && multiset(list) == multiset{head} + multiset(list[1..])
  {
    MultisetCut(list, 1);
    assert list[..1] == [head];
    OnlyOnce(multiset{head}, multiset(list[1..]) + others, |ns|, head);
  }
}
