/**
  Disjoint-set forest with path compression and no union by rank, as used twice
  by the connected-components code: over the squares of one cluster and over
  the clumps of the whole grid.
 */
module DisjointSets {

  /** What the forest records about one element: its root, and a distance that falls towards that root. */
  ghost predicate NodeOK<T>(dom: set<T>, parent: map<T, T>, rep: map<T, T>, dist: map<T, nat>, t: T) {
    && t in dom && t in parent && t in rep && t in dist
    && parent[t] in dom && parent[t] in rep && parent[t] in dist && rep[parent[t]] == rep[t]
    && rep[t] in dom && rep[t] in parent && rep[t] in rep && rep[t] in dist
    && parent[rep[t]] == rep[t] && rep[rep[t]] == rep[t]
    && (parent[t] == t ==> rep[t] == t)
    && (parent[t] != t ==> dist[parent[t]] < dist[t])
    && (rep[t] != t ==> dist[rep[t]] < dist[t])
  }

  /**
    parent is a forest on dom: rep gives every element the root of its tree and
    dist strictly falls along parent links, so following links terminates.
   */
  ghost predicate ForestOK<T(!new)>(dom: set<T>, parent: map<T, T>, rep: map<T, T>, dist: map<T, nat>) {
    && dom <= parent.Keys && rep.Keys == dom && dist.Keys == dom
    && (forall t {:trigger NodeOK(dom, parent, rep, dist, t)} :: t in dom ==> NodeOK(dom, parent, rep, dist, t))
  }

  /** The roots after every element of the class rooted at p is given the root q. */
  ghost function Moved<T>(rep: map<T, T>, p: T, q: T): map<T, T> {
    map z | z in rep :: if rep[z] == p then q else rep[z]
  }

  lemma SingletonKeepsForest<T(!new)>(dom: set<T>, parent: map<T, T>, rep: map<T, T>, dist: map<T, nat>, t: T)
    requires ForestOK(dom, parent, rep, dist) && t !in dom
    ensures ForestOK(dom + {t}, parent[t := t], rep[t := t], dist[t := 0])
  {
    forall z | z in dom + {t} ensures NodeOK(dom + {t}, parent[t := t], rep[t := t], dist[t := 0], z) {
      assert z != t ==> NodeOK(dom, parent, rep, dist, z);
    }
  }

  lemma CompressionKeepsForest<T(!new)>(dom: set<T>, parent: map<T, T>, rep: map<T, T>, dist: map<T, nat>, t: T)
    requires ForestOK(dom, parent, rep, dist) && t in dom
    ensures ForestOK(dom, parent[t := rep[t]], rep, dist)
  {
    forall z | z in dom ensures NodeOK(dom, parent[t := rep[t]], rep, dist, z) {
      assert NodeOK(dom, parent, rep, dist, z);
      assert NodeOK(dom, parent, rep, dist, rep[z]);
    }
  }

  lemma LinkKeepsForest<T(!new)>(dom: set<T>, parent: map<T, T>, rep: map<T, T>, dist: map<T, nat>, p: T, q: T)
    returns (dist': map<T, nat>)
    requires ForestOK(dom, parent, rep, dist)
    requires p in dom && q in dom && rep[p] == p && rep[q] == q && p != q
    ensures ForestOK(dom, parent[p := q], Moved(rep, p, q), dist')
  {
    hide NodeOK;
    dist' := map z | z in dom :: if rep[z] == p then dist[z] + dist[q] + 1 else dist[z];
    var parent', rep' := parent[p := q], Moved(rep, p, q);
    assert rep'.Keys == dom && dist'.Keys == dom;
    forall z | z in dom ensures NodeOK(dom, parent', rep', dist', z) {
      LinkNode(dom, parent, rep, dist, p, q, parent', rep', dist', z);
    }
  }

  lemma LinkNode<T(!new)>(dom: set<T>, parent: map<T, T>, rep: map<T, T>, dist: map<T, nat>, p: T, q: T,
                          parent': map<T, T>, rep': map<T, T>, dist': map<T, nat>, z: T)
    requires ForestOK(dom, parent, rep, dist) && z in dom
    requires p in dom && q in dom && rep[p] == p && rep[q] == q && p != q
    requires parent' == parent[p := q]
    requires rep'.Keys == dom && forall x {:trigger rep'[x]} :: x in dom ==>
               rep'[x] == if rep[x] == p then q else rep[x]
    requires dist'.Keys == dom
    requires forall x {:trigger dist'[x]} :: x in dom ==>
               dist'[x] == if rep[x] == p then dist[x] + dist[q] + 1 else dist[x]
    ensures NodeOK(dom, parent', rep', dist', z)
  {
    assert NodeOK(dom, parent, rep, dist, z);
    assert NodeOK(dom, parent, rep, dist, q);
    assert rep'[q] == q;
    if rep[z] == p {
      assert parent'[q] == q;
    } else {
      assert rep'[rep[z]] == rep[z];
      assert z != p;
    }
  }

  lemma SwitchKeepsForest<T(!new)>(dom: set<T>, parent: map<T, T>, rep: map<T, T>, dist: map<T, nat>, v: T)
    returns (dist': map<T, nat>)
    requires ForestOK(dom, parent, rep, dist) && v in dom && rep[v] != v
    ensures rep[v] in dom
    ensures ForestOK(dom, parent[rep[v] := v][v := v], Moved(rep, rep[v], v), dist')
  {
    assert NodeOK(dom, parent, rep, dist, v);
    var p := rep[v];
    dist' := map z | z in dom :: if z == v then 0 else if z == p then 1 else dist[z] + 2;
    var parent', rep' := parent[p := v][v := v], Moved(rep, p, v);
    forall z | z in dom ensures NodeOK(dom, parent', rep', dist', z) {
      SwitchNode(dom, parent, rep, dist, v, p, parent', rep', dist', z);
    }
  }

  lemma SwitchNode<T(!new)>(dom: set<T>, parent: map<T, T>, rep: map<T, T>, dist: map<T, nat>, v: T, p: T,
                            parent': map<T, T>, rep': map<T, T>, dist': map<T, nat>, z: T)
    requires ForestOK(dom, parent, rep, dist) && v in dom && rep[v] == p && p != v && p in dom && z in dom
    requires parent' == parent[p := v][v := v]
    requires rep'.Keys == dom && forall x {:trigger rep'[x]} :: x in dom ==>
               rep'[x] == if rep[x] == p then v else rep[x]
    requires dist'.Keys == dom
    requires forall x {:trigger dist'[x]} :: x in dom ==>
               dist'[x] == if x == v then 0 else if x == p then 1 else dist[x] + 2
    ensures NodeOK(dom, parent', rep', dist', z)
  {
    assert NodeOK(dom, parent, rep, dist, z);
    assert NodeOK(dom, parent, rep, dist, v);
    assert rep'[v] == v;
    if rep[z] == p {
      assert parent'[v] == v;
    } else {
      assert rep'[rep[z]] == rep[z];
      assert parent[z] != v && parent[z] != p;
    }
  }

  class Forest<T(!new, ==)> {
    var parent: map<T, T>
    ghost var dom: set<T>
    ghost var rep: map<T, T>
    ghost var dist: map<T, nat>

    ghost predicate Valid()
      reads this
    {
      ForestOK(dom, parent, rep, dist)
    }

    constructor ()
      ensures Valid() && dom == {} && parent == map[] && rep == map[]
    {
      parent, dom, rep, dist := map[], {}, map[], map[];
    }

    /** Makes t a singleton tree of its own. */
    method MakeSet(t: T)
      requires Valid() && t !in dom
      modifies this
      ensures Valid() && dom == old(dom) + {t}
      ensures parent == old(parent)[t := t] && rep == old(rep)[t := t]
    {
      SingletonKeepsForest(dom, parent, rep, dist, t);
      parent, dom, rep, dist := parent[t := t], dom + {t}, rep[t := t], dist[t := 0];
    }

    /** Root of t's tree; afterwards t and everything above it hang directly below the root. */
    method Find(t: T) returns (r: T)
      requires Valid() && t in dom
      modifies this`parent
      ensures Valid() && parent.Keys == old(parent.Keys)
      ensures r == rep[t] && parent[t] == r
      ensures forall z :: z in parent ==> parent[z] == old(parent)[z] || (z in dom && parent[z] == rep[z])
      decreases dist[t]
    {
      assert NodeOK(dom, parent, rep, dist, t);
      r := parent[t];
      if r == t {
        return;
      }
      r := Find(r);
      CompressionKeepsForest(dom, parent, rep, dist, t);
      assert NodeOK(dom, parent, rep, dist, t);
      parent := parent[t := r];
    }

    /** Joins the trees of a and b; the root of b's tree stays a root. */
    method Union(a: T, b: T)
      requires Valid() && a in dom && b in dom
      modifies this
      ensures Valid() && dom == old(dom) && parent.Keys == old(parent.Keys)
      ensures rep == Moved(old(rep), old(rep)[a], old(rep)[b])
      ensures forall z :: z in parent && z !in dom ==> parent[z] == old(parent)[z]
    {
      assert NodeOK(dom, parent, rep, dist, a) && NodeOK(dom, parent, rep, dist, b);
      var p := Find(a);
      var q := Find(b);
      Join(p, q);
    }

    /** Joins the trees of a and b, starting the searches from the labels stored for a and b. */
    method UnionLabels(a: T, b: T)
      requires Valid() && a in dom && b in dom
      modifies this
      ensures Valid() && dom == old(dom) && parent.Keys == old(parent.Keys)
      ensures rep == Moved(old(rep), old(rep)[a], old(rep)[b])
      ensures forall z :: z in parent && z !in dom ==> parent[z] == old(parent)[z]
    {
      assert NodeOK(dom, parent, rep, dist, a) && NodeOK(dom, parent, rep, dist, b);
      var p := Find(parent[a]);
      assert NodeOK(dom, parent, rep, dist, b);
      var q := Find(parent[b]);
      Join(p, q);
    }

    /** Hangs the root p below the root q unless they are the same. */
    method Join(p: T, q: T)
      requires Valid() && p in dom && q in dom && rep[p] == p && rep[q] == q
      modifies this
      ensures Valid() && dom == old(dom) && parent.Keys == old(parent.Keys)
      ensures rep == Moved(old(rep), p, q)
      ensures forall z :: z in parent && z !in dom ==> parent[z] == old(parent)[z]
    {
      if p == q {
        assert rep == Moved(rep, p, q);
        return;
      }
      ghost var dist' := LinkKeepsForest(dom, parent, rep, dist, p, q);
      parent, rep, dist := parent[p := q], Moved(rep, p, q), dist';
    }

    /** Stores t as its own label without making it part of the forest. */
    method SetSelf(t: T)
      requires Valid() && dom == {}
      modifies this
      ensures Valid() && dom == {} && parent == old(parent)[t := t]
    {
      parent := parent[t := t];
      Forget();
    }

    /** The stored labels stop being read as a forest. */
    ghost method Forget()
      modifies this`dom, this`rep, this`dist
      ensures Valid() && dom == {} && rep == map[]
    {
      dom, rep, dist := {}, map[], map[];
    }

    /** Makes v, a member of the tree below p, the root of that tree in p's place. */
    method SwitchRoot(v: T, p: T)
      requires Valid() && v in dom && rep[v] == p && v != p
      modifies this
      ensures Valid() && dom == old(dom) && parent == old(parent)[p := v][v := v]
      ensures rep == Moved(old(rep), p, v)
    {
      ghost var dist' := SwitchKeepsForest(dom, parent, rep, dist, v);
      parent, rep, dist := parent[p := v][v := v], Moved(rep, p, v), dist';
    }
  }
}
