/**
  Plain path reachability on a grid: the specification that the incremental
  connected-components structure has to agree with.
 */
module GridPaths {

  /** A grid square, or the coordinates of a cluster of squares. */
  datatype Pt = Pt(x: int, y: int)

  /** Orthogonal neighbours; diagonals do not count. */
  predicate Adjacent(a: Pt, b: Pt) {
    || (a.x == b.x && (a.y == b.y + 1 || b.y == a.y + 1))
    || (a.y == b.y && (a.x == b.x + 1 || b.x == a.x + 1))
  }

  /** p is a non-empty walk between orthogonal neighbours that never leaves S. */
  ghost predicate IsPath(S: set<Pt>, p: seq<Pt>) {
    && |p| > 0
    && (forall i :: 0 <= i < |p| ==> p[i] in S)
    && (forall i :: 0 < i < |p| ==> Adjacent(p[i - 1], p[i]))
  }

  /** Some path inside S leads from a to b. */
  ghost predicate Joined(S: set<Pt>, a: Pt, b: Pt) {
    exists p :: IsPath(S, p) && p[0] == a && p[|p| - 1] == b
  }

  lemma JoinedRefl(S: set<Pt>, a: Pt)
    requires a in S
    ensures Joined(S, a, a)
  {
    assert IsPath(S, [a]);
  }

  lemma JoinedEdge(S: set<Pt>, a: Pt, b: Pt)
    requires a in S && b in S && Adjacent(a, b)
    ensures Joined(S, a, b)
  {
    var p := [a, b];
    assert IsPath(S, p) && p[0] == a && p[|p| - 1] == b;
  }

  lemma JoinedTrans(S: set<Pt>, a: Pt, b: Pt, c: Pt)
    requires Joined(S, a, b) && Joined(S, b, c)
    ensures Joined(S, a, c)
  {
    var p :| IsPath(S, p) && p[0] == a && p[|p| - 1] == b;
    var q :| IsPath(S, q) && q[0] == b && q[|q| - 1] == c;
    var r := p + q[1..];
    assert IsPath(S, r) && r[0] == a && r[|r| - 1] == c;
  }

  lemma JoinedSym(S: set<Pt>, a: Pt, b: Pt)
    requires Joined(S, a, b)
    ensures Joined(S, b, a)
  {
    var p :| IsPath(S, p) && p[0] == a && p[|p| - 1] == b;
    var r := seq(|p|, i requires 0 <= i < |p| => p[|p| - 1 - i]);
    assert IsPath(S, r) && r[0] == b && r[|r| - 1] == a;
  }

  /** p leads to r as a does; stepping from a to its neighbour b leads on to q. */
  lemma JoinedAcross(S: set<Pt>, p: Pt, r: Pt, a: Pt, b: Pt, q: Pt)
    requires Joined(S, p, r) && Joined(S, a, r) && Joined(S, b, q)
    requires a in S && b in S && Adjacent(a, b)
    ensures Joined(S, p, q)
  {
    JoinedSym(S, a, r);
    JoinedTrans(S, p, r, a);
    JoinedEdge(S, a, b);
    JoinedTrans(S, p, a, b);
    JoinedTrans(S, p, b, q);
  }

  lemma JoinedMeet(S: set<Pt>, p: Pt, r: Pt, q: Pt)
    requires Joined(S, p, r) && Joined(S, q, r)
    ensures Joined(S, p, q)
  {
    JoinedSym(S, q, r);
    JoinedTrans(S, p, r, q);
  }

  lemma JoinedMono(S: set<Pt>, T: set<Pt>, a: Pt, b: Pt)
    requires Joined(S, a, b) && S <= T
    ensures Joined(T, a, b)
  {
    var p :| IsPath(S, p) && p[0] == a && p[|p| - 1] == b;
    assert IsPath(T, p);
  }

  /** A labelling that is constant across every adjacent pair of S is constant along every path. */
  lemma {:induction false} ConstantAlongPath<L(!new)>(S: set<Pt>, f: map<Pt, L>, p: seq<Pt>)
    requires S <= f.Keys
    requires forall a, b :: a in S && b in S && Adjacent(a, b) ==> f[a] == f[b]
    requires IsPath(S, p)
    ensures f[p[0]] == f[p[|p| - 1]]
    decreases |p|
  {
    if |p| > 1 {
      var q := p[..|p| - 1];
      assert IsPath(S, q);
      ConstantAlongPath(S, f, q);
      assert Adjacent(p[|p| - 2], p[|p| - 1]);
    }
  }

  lemma ConstantOnJoined<L(!new)>(S: set<Pt>, f: map<Pt, L>, a: Pt, b: Pt)
    requires S <= f.Keys
    requires forall a, b :: a in S && b in S && Adjacent(a, b) ==> f[a] == f[b]
    requires Joined(S, a, b)
    ensures a in S && b in S && f[a] == f[b]
  {
    var p :| IsPath(S, p) && p[0] == a && p[|p| - 1] == b;
    ConstantAlongPath(S, f, p);
  }
}
