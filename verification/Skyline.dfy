/**
 * The geometry behind libs/stb/stb_rect_pack.h: a skyline as a list of steps, its height at every column,
 * and what happens to it when a rectangle is put on top.
 */
module Skyline {
  datatype Rect = Rect(x: int, y: int, w: int, h: int)

  /** From column x on the skyline is y high; the last step only marks the right border. */
  datatype Step = Step(x: int, y: int)

  ghost predicate Sorted(p: seq<Step>) {
    forall i, j :: 0 <= i < j < |p| ==> p[i].x < p[j].x
  }

  /** Steps from column 0 to the border at width, of heights up to height. */
  ghost predicate Rising(p: seq<Step>, width: int, height: int) {
    |p| >= 2 && p[0].x == 0 && p[|p| - 1].x == width && Sorted(p) && forall i :: 0 <= i < |p| - 1 ==>
      0 <= p[i].y <= height
  }

  /** The height of the skyline at column t. */
  ghost function SkyAt(p: seq<Step>, t: int): int {
    if p == [] then 0
    else if p[|p| - 1].x <= t then p[|p| - 1].y
    else SkyAt(p[..|p| - 1], t)
  }

  /** The height a rectangle of width w needs to clear the skyline when its left side is at x0. */
  ghost function Level(p: seq<Step>, x0: int, w: nat): int {
    if w == 0 then 0
    else
      var rest, last := Level(p, x0, w - 1), SkyAt(p, x0 + w - 1);
      if last > rest then last else rest
  }

  ghost predicate Inside(r: Rect, width: int, height: int) {
    0 <= r.x && r.x + r.w <= width && 0 <= r.y && r.y + r.h <= height
  }

  ghost predicate Apart(a: Rect, b: Rect) {
    a.x + a.w <= b.x || b.x + b.w <= a.x || a.y + a.h <= b.y || b.y + b.h <= a.y
  }

  /** The rectangle is below the skyline at all its columns. */
  ghost predicate Under(p: seq<Step>, r: Rect) {
    forall t {:trigger SkyAt(p, t)} :: r.x <= t < r.x + r.w ==> r.y + r.h <= SkyAt(p, t)
  }

  // ---------------------------------------------------------------- columns and levels

  lemma {:induction false} SkyConcat(a: seq<Step>, b: seq<Step>, t: int)
    requires Sorted(a + b) && b != []
    ensures SkyAt(a + b, t) == if b[0].x <= t then SkyAt(b, t) else SkyAt(a, t)
    decreases |b|
  {
    var n := |b| - 1;
    assert (a + b)[|a| + n] == b[n];
    assert (a + b)[..|a| + n] == a + b[..n];
    assert (a + b)[|a|] == b[0];
    if n == 0 {
      assert a + b[..n] == a;
    } else if t < b[n].x {
      SortedPrefix(a + b, |a| + n);
      SkyConcat(a, b[..n], t);
    }
  }

  lemma SortedPrefix(p: seq<Step>, n: nat)
    requires Sorted(p) && n <= |p|
    ensures Sorted(p[..n]) && Sorted(p[n..])
  {
  }

  /** Between the starts of two neighbouring steps the height is that of the left one. */
  lemma Column(p: seq<Step>, j: nat, t: int)
    requires Sorted(p) && j + 1 < |p| && p[j].x <= t < p[j + 1].x
    ensures SkyAt(p, t) == p[j].y
  {
    assert p == p[..j + 1] + p[j + 1..];
    SkyConcat(p[..j + 1], p[j + 1..], t);
    assert p[..j + 1][j] == p[j];
  }

  lemma {:induction false} LevelAtLeast(p: seq<Step>, x0: int, w: nat, t: int)
    requires x0 <= t < x0 + w
    ensures SkyAt(p, t) <= Level(p, x0, w)
  {
    if t < x0 + w - 1 {
      LevelAtLeast(p, x0, w - 1, t);
    }
  }

  lemma {:induction false} LevelAtMost(p: seq<Step>, x0: int, w: nat, m: nat)
    requires forall t {:trigger SkyAt(p, t)} :: x0 <= t < x0 + w ==> SkyAt(p, t) <= m
    ensures 0 <= Level(p, x0, w) <= m
  {
    if w > 0 {
      LevelAtMost(p, x0, w - 1, m);
    }
  }

  lemma {:induction false} LevelNat(p: seq<Step>, x0: int, w: nat)
    ensures 0 <= Level(p, x0, w)
  {
    if w > 0 {
      LevelNat(p, x0, w - 1);
    }
  }

  /** No column of q is lower than in p. */
  ghost predicate Above(p: seq<Step>, q: seq<Step>, width: int) {
    forall t {:trigger SkyAt(q, t)} :: 0 <= t < width ==> SkyAt(p, t) <= SkyAt(q, t)
  }

  lemma {:induction false} LevelMonotone(p: seq<Step>, q: seq<Step>, width: int, x0: int, w: nat)
    requires Above(p, q, width) && 0 <= x0 && x0 + w <= width
    ensures Level(p, x0, w) <= Level(q, x0, w)
  {
    if w > 0 {
      LevelMonotone(p, q, width, x0, w - 1);
      assert SkyAt(p, x0 + w - 1) <= SkyAt(q, x0 + w - 1);
    }
  }

  /** Over a stretch of constant height v the level becomes v or stays. */
  lemma {:induction false} LevelStretch(p: seq<Step>, x0: int, a: nat, b: nat, v: int)
    requires a < b && forall t {:trigger SkyAt(p, t)} :: x0 + a <= t < x0 + b ==> SkyAt(p, t) == v
    ensures Level(p, x0, b) == if v > Level(p, x0, a) then v else Level(p, x0, a)
    decreases b - a
  {
    assert SkyAt(p, x0 + b - 1) == v;
    if a + 1 < b {
      LevelStretch(p, x0, a, b - 1, v);
    }
  }

  /** The step that holds column t. */
  lemma {:induction false} StepOf(p: seq<Step>, t: int, n: nat) returns (j: nat)
    requires Sorted(p) && 0 < n < |p| && p[0].x <= t < p[n].x
    ensures j < n && p[j].x <= t < p[j + 1].x
  {
    if p[n - 1].x <= t {
      j := n - 1;
    } else {
      j := StepOf(p, t, n - 1);
    }
  }

  /** Moving a rectangle left to where the step below its left side begins never raises it. */
  lemma LeftAlign(p: seq<Step>, j: nat, x0: int, w: nat)
    requires Sorted(p) && j + 1 < |p| && p[j].x <= x0 < p[j + 1].x && w > 0
    ensures Level(p, p[j].x, w) <= Level(p, x0, w)
  {
    var m := Level(p, x0, w);
    LevelNat(p, x0, w);
    forall t {:trigger SkyAt(p, t)} | p[j].x <= t < p[j].x + w ensures SkyAt(p, t) <= m {
      if t < p[j + 1].x {
        Column(p, j, t);
        Column(p, j, x0);
        LevelAtLeast(p, x0, w, x0);
      } else {
        LevelAtLeast(p, x0, w, t);
      }
    }
    LevelAtMost(p, p[j].x, w, m);
  }

  // ---------------------------------------------------------------- putting a rectangle on top

  /** The steps before the rectangle, its own, and those after it; the first of those may lose some columns. */
  ghost function Raised(a: seq<Step>, x: int, top: int, x1: int, c: seq<Step>): seq<Step>
    requires c != []
  {
    a + [Step(x, top)] + Trimmed(c, x1)
  }

  /**
   * a are the steps left of x, c those kept on the right: c starts at the last step that begins by x1,
   * or at the first one after a.
   */
  ghost predicate Cut(p: seq<Step>, a: nat, m: nat, x: int, x1: int) {
    a <= m < |p| && x < x1 && (forall i :: 0 <= i < a ==> p[i].x < x) && (forall i :: a <= i < |p| ==> x <= p[i].x) &&
    (m + 1 < |p| ==> x1 < p[m + 1].x) && (a < m ==> p[m].x <= x1) && (a == m && x1 < p[m].x ==> a > 0)
  }

  lemma SortedConcat(a: seq<Step>, b: seq<Step>)
    requires Sorted(a) && Sorted(b) && (a != [] && b != [] ==> a[|a| - 1].x < b[0].x)
    ensures Sorted(a + b)
  {
    forall i, j | 0 <= i < j < |a + b| ensures (a + b)[i].x < (a + b)[j].x {
      if i < |a| <= j {
        assert i < |a| - 1 ==> a[i].x < a[|a| - 1].x;
        assert j > |a| ==> b[0].x < b[j - |a|].x;
      }
    }
  }

  ghost function Trimmed(c: seq<Step>, x1: int): seq<Step>
    requires c != []
  {
    [Step(if c[0].x < x1 then x1 else c[0].x, c[0].y)] + c[1..]
  }

  lemma TrimmedSorted(c: seq<Step>, x1: int)
    requires c != [] && Sorted(c) && (|c| > 1 ==> x1 < c[1].x)
    ensures Sorted(Trimmed(c, x1))
  {
    var one := [Trimmed(c, x1)[0]];
    assert Sorted(one);
    SortedPrefix(c, 1);
    SortedConcat(one, c[1..]);
  }

  lemma RaisedSorted(p: seq<Step>, a: nat, m: nat, x: int, top: int, x1: int)
    requires Sorted(p) && Cut(p, a, m, x, x1)
    ensures Sorted(Raised(p[..a], x, top, x1, p[m..])) && Sorted([Step(x, top)] + Trimmed(p[m..], x1)) &&
            Sorted(Trimmed(p[m..], x1))
  {
    var c := p[m..];
    SortedPrefix(p, a);
    SortedPrefix(p, m);
    TrimmedSorted(c, x1);
    SortedConcat([Step(x, top)], Trimmed(c, x1));
    SortedConcat(p[..a], [Step(x, top)] + Trimmed(c, x1));
    assert p[..a] + ([Step(x, top)] + Trimmed(c, x1)) == Raised(p[..a], x, top, x1, c);
  }

  lemma RaisedRising(p: seq<Step>, width: int, height: int, a: nat, m: nat, x: int, top: int, x1: int)
    requires Rising(p, width, height) && Cut(p, a, m, x, x1) && 0 <= x && x1 <= width && 0 <= top <= height
    ensures Rising(Raised(p[..a], x, top, x1, p[m..]), width, height)
  {
    hide Sorted;
    var c := p[m..];
    var q := Raised(p[..a], x, top, x1, c);
    RaisedSorted(p, a, m, x, top, x1);
    assert |q| == a + 1 + |c|;
    forall i | 0 <= i < |q| - 1 ensures 0 <= q[i].y <= height {
      if i > a + 1 {
        assert q[i] == c[i - a - 1];
      }
    }
    assert |c| > 1 ==> q[|q| - 1] == c[|c| - 1];
  }

  /** Raising hides nothing: no column gets lower, and the columns of the rectangle get its top. */
  lemma RaisedSky(p: seq<Step>, width: int, height: int, a: nat, m: nat, x: int, top: int, x1: int, t: int)
    requires Rising(p, width, height) && Cut(p, a, m, x, x1) && 0 <= t < width && 0 <= x
    requires forall t {:trigger SkyAt(p, t)} :: x <= t < x1 ==> SkyAt(p, t) <= top
    ensures SkyAt(p, t) <= SkyAt(Raised(p[..a], x, top, x1, p[m..]), t)
    ensures x <= t < x1 ==> SkyAt(Raised(p[..a], x, top, x1, p[m..]), t) == top
  {
    hide Sorted;
    var c := p[m..];
    var d := Trimmed(c, x1);
    RaisedSorted(p, a, m, x, top, x1);
    assert p[..a] + ([Step(x, top)] + d) == Raised(p[..a], x, top, x1, c);
    SkyConcat(p[..a], [Step(x, top)] + d, t);
    SkyConcat([Step(x, top)], d, t);
    if t < x {
      assert p == p[..a] + p[a..];
      SkyConcat(p[..a], p[a..], t);
    } else if t < d[0].x {
      GapColumn(p, width, height, a, m, x, top, x1, t);
    } else {
      TrimmedSky(p, m, x1, t);
    }
  }

  /** Columns under the raised step, also those right of the rectangle up to the next step. */
  lemma GapColumn(p: seq<Step>, width: int, height: int, a: nat, m: nat, x: int, top: int, x1: int, t: int)
    requires Rising(p, width, height) && Cut(p, a, m, x, x1) && x <= t && (t < x1 || t < p[m].x)
    requires forall t {:trigger SkyAt(p, t)} :: x <= t < x1 ==> SkyAt(p, t) <= top
    ensures SkyAt(p, t) <= top
  {
    if t >= x1 {
      assert a == m && a > 0;
      Column(p, a - 1, t);
      Column(p, a - 1, x);
      assert SkyAt(p, x) <= top;
    }
  }

  lemma SkyOne(s: Step, t: int)
    requires s.x <= t
    ensures SkyAt([s], t) == s.y
  {
  }

  lemma TrimmedSky(p: seq<Step>, m: nat, x1: int, t: int)
    requires Sorted(p) && m < |p| && (m + 1 < |p| ==> x1 < p[m + 1].x) && x1 <= t && p[m].x <= t
    ensures SkyAt(Trimmed(p[m..], x1), t) == SkyAt(p, t)
  {
    hide Sorted, SkyAt;
    var c := p[m..];
    var d := Trimmed(c, x1);
    SortedPrefix(p, m);
    TrimmedSorted(c, x1);
    assert p == p[..m] + c;
    SkyConcat(p[..m], c, t);
    SkyOne(c[0], t);
    SkyOne(d[0], t);
    assert c == [c[0]] + c[1..] && d == [d[0]] + c[1..];
    if |c| > 1 {
      SkyConcat([c[0]], c[1..], t);
      SkyConcat([d[0]], c[1..], t);
    } else {
      assert c == [c[0]] && d == [d[0]];
    }
  }

  /** A rectangle above the skyline is apart from one below it. */
  lemma PlacedApart(p: seq<Step>, r: Rect, x: int, y: int, w: nat, h: nat)
    requires Under(p, r) && r.w > 0 && w > 0 && forall t {:trigger SkyAt(p, t)} :: x <= t < x + w ==> SkyAt(p, t) <= y
    ensures Apart(r, Rect(x, y, w, h))
  {
    var t := if x < r.x then r.x else x;
    if r.x <= t < r.x + r.w && x <= t < x + w {
      assert SkyAt(p, t) <= y;
    }
  }
}
