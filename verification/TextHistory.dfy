/**
 * Editing as a history of texts: what edits, undo and redo of libs/stb/stb_textedit.h mean
 * when there is room for a number of states and a number of characters.
 */
module TextHistory {
  import opened UndoHistory

  datatype History = History(past: seq<Mark>, text: Text, future: seq<Mark>)

  datatype Op =
    | Insertion(pos: nat, s: Text)
    | Deletion(pos: nat, len: nat)
    | Replacement(pos: nat, len: nat, s: Text)
    | Back
    | Forth

  /** A record that keeps n characters can join those of past. */
  ghost predicate HasRoom(past: seq<Mark>, states: nat, space: nat, n: nat) {
    |past| < states && KeptIn(past) + n <= space
  }

  /** What is left of past when as few of its oldest texts as possible make room for n characters. */
  ghost function Forget(past: seq<Mark>, states: nat, space: nat, n: nat): seq<Mark> {
    if past == [] || HasRoom(past, states, space, n) then past else Forget(past[1..], states, space, n)
  }

  /** The part kept is the longest one that leaves room. */
  lemma {:induction false} ForgetLeast(past: seq<Mark>, states: nat, space: nat, n: nat) returns (k: nat)
    requires 0 < states && n <= space
    ensures k <= |past| && Forget(past, states, space, n) == past[k..]
    ensures |past[k..]| < states && KeptIn(past[k..]) + n <= space
    ensures forall j {:trigger past[j..]} :: 0 <= j < k ==> |past[j..]| >= states || KeptIn(past[j..]) + n > space
  {
    assert past[0..] == past;
    if past == [] || HasRoom(past, states, space, n) {
      k := 0;
    } else {
      k := ForgetLeast(past[1..], states, space, n);
      assert forall j :: 0 <= j < |past| ==> past[1..][j..] == past[j + 1..];
      forall j | 0 <= j < k + 1 ensures !HasRoom(past[j..], states, space, n) {
        if j > 0 {
          assert past[1..][j - 1..] == past[j..];
        }
      }
      k := k + 1;
    }
  }

  /** An edit to t whose record keeps n characters; if these can never fit, nothing can be undone any more. */
  ghost function Edited(h: History, t: Text, n: nat, states: nat, space: nat): History {
    if n > space then History([], t, [])
    else History(Forget(h.past, states, space, n) + [Mark(h.text, n)], t, [])
  }

  ghost function Step(h: History, op: Op, states: nat, space: nat): History {
    match op
    case Insertion(pos, s) =>
      if pos <= |h.text| then Edited(h, Splice(h.text, pos, 0, s), 0, states, space) else h
    case Deletion(pos, len) =>
      if pos + len <= |h.text| then Edited(h, Splice(h.text, pos, len, []), len, states, space) else h
    case Replacement(pos, len, s) =>
      if pos + len <= |h.text| then Edited(h, Splice(h.text, pos, len, s), len, states, space) else h
    case Back =>
      if h.past == [] then h
      else
        var m := |h.past| - 1;
        History(h.past[..m], h.past[m].text, [Mark(h.text, h.past[m].kept)] + h.future)
    case Forth =>
      if h.future == [] then h
      else History(h.past + [Mark(h.text, h.future[0].kept)], h.future[0].text, h.future[1..])
  }

  /** What every operation does to the text, part by part. */
  lemma StepText(h: History, op: Op, states: nat, space: nat)
    ensures var t, t' := h.text, Step(h, op, states, space).text;
            match op
            case Insertion(pos, s) =>
              pos <= |t| ==> |t'| == |t| + |s| && t'[..pos] == t[..pos] && t'[pos..pos + |s|] == s &&
                             t'[pos + |s|..] == t[pos..]
            case Deletion(pos, len) =>
              pos + len <= |t| ==> |t'| == |t| - len && t'[..pos] == t[..pos] && t'[pos..] == t[pos + len..]
            case Replacement(pos, len, s) =>
              pos + len <= |t| ==> |t'| == |t| - len + |s| && t'[..pos] == t[..pos] && t'[pos..pos + |s|] == s &&
                                   t'[pos + |s|..] == t[pos + len..]
            case Back => t' == if h.past == [] then t else h.past[|h.past| - 1].text
            case Forth => t' == if h.future == [] then t else h.future[0].text
  {
    hide Forget;
  }

  /** A run of operations. */
  ghost function Play(h: History, ops: seq<Op>, states: nat, space: nat): History {
    if ops == [] then h
    else
      var m := |ops| - 1;
      Step(Play(h, ops[..m], states, space), ops[m], states, space)
  }

  lemma {:induction false} PlayConcat(h: History, a: seq<Op>, b: seq<Op>, states: nat, space: nat)
    ensures Play(h, a + b, states, space) == Play(Play(h, a, states, space), b, states, space)
    decreases |b|
  {
    hide Step;
    if b == [] {
      assert a + b == a;
    } else {
      var m := |b| - 1;
      assert (a + b)[..|a| + m] == a + b[..m] && (a + b)[|a| + m] == b[m];
      PlayConcat(h, a, b[..m], states, space);
    }
  }

  lemma {:induction false} PlayOne(h: History, ops: seq<Op>, op: Op, states: nat, space: nat)
    ensures Play(h, ops + [op], states, space) == Step(Play(h, ops, states, space), op, states, space)
  {
    hide Step;
    assert (ops + [op])[..|ops|] == ops;
  }

  // ---------------------------------------------------------------- what can be done

  /** The characters that undoing the latest change takes out of the text. */
  ghost function TakenOut(h: History): int
    requires h.past != []
  {
    var m := h.past[|h.past| - 1];
    |h.text| + m.kept - |m.text|
  }

  /** They can be kept for redo, beside the undo characters, at all. */
  ghost predicate UndoKeeps(h: History, space: nat) {
    h.past != [] && TakenOut(h) > 0 ==> KeptIn(h.past) + TakenOut(h) < space
  }

  /** They can be kept without discarding what is kept for redo already. */
  ghost predicate UndoFitsBeside(h: History, space: nat) {
    h.past != [] && TakenOut(h) > 0 ==> KeptIn(h.past) + TakenOut(h) + Reserved(h.text, h.future) <= space
  }

  /** Positions are inside the text, and an undo can keep its characters. */
  ghost predicate CanStep(h: History, op: Op, space: nat) {
    match op
    case Insertion(pos, s) => pos <= |h.text|
    case Deletion(pos, len) => pos + len <= |h.text|
    case Replacement(pos, len, s) => pos + len <= |h.text|
    case Back => UndoKeeps(h, space) && UndoFitsBeside(h, space)
    case Forth => true
  }

  ghost predicate CanPlay(h: History, ops: seq<Op>, states: nat, space: nat) {
    ops == [] ||
    var m := |ops| - 1;
    CanPlay(h, ops[..m], states, space) && CanStep(Play(h, ops[..m], states, space), ops[m], space)
  }

  lemma {:induction false} CanPlayOne(h: History, ops: seq<Op>, op: Op, states: nat, space: nat)
    ensures CanPlay(h, ops + [op], states, space) <==>
            CanPlay(h, ops, states, space) && CanStep(Play(h, ops, states, space), op, space)
  {
    hide Play, CanStep;
    assert (ops + [op])[..|ops|] == ops;
  }

  lemma {:induction false} CanPlayPrefix(h: History, ops: seq<Op>, k: nat, states: nat, space: nat)
    requires CanPlay(h, ops, states, space) && k <= |ops|
    ensures CanPlay(h, ops[..k], states, space)
    decreases |ops|
  {
    hide Play, CanStep;
    if k == |ops| {
      assert ops[..k] == ops;
    } else {
      CanPlayPrefix(h, ops[..|ops| - 1], k, states, space);
      assert ops[..|ops| - 1][..k] == ops[..k];
    }
  }

  // ---------------------------------------------------------------- going back and forth

  /** All texts of a history in order, and what the changes between them keep. */
  ghost function Line(h: History): seq<Text> {
    Texts(h.past) + [h.text] + Texts(h.future)
  }

  ghost function Keeps(h: History): seq<nat> {
    Numbers(h.past) + Numbers(h.future)
  }

  ghost function Texts(ms: seq<Mark>): (ts: seq<Text>)
    ensures |ts| == |ms|
  {
    seq(|ms|, i requires 0 <= i < |ms| => ms[i].text)
  }

  ghost function Numbers(ms: seq<Mark>): (ns: seq<nat>)
    ensures |ns| == |ms|
  {
    seq(|ms|, i requires 0 <= i < |ms| => ms[i].kept)
  }

  ghost predicate Walk(ops: seq<Op>) {
    forall i :: 0 <= i < |ops| ==> ops[i] == Back || ops[i] == Forth
  }

  lemma StepKeepsLine(h: History, op: Op, states: nat, space: nat)
    requires op == Back || op == Forth
    ensures Line(Step(h, op, states, space)) == Line(h) && Keeps(Step(h, op, states, space)) == Keeps(h)
  {
    var h' := Step(h, op, states, space);
    if op == Back && h.past != [] {
      BackOnLine(h, h');
    } else if op == Forth && h.future != [] {
      BackOnLine(h', h);
    }
  }

  /** h' is h one step back. */
  lemma BackOnLine(h: History, h': History)
    requires h.past != [] && h'.future != [] && h.past == h'.past + [Mark(h'.text, h'.future[0].kept)]
    requires h'.future == [Mark(h.text, h.past[|h.past| - 1].kept)] + h.future
    ensures Line(h') == Line(h) && Keeps(h') == Keeps(h)
  {
    var n := |h'.past|;
    assert |h.past| == n + 1 && h.past[n] == Mark(h'.text, h'.future[0].kept);
    assert Texts(h.past) == Texts(h'.past) + [h'.text];
    assert Texts(h'.future) == [h.text] + Texts(h.future);
    assert Numbers(h.past) == Numbers(h'.past) + [h.past[n].kept];
    assert Numbers(h'.future) == [h.past[n].kept] + Numbers(h.future);
  }

  /** Undo and redo only move along the line of texts. */
  lemma {:induction false} WalkKeepsLine(h: History, ops: seq<Op>, states: nat, space: nat)
    requires Walk(ops)
    ensures Line(Play(h, ops, states, space)) == Line(h) && Keeps(Play(h, ops, states, space)) == Keeps(h)
  {
    hide Step, Line, Keeps;
    if ops != [] {
      var m := |ops| - 1;
      WalkKeepsLine(h, ops[..m], states, space);
      StepKeepsLine(Play(h, ops[..m], states, space), ops[m], states, space);
    }
  }

  /** The line and the place on it determine a history. */
  lemma SamePlace(g: History, h: History)
    requires Line(g) == Line(h) && Keeps(g) == Keeps(h) && |g.past| == |h.past|
    ensures g == h
  {
    var n := |h.past|;
    assert Texts(g.past) == Line(g)[..n] && Texts(h.past) == Line(h)[..n];
    assert g.text == Line(g)[n] && h.text == Line(h)[n];
    assert Texts(g.future) == Line(g)[n + 1..] && Texts(h.future) == Line(h)[n + 1..];
    assert Numbers(g.past) == Keeps(g)[..n] && Numbers(h.past) == Keeps(h)[..n];
    assert Numbers(g.future) == Keeps(g)[n..] && Numbers(h.future) == Keeps(h)[n..];
    SameMarks(g.past, h.past);
    SameMarks(g.future, h.future);
  }

  lemma SameMarks(a: seq<Mark>, b: seq<Mark>)
    requires Texts(a) == Texts(b) && Numbers(a) == Numbers(b)
    ensures a == b
  {
    assert |a| == |Texts(a)| == |b|;
    forall i | 0 <= i < |a| ensures a[i] == b[i] {
      assert Texts(a)[i] == Texts(b)[i] && Numbers(a)[i] == Numbers(b)[i];
    }
  }

  /** Undos and redos that end where they began restore the text and the whole history. */
  lemma WalkRestores(h: History, ops: seq<Op>, states: nat, space: nat)
    requires Walk(ops) && |Play(h, ops, states, space).past| == |h.past|
    ensures Play(h, ops, states, space) == h
  {
    hide Play, Line, Keeps;
    WalkKeepsLine(h, ops, states, space);
    SamePlace(Play(h, ops, states, space), h);
  }

  // ---------------------------------------------------------------- edits, all undone, all redone

  ghost predicate IsEdit(op: Op) {
    op != Back && op != Forth
  }

  ghost predicate AllEdits(ops: seq<Op>) {
    forall i :: 0 <= i < |ops| ==> IsEdit(ops[i])
  }

  /** Characters an edit's record keeps, and characters it puts in. */
  function KeptBy(op: Op): nat {
    match op
    case Deletion(pos, len) => len
    case Replacement(pos, len, s) => len
    case _ => 0
  }

  function PutBy(op: Op): nat {
    match op
    case Insertion(pos, s) => |s|
    case Replacement(pos, len, s) => |s|
    case _ => 0
  }

  function KeptByAll(ops: seq<Op>): nat {
    if ops == [] then 0 else KeptByAll(ops[..|ops| - 1]) + KeptBy(ops[|ops| - 1])
  }

  function PutByAll(ops: seq<Op>): nat {
    if ops == [] then 0 else PutBy(ops[0]) + PutByAll(ops[1..])
  }

  /** All the edits find room for a record, and for their characters in both directions. */
  ghost predicate AllFit(h: History, edits: seq<Op>, states: nat, space: nat) {
    AllEdits(edits) && |h.past| + |edits| <= states && KeptIn(h.past) + KeptByAll(edits) + PutByAll(edits) < space
  }

  function Times(op: Op, k: nat): (ops: seq<Op>)
    ensures |ops| == k && forall i :: 0 <= i < k ==> ops[i] == op
  {
    seq(k, _ => op)
  }

  /** An edit that finds room forgets nothing. */
  lemma EditGrows(h: History, op: Op, states: nat, space: nat)
    requires IsEdit(op) && CanStep(h, op, space) && |h.past| < states && KeptIn(h.past) + KeptBy(op) <= space
    ensures var g := Step(h, op, states, space);
            g.past == h.past + [Mark(h.text, KeptBy(op))] && g.future == [] &&
            |g.text| == |h.text| - KeptBy(op) + PutBy(op) && KeptIn(g.past) == KeptIn(h.past) + KeptBy(op)
  {
    var past := h.past + [Mark(h.text, KeptBy(op))];
    assert past[..|h.past|] == h.past;
  }

  lemma {:induction false} KeptSplit(ops: seq<Op>, i: nat)
    requires i <= |ops|
    ensures KeptByAll(ops[..i]) <= KeptByAll(ops)
    ensures i < |ops| ==> KeptByAll(ops[..i + 1]) == KeptByAll(ops[..i]) + KeptBy(ops[i])
    decreases |ops|
  {
    if i < |ops| {
      assert ops[..i + 1][..i] == ops[..i];
    }
    if i == |ops| {
      assert ops[..i] == ops;
    } else {
      KeptSplit(ops[..|ops| - 1], i);
      assert ops[..|ops| - 1][..i] == ops[..i];
    }
  }

  lemma {:induction false} PutSplit(ops: seq<Op>, i: nat)
    requires i <= |ops|
    ensures PutByAll(ops[i..]) <= PutByAll(ops)
    ensures i < |ops| ==> PutByAll(ops[i..]) == PutBy(ops[i]) + PutByAll(ops[i + 1..])
    decreases i
  {
    if i < |ops| {
      assert ops[i..][1..] == ops[i + 1..];
    }
    if i == 0 {
      assert ops[0..] == ops;
    } else {
      PutSplit(ops, i - 1);
    }
  }

  /** The history after i of the edits: nothing has been forgotten. */
  lemma {:induction false} AfterEdits(h: History, edits: seq<Op>, i: nat, states: nat, space: nat)
    requires AllFit(h, edits, states, space) && CanPlay(h, edits, states, space) && i <= |edits|
    ensures var g := Play(h, edits[..i], states, space);
            |g.past| == |h.past| + i && KeptIn(g.past) == KeptIn(h.past) + KeptByAll(edits[..i]) && (i > 0 ==>
              g.future == [])
    ensures i < |edits| ==>
              var g := Play(h, edits[..i], states, space);
              CanStep(g, edits[i], space) && |g.past| < states && KeptIn(g.past) + KeptBy(edits[i]) <= space &&
              Play(h, edits[..i + 1], states, space) == Step(g, edits[i], states, space)
    decreases i
  {
    hide Step, CanStep, KeptIn;
    KeptSplit(edits, i);
    if i < |edits| {
      assert edits[..i + 1] == edits[..i] + [edits[i]];
      PlayOne(h, edits[..i], edits[i], states, space);
      CanPlayPrefix(h, edits, i + 1, states, space);
      CanPlayOne(h, edits[..i], edits[i], states, space);
      KeptSplit(edits, i + 1);
    }
    if i > 0 {
      AfterEdits(h, edits, i - 1, states, space);
      KeptSplit(edits, i - 1);
      EditGrows(Play(h, edits[..i - 1], states, space), edits[i - 1], states, space);
    } else {
      assert edits[..0] == [];
    }
  }

  /** The history after all edits and j undos is that after the first edits only, with the others to be redone. */
  lemma {:induction false} AfterBacks(h: History, edits: seq<Op>, j: nat, states: nat, space: nat)
    requires AllFit(h, edits, states, space) && CanPlay(h, edits, states, space) && j <= |edits| && edits != []
    ensures var g, f := Play(h, edits + Times(Back, j), states, space), Play(h, edits[..|edits| - j], states, space);
            g.past == f.past && g.text == f.text && |g.future| == j &&
            Reserved(g.text, g.future) == PutByAll(edits[|edits| - j..])
    ensures CanPlay(h, edits + Times(Back, j), states, space)
    decreases j
  {
    hide Play, CanPlay, Step, CanStep, AllFit, KeptIn, Times;
    var k := |edits|;
    if j == 0 {
      assert edits + Times(Back, 0) == edits && edits[..k] == edits && edits[k..] == [];
      AfterEdits(h, edits, k, states, space);
    } else {
      AfterBacks(h, edits, j - 1, states, space);
      assert edits + Times(Back, j) == (edits + Times(Back, j - 1)) + [Back];
      PlayOne(h, edits + Times(Back, j - 1), Back, states, space);
      CanPlayOne(h, edits + Times(Back, j - 1), Back, states, space);
      OneBack(h, edits, k - j, Play(h, edits + Times(Back, j - 1), states, space), states, space);
    }
  }

  /** One undo, from the history g after edit i to that before it. */
  lemma OneBack(h: History, edits: seq<Op>, i: nat, g: History, states: nat, space: nat)
    requires AllFit(h, edits, states, space) && CanPlay(h, edits, states, space) && i < |edits|
    requires var f := Play(h, edits[..i + 1], states, space);
             g.past == f.past && g.text == f.text && Reserved(g.text, g.future) == PutByAll(edits[i + 1..])
    ensures var f, b := Play(h, edits[..i], states, space), Step(g, Back, states, space);
            b.past == f.past && b.text == f.text && |b.future| == |g.future| + 1 &&
            Reserved(b.text, b.future) == PutByAll(edits[i..])
    ensures CanStep(g, Back, space)
  {
    hide Play, KeptIn, KeptByAll, CanPlay;
    var f, op := Play(h, edits[..i], states, space), edits[i];
    AfterEdits(h, edits, i, states, space);
    AfterEdits(h, edits, i + 1, states, space);
    assert IsEdit(op);
    EditGrows(f, op, states, space);
    KeptSplit(edits, i + 1);
    PutSplit(edits, i);
    var b := Step(g, Back, states, space);
    assert f.past + [Mark(f.text, KeptBy(op))] == g.past;
    assert b.past == f.past && b.future[1..] == g.future;
    assert TakenOut(g) == PutBy(op);
  }

  lemma {:induction false} AfterForths(g: History, j: nat, states: nat, space: nat)
    requires j <= |g.future|
    ensures var f := Play(g, Times(Forth, j), states, space); |f.past| == |g.past| + j && |f.future| == |g.future| - j
  {
    if j > 0 {
      AfterForths(g, j - 1, states, space);
      assert Times(Forth, j) == Times(Forth, j - 1) + [Forth];
      PlayOne(g, Times(Forth, j - 1), Forth, states, space);
    }
  }

  lemma {:induction false} ForthsCan(h: History, ops: seq<Op>, j: nat, states: nat, space: nat)
    requires CanPlay(h, ops, states, space)
    ensures CanPlay(h, ops + Times(Forth, j), states, space)
  {
    hide Play;
    if j == 0 {
      assert ops + Times(Forth, 0) == ops;
    } else {
      ForthsCan(h, ops, j - 1, states, space);
      assert ops + Times(Forth, j) == (ops + Times(Forth, j - 1)) + [Forth];
      CanPlayOne(h, ops + Times(Forth, j - 1), Forth, states, space);
    }
  }

  /**
   * Any edits that find room can all be undone, which restores the text and the past before them,
   * and all be redone, which restores everything after them.
   */
  lemma UndoAllRedoAll(h: History, edits: seq<Op>, states: nat, space: nat)
    requires AllFit(h, edits, states, space) && CanPlay(h, edits, states, space)
    ensures var k := |edits|;
            var back := Play(h, edits + Times(Back, k), states, space);
            back.text == h.text && back.past == h.past &&
            Play(h, edits + Times(Back, k) + Times(Forth, k), states, space) == Play(h, edits, states, space) &&
            CanPlay(h, edits + Times(Back, k) + Times(Forth, k), states, space)
  {
    hide Play, CanPlay, AllFit;
    var k := |edits|;
    var backs, forths := Times(Back, k), Times(Forth, k);
    if k == 0 {
      assert edits + backs == edits && edits + backs + forths == edits;
      PlayNothing(h, states, space);
    } else {
      var done := Play(h, edits, states, space);
      AfterBacks(h, edits, k, states, space);
      assert edits[..0] == [];
      PlayNothing(h, states, space);
      ForthsCan(h, edits + backs, k, states, space);
      PlayConcat(h, edits, backs, states, space);
      PlayConcat(done, backs, forths, states, space);
      assert edits + backs + forths == edits + (backs + forths);
      PlayConcat(h, edits, backs + forths, states, space);
      AfterForths(Play(done, backs, states, space), k, states, space);
      AfterEdits(h, edits, k, states, space);
      assert edits[..k] == edits;
      WalkRestores(done, backs + forths, states, space);
    }
  }

  lemma PlayNothing(h: History, states: nat, space: nat)
    ensures Play(h, [], states, space) == h
  {
  }
}
