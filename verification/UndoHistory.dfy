/**
 * The two stacks of libs/stb/stb_textedit.h's undo engine, as values: what a stack of
 * undo or redo records, together with the characters it keeps, says about past and future texts.
 */
module UndoHistory {
  type Text = seq<char>

  /** A text to go back or on to, with the number of characters its undo record keeps. */
  datatype Mark = Mark(text: Text, kept: nat)

  /** One record: at pos, delete del characters and put back ins stored ones. */
  datatype Record = Record(pos: nat, ins: nat, del: nat, storage: int)

  function Splice(t: Text, pos: nat, del: nat, s: Text): Text
    requires pos + del <= |t|
  {
    t[..pos] + s + t[pos + del..]
  }

  /** Carrying out r with the stored characters s turns the text from into the text to. */
  ghost predicate Turns(r: Record, s: Text, from: Text, to: Text) {
    r.pos + r.del <= |from| && |s| == r.ins && to == Splice(from, r.pos, r.del, s)
  }

  /** Records without characters say so with a negative position. */
  predicate StoredAt(r: Record, at: int) {
    r.storage == if r.ins == 0 then -1 else at
  }

  /**
   * Records oldest first. Their characters lie one after the other and fill chars;
   * undoing them newest first leads from text back through the texts of past.
   */
  ghost predicate UndoStack(recs: seq<Record>, chars: Text, past: seq<Mark>, text: Text)
    decreases |recs|
  {
    |recs| == |past| &&
    if recs == [] then chars == []
    else
      var m := |recs| - 1;
      var at := |chars| - recs[m].ins;
      at >= 0 && recs[m].ins == past[m].kept && StoredAt(recs[m], at) &&
      Turns(recs[m], chars[at..], text, past[m].text) &&
      UndoStack(recs[..m], chars[..at], past[..m], past[m].text)
  }

  /**
   * Records next-to-redo first. Their characters lie one after the other from base on;
   * redoing them leads from text on through the texts of future, and the characters each redo
   * takes away fit between low, the end of the undo characters, and what is still stored.
   */
  ghost predicate RedoStack(recs: seq<Record>, chars: Text, low: nat, base: nat, text: Text, future: seq<Mark>)
    decreases |recs|
  {
    |recs| == |future| &&
    if recs == [] then chars == []
    else
      var r := recs[0];
      r.ins <= |chars| && r.del == future[0].kept && StoredAt(r, base) && low + r.del <= base &&
      Turns(r, chars[..r.ins], text, future[0].text) &&
      RedoStack(recs[1..], chars[r.ins..], low + r.del, base + r.ins, future[0].text, future[1..])
  }

  /** The record that takes back what r does to from. */
  function Inverse(r: Record, at: int): (i: Record)
    ensures StoredAt(i, at)
  {
    Record(r.pos, r.del, r.ins, if r.del == 0 then -1 else at)
  }

  function Taken(r: Record, from: Text): Text
    requires r.pos + r.del <= |from|
  {
    from[r.pos..r.pos + r.del]
  }

  /** A change is taken back by putting what it deleted where it inserted. */
  lemma TurnsBack(r: Record, s: Text, from: Text, to: Text, at: int)
    requires Turns(r, s, from, to)
    ensures Turns(Inverse(r, at), Taken(r, from), to, from)
  {
    var back := Taken(r, from);
    assert to[..r.pos] == from[..r.pos];
    assert to[r.pos + r.ins..] == from[r.pos + r.del..];
    assert from == from[..r.pos] + back + from[r.pos + r.del..];
  }

  /** One more record on top of an undo stack. */
  lemma {:induction false} UndoSnoc(recs: seq<Record>, chars: Text, past: seq<Mark>, u: Record, s: Text, mark: Mark,
                                    text: Text)
    requires UndoStack(recs, chars, past, mark.text)
    requires u.ins == mark.kept && StoredAt(u, |chars|) && Turns(u, s, text, mark.text)
    ensures UndoStack(recs + [u], chars + s, past + [mark], text)
  {
    var recs', chars', past' := recs + [u], chars + s, past + [mark];
    assert recs'[..|recs|] == recs && past'[..|past|] == past;
    assert chars'[..|chars|] == chars && chars'[|chars|..] == s;
  }

  /** Carrying out r forwards adds its inverse to the undo stack. */
  lemma {:induction false} UndoPush(recs: seq<Record>, chars: Text, past: seq<Mark>, r: Record, s: Text, text: Text,
                                    to: Text)
    requires UndoStack(recs, chars, past, text) && Turns(r, s, text, to)
    ensures UndoStack(recs + [Inverse(r, |chars|)], chars + Taken(r, text), past + [Mark(text, r.del)], to)
  {
    hide UndoStack;
    TurnsBack(r, s, text, to, |chars|);
    UndoSnoc(recs, chars, past, Inverse(r, |chars|), Taken(r, text), Mark(text, r.del), to);
  }

  /** Carrying out the undo record u adds its inverse to the redo stack. */
  lemma {:induction false} RedoPush(recs: seq<Record>, chars: Text, low: nat, base: nat, future: seq<Mark>, u: Record,
                                    s: Text, text: Text, to: Text)
    requires RedoStack(recs, chars, low, base, text, future) && Turns(u, s, text, to)
    requires u.ins <= low && low + u.del <= base
    ensures RedoStack([Inverse(u, base - u.del)] + recs, Taken(u, text) + chars, low - u.ins, base - u.del, to,
            [Mark(text, u.ins)] + future)
  {
    TurnsBack(u, s, text, to, base - u.del);
    var recs', chars', future' := [Inverse(u, base - u.del)] + recs, Taken(u, text) + chars,
        [Mark(text, u.ins)] + future;
    assert recs'[1..] == recs && future'[1..] == future;
    assert chars'[..u.del] == Taken(u, text) && chars'[u.del..] == chars;
  }

  // ---------------------------------------------------------------- forgetting the oldest record

  /** Number of characters a list of records keeps. */
  function Total(recs: seq<Record>): nat {
    if recs == [] then 0 else Total(recs[..|recs| - 1]) + recs[|recs| - 1].ins
  }

  /** Number of characters the undo records of marked texts keep. */
  function KeptIn(past: seq<Mark>): nat {
    if past == [] then 0 else KeptIn(past[..|past| - 1]) + past[|past| - 1].kept
  }

  /** Number of characters that the changes from text on through the texts of future put in. */
  function Reserved(text: Text, future: seq<Mark>): int
    decreases |future|
  {
    if future == [] then 0
    else |future[0].text| + future[0].kept - |text| + Reserved(future[0].text, future[1..])
  }

  /** All stored characters moved down by n. */
  function Moved(recs: seq<Record>, n: nat): (r: seq<Record>)
    ensures |r| == |recs|
  {
    seq(|recs|, i requires 0 <= i < |recs| => MovedOne(recs[i], n))
  }

  function MovedOne(r: Record, n: nat): Record {
    if r.storage >= 0 then r.(storage := r.storage - n) else r
  }

  /** The character point is the total stored length of the records. */
  lemma {:induction false} CharPoint(recs: seq<Record>, chars: Text, past: seq<Mark>, text: Text)
    requires UndoStack(recs, chars, past, text)
    ensures |chars| == Total(recs) == KeptIn(past)
    decreases |recs|
  {
    if recs != [] {
      var m := |recs| - 1;
      CharPoint(recs[..m], chars[..|chars| - recs[m].ins], past[..m], past[m].text);
    }
  }

  /** The characters kept for redo are those the texts to come put in. */
  lemma {:induction false} RedoChars(recs: seq<Record>, chars: Text, low: nat, base: nat, text: Text, future: seq<Mark>)
    requires RedoStack(recs, chars, low, base, text, future)
    ensures |chars| == Reserved(text, future)
    decreases |recs|
  {
    if recs != [] {
      var r := recs[0];
      RedoChars(recs[1..], chars[r.ins..], low + r.del, base + r.ins, future[0].text, future[1..]);
    }
  }

  /** Forgetting the oldest record keeps the meaning of all others. */
  lemma {:induction false} DropOldest(recs: seq<Record>, chars: Text, past: seq<Mark>, text: Text)
    requires UndoStack(recs, chars, past, text) && recs != []
    ensures recs[0].ins <= |chars| && StoredAt(recs[0], 0) && |past| == |recs|
    ensures UndoStack(Moved(recs[1..], recs[0].ins), chars[recs[0].ins..], past[1..], text)
    decreases |recs|
  {
    var n := recs[0].ins;
    var m := |recs| - 1;
    var at := |chars| - recs[m].ins;
    if m == 0 {
      assert chars[..at] == [] && chars[n..] == [];
    } else {
      DropOldest(recs[..m], chars[..at], past[..m], past[m].text);
      DropStep(recs, chars, past, text);
    }
  }

  lemma {:induction false} OldestFits(recs: seq<Record>, chars: Text, past: seq<Mark>, text: Text)
    requires UndoStack(recs, chars, past, text) && recs != []
    ensures recs[0].ins <= |chars| && StoredAt(recs[0], 0) && |past| == |recs|
  {
    DropOldest(recs, chars, past, text);
  }

  lemma {:induction false} DropStep(recs: seq<Record>, chars: Text, past: seq<Mark>, text: Text)
    requires |recs| == |past| && |recs| > 1
    requires var m, at := |recs| - 1, |chars| - recs[|recs| - 1].ins;
             recs[0].ins <= at && StoredAt(recs[m], at) && recs[m].ins == past[m].kept &&
             Turns(recs[m], chars[at..], text, past[m].text) &&
             UndoStack(Moved(recs[..m][1..], recs[0].ins), chars[..at][recs[0].ins..], past[..m][1..], past[m].text)
    ensures UndoStack(Moved(recs[1..], recs[0].ins), chars[recs[0].ins..], past[1..], text)
  {
    hide UndoStack, Splice, Moved;
    var n, m := recs[0].ins, |recs| - 1;
    var at := |chars| - recs[m].ins;
    UndoSnoc(Moved(recs[..m][1..], n), chars[..at][n..], past[..m][1..], MovedOne(recs[m], n), chars[at..], past[m],
        text);
    MovedSnoc(recs, n);
    assert chars[..at][n..] + chars[at..] == chars[n..];
    assert past[..m][1..] + [past[m]] == past[1..];
  }

  lemma MovedSnoc(recs: seq<Record>, n: nat)
    requires |recs| > 1
    ensures Moved(recs[..|recs| - 1][1..], n) + [MovedOne(recs[|recs| - 1], n)] == Moved(recs[1..], n)
  {
  }
}
