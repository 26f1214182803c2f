/**
 * Editing with undo and redo: the undo engine of libs/stb/stb_textedit.h.
 * Undo records grow upwards and redo records downwards in one record array, their characters
 * likewise in one character array. The class refines a history of past, present and future texts.
 */
module TextEdit {
  import opened UndoHistory
  import opened TextHistory

  lemma NotMoved(recs: seq<Record>)
    ensures UndoHistory.Moved(recs, 0) == recs
  {
  }

  lemma MovedDrop(recs: seq<Record>, n: nat)
    requires recs != []
    ensures UndoHistory.Moved(recs, n)[1..] == UndoHistory.Moved(recs[1..], n)
  {
  }

  lemma {:induction false} StackSize(recs: seq<Record>, chars: Text, past: seq<Mark>, text: Text)
    requires UndoStack(recs, chars, past, text)
    ensures |recs| == |past| && |chars| == KeptIn(past) && (recs == [] ==> chars == [])
  {
    CharPoint(recs, chars, past, text);
  }

  lemma NothingForgotten(past: seq<Mark>, states: nat, space: nat, n: nat)
    requires HasRoom(past, states, space, n)
    ensures Forget(past, states, space, n) == past
  {
  }

  lemma NoPast(recs: seq<Record>, chars: Text, past: seq<Mark>, text: Text)
    requires UndoStack(recs, chars, past, text) && recs == []
    ensures past == []
  {
  }

  /** Undoing the newest record: what is left of the undo stack, and what the redo stack becomes. */
  lemma UndoStep(rs: seq<Record>, cs: Text, past: seq<Mark>, was: Text, redo: seq<Record>, saved: Text, base: nat,
                 future: seq<Mark>, text: Text)
    requires UndoStack(rs, cs, past, was) && rs != []
    requires var u := rs[|rs| - 1]; u.ins <= |cs| && Turns(u, cs[|cs| - u.ins..], was, text)
    ensures var m, at := |rs| - 1, |cs| - rs[|rs| - 1].ins;
            |past| == |rs| && text == past[m].text && UndoStack(rs[..m], cs[..at], past[..m], text)
    ensures var u := rs[|rs| - 1];
            RedoStack(redo, saved, |cs|, base, was, future) && |cs| + u.del <= base ==>
              RedoStack([Inverse(u, base - u.del)] + redo, Taken(u, was) + saved, |cs| - u.ins, base - u.del, text,
                [Mark(was, u.ins)] + future)
  {
    hide Splice, RedoStack;
    var m := |rs| - 1;
    var u := rs[m];
    var s := cs[|cs| - u.ins..];
    SpliceUnique(u, s, was, text, past[m].text);
    if RedoStack(redo, saved, |cs|, base, was, future) && |cs| + u.del <= base {
      RedoPush(redo, saved, |cs|, base, future, u, s, was, text);
    }
  }

  lemma {:induction false} UndoTop(recs: seq<Record>, chars: Text, past: seq<Mark>, text: Text)
    requires UndoStack(recs, chars, past, text) && recs != []
    ensures |past| == |recs|
    ensures var m, at := |recs| - 1, |chars| - recs[|recs| - 1].ins;
            at >= 0 && recs[m].ins == past[m].kept && StoredAt(recs[m], at) &&
            Turns(recs[m], chars[at..], text, past[m].text) &&
            UndoStack(recs[..m], chars[..at], past[..m], past[m].text)
  {
  }

  lemma NoFuture(recs: seq<Record>, chars: Text, low: nat, base: nat, text: Text, future: seq<Mark>)
    requires RedoStack(recs, chars, low, base, text, future) && recs == []
    ensures future == []
  {
  }

  lemma {:induction false} RedoTop(recs: seq<Record>, chars: Text, low: nat, base: nat, text: Text, future: seq<Mark>)
    requires RedoStack(recs, chars, low, base, text, future) && recs != []
    ensures var r := recs[0];
            future != [] && r.ins <= |chars| && StoredAt(r, base) && low + r.del <= base && r.pos + r.del <= |text| &&
            r.del == future[0].kept && Turns(r, chars[..r.ins], text, future[0].text)
  {
  }

  /** Redoing the nearest record: what is left of the redo stack, and what the undo stack becomes. */
  lemma RedoStep(rs: seq<Record>, cs: Text, past: seq<Mark>, was: Text, redo: seq<Record>, saved: Text, base: nat,
                 future: seq<Mark>, text: Text)
    requires UndoStack(rs, cs, past, was) && RedoStack(redo, saved, |cs|, base, was, future) && redo != []
    requires var r := redo[0]; r.ins <= |saved| && Turns(r, saved[..r.ins], was, text)
    ensures var r := redo[0];
            future != [] && text == future[0].text && r.del == future[0].kept &&
            UndoStack(rs + [Inverse(r, |cs|)], cs + Taken(r, was), past + [Mark(was, r.del)], text) &&
            RedoStack(redo[1..], saved[r.ins..], |cs| + r.del, base + r.ins, text, future[1..])
  {
    hide Splice, UndoStack;
    var r := redo[0];
    SpliceUnique(r, saved[..r.ins], was, text, future[0].text);
    UndoPush(rs, cs, past, r, saved[..r.ins], was, text);
  }

  lemma SliceUpdate<T>(a: seq<T>, k: nat, x: T, m: nat)
    requires m <= k < |a|
    ensures a[k := x][..m] == a[..m] && a[k := x][k..] == [x] + a[k + 1..]
  {
  }

  lemma SpliceUnique(r: Record, s: Text, from: Text, a: Text, b: Text)
    requires Turns(r, s, from, a) && Turns(r, s, from, b)
    ensures a == b
  {
  }

  // ---------------------------------------------------------------- an undo that cannot keep its characters

  /** Carrying out r, with whatever it stored among chars, turns from into to. */
  ghost predicate LeadsTo(r: Record, chars: Text, from: Text, to: Text) {
    (r.ins > 0 ==> 0 <= r.storage && r.storage + r.ins <= |chars|) &&
    Turns(r, if r.ins > 0 then chars[r.storage..r.storage + r.ins] else [], from, to)
  }

  /** The redo record an undo leaves when it keeps its characters leads back. */
  lemma KeptLeads(u: Record, s: Text, was: Text, to: Text, chars: Text, at: nat, saved: Text)
    requires Turns(u, s, was, to) && at <= |chars| && chars[at..] == Taken(u, was) + saved
    ensures LeadsTo(Inverse(u, at), chars, to, was)
  {
    TurnsBack(u, s, was, to, at);
    assert chars[at..at + u.del] == chars[at..][..u.del] == Taken(u, was);
  }

  /** The one it leaves when it cannot keep them does not. */
  lemma LostLeads(u: Record, s: Text, was: Text, to: Text, chars: Text)
    requires Turns(u, s, was, to) && u.del > 0
    ensures !LeadsTo(Record(u.pos, 0, u.ins, -1), chars, to, was)
  {
    assert |to| == |was| - u.del + u.ins;
  }

  /** What undoing record u takes out of the text. */
  lemma TakenOutIs(u: Record, s: Text, h: History)
    requires h.past != [] && u.ins == h.past[|h.past| - 1].kept && Turns(u, s, h.text, h.past[|h.past| - 1].text)
    ensures TakenOut(h) == u.del
  {
  }

  class Editor {
    var text: Text
    var cursor: int
    const recs: array<Record>
    const chars: array<char>
    var undoPoint: nat
    var redoPoint: nat
    var undoCharPoint: nat
    var redoCharPoint: nat
    /** Texts that undo leads back to, oldest first. */
    ghost var past: seq<Mark>
    /** Texts that redo leads on to, nearest first. */
    ghost var future: seq<Mark>
    /** False from an undo that could not keep its characters until the next edit. */
    ghost var redoable: bool

    ghost predicate Shape()
      reads this
    {
      recs.Length > 0 && undoPoint <= redoPoint <= recs.Length && undoCharPoint <= redoCharPoint <= chars.Length
    }

    ghost predicate Valid()
      reads this, recs, chars
    {
      Shape() && UndoStack(recs[..undoPoint], chars[..undoCharPoint], past, text) &&
      |future| == recs.Length - redoPoint &&
      (redoable ==> RedoStack(recs[redoPoint..], chars[redoCharPoint..], undoCharPoint, redoCharPoint, text, future))
    }

    /** A cleared state: no history in either direction. */
    constructor (states: nat, space: nat, start: Text)
      requires states > 0
      ensures Valid() && fresh(recs) && fresh(chars) && recs.Length == states && chars.Length == space
      ensures text == start && past == [] && future == [] && redoable
    {
      text := start;
      cursor := 0;
      recs := new Record[states](_ => Record(0, 0, 0, -1));
      chars := new char[space];
      undoPoint, redoPoint, undoCharPoint, redoCharPoint := 0, states, 0, space;
      past, future, redoable := [], [], true;
    }

    // ------------------------------------------------------------ making room for a record

    method FlushRedo()
      modifies this`redoPoint, this`redoCharPoint, this`future, this`redoable
      ensures redoPoint == recs.Length && redoCharPoint == chars.Length && future == [] && redoable
    {
      redoPoint, redoCharPoint := recs.Length, chars.Length;
      future, redoable := [], true;
    }

    /** Forgets the oldest undo record, if there is one; t is the text the records lead back from. */
    method DiscardUndo(ghost t: Text)
      requires Shape() && UndoStack(recs[..undoPoint], chars[..undoCharPoint], past, t)
      modifies this`undoPoint, this`undoCharPoint, this`past, recs, chars
      ensures Shape() && UndoStack(recs[..undoPoint], chars[..undoCharPoint], past, t)
      ensures old(undoPoint) == 0 ==> undoPoint == 0 && undoCharPoint == old(undoCharPoint) && past == old(past)
      ensures old(undoPoint) > 0 ==> undoPoint == old(undoPoint) - 1 && past == old(past)[1..] &&
                                     recs[..undoPoint] ==
                                       UndoHistory.Moved(old(recs[..undoPoint])[1..], old(recs[0].ins))
    {
      hide UndoStack, UndoHistory.Moved, MovedOne;
      if undoPoint > 0 {
        DiscardOldest(t, recs[..undoPoint], chars[..undoCharPoint]);
      }
    }

    method DiscardOldest(ghost t: Text, ghost rs: seq<Record>, ghost cs: Text)
      requires Shape() && undoPoint > 0 && rs == recs[..undoPoint] && cs == chars[..undoCharPoint] &&
               UndoStack(rs, cs, past, t)
      modifies this`undoPoint, this`undoCharPoint, this`past, recs, chars
      ensures Shape() && UndoStack(recs[..undoPoint], chars[..undoCharPoint], past, t)
      ensures undoPoint == old(undoPoint) - 1 && |old(past)| > 0 && past == old(past)[1..]
      ensures recs[..undoPoint] == UndoHistory.Moved(rs[1..], rs[0].ins)
    {
      hide UndoStack, UndoHistory.Moved, MovedOne;
      OldestFits(rs, cs, past, t);
      DropOldest(rs, cs, past, t);
      ReleaseOldest();
      MovedDrop(rs, rs[0].ins);
      undoPoint := undoPoint - 1;
      ShiftRecords();
      past := past[1..];
    }

    /** Gives back the characters of the oldest record. */
    method ReleaseOldest()
      requires 0 < undoPoint <= recs.Length && recs[0].ins <= undoCharPoint <= chars.Length && StoredAt(recs[0], 0)
      modifies this`undoCharPoint, recs, chars
      ensures undoCharPoint == old(undoCharPoint) - old(recs[0].ins) &&
              chars[..undoCharPoint] == old(chars[..undoCharPoint])[old(recs[0].ins)..]
      ensures recs[..undoPoint] == UndoHistory.Moved(old(recs[..undoPoint]), old(recs[0].ins))
    {
      hide UndoHistory.Moved, MovedOne;
      if recs[0].storage >= 0 {
        var n := recs[0].ins;
        undoCharPoint := undoCharPoint - n;
        MoveChars(n);
        MoveStorage(n);
      } else {
        NotMoved(recs[..undoPoint]);
      }
    }

    /** Moves the first undoCharPoint characters down by n. */
    method MoveChars(n: nat)
      requires undoCharPoint + n <= chars.Length
      modifies chars
      ensures chars[..undoCharPoint] == old(chars[n..undoCharPoint + n])
    {
      forall i | 0 <= i < undoCharPoint {
        chars[i] := chars[i + n];
      }
    }

    /** Moves undoPoint records down over the first one. */
    method ShiftRecords()
      requires undoPoint < recs.Length
      modifies recs
      ensures recs[..undoPoint] == old(recs[..undoPoint + 1])[1..]
    {
      forall i | 0 <= i < undoPoint {
        recs[i] := recs[i + 1];
      }
    }

    /** Lowers the storage position of every undo record that has characters. */
    method MoveStorage(n: nat)
      requires undoPoint <= recs.Length
      modifies recs
      ensures recs[..undoPoint] == UndoHistory.Moved(old(recs[..undoPoint]), n)
    {
      for i := 0 to undoPoint
        invariant forall j :: 0 <= j < undoPoint ==>
                    recs[j] == if j < i then MovedOne(old(recs[j]), n) else old(recs[j])
      {
        if recs[i].storage >= 0 {
          recs[i] := recs[i].(storage := recs[i].storage - n);
        }
      }
    }

    /**
     * Finds a place for a record that keeps n characters, forgetting as few of the oldest records
     * as possible; or forgets the whole past if the characters can never fit.
     */
    method CreateUndoRecord(ghost t: Text, n: nat) returns (ok: bool)
      requires Shape() && UndoStack(recs[..undoPoint], chars[..undoCharPoint], past, t)
      modifies this`undoPoint, this`undoCharPoint, this`redoPoint, this`redoCharPoint
      modifies this`past, this`future, this`redoable, recs, chars
      ensures Shape() && redoPoint == recs.Length && redoCharPoint == chars.Length && future == [] && redoable
      ensures ok == (n <= chars.Length)
      ensures !ok ==> undoPoint == 0 && undoCharPoint == 0 && past == []
      ensures ok ==> undoPoint > 0 && undoCharPoint + n <= chars.Length &&
                     UndoStack(recs[..undoPoint - 1], chars[..undoCharPoint], past, t)
      ensures ok ==> past == Forget(old(past), recs.Length, chars.Length, n)
    {
      hide UndoStack, Forget;
      FlushRedo();
      StackSize(recs[..undoPoint], chars[..undoCharPoint], past, t);
      if undoPoint == recs.Length {
        DropOne(t, n);
      }
      if n > chars.Length {
        undoPoint, undoCharPoint, past := 0, 0, [];
        return false;
      }
      MakeRoom(t, n);
      ok := true;
      undoPoint := undoPoint + 1;
    }

    /** Forgets the oldest records until n more characters fit. */
    method MakeRoom(ghost t: Text, n: nat)
      requires Shape() && UndoStack(recs[..undoPoint], chars[..undoCharPoint], past, t)
      requires n <= chars.Length && undoPoint < recs.Length
      modifies this`undoPoint, this`undoCharPoint, this`past, recs, chars
      ensures Shape() && UndoStack(recs[..undoPoint], chars[..undoCharPoint], past, t)
      ensures undoCharPoint + n <= chars.Length && undoPoint < recs.Length
      ensures past == Forget(old(past), recs.Length, chars.Length, n)
    {
      hide UndoStack, Forget;
      while undoCharPoint + n > chars.Length
        invariant Shape() && UndoStack(recs[..undoPoint], chars[..undoCharPoint], past, t) && undoPoint < recs.Length
        invariant Forget(past, recs.Length, chars.Length, n) == Forget(old(past), recs.Length, chars.Length, n)
        decreases undoPoint
      {
        StackSize(recs[..undoPoint], chars[..undoCharPoint], past, t);
        DropOne(t, n);
      }
      StackSize(recs[..undoPoint], chars[..undoCharPoint], past, t);
      NothingForgotten(past, recs.Length, chars.Length, n);
    }

    /** Forgets the oldest record, which has to make room for n characters. */
    method DropOne(ghost t: Text, ghost n: nat)
      requires Shape() && UndoStack(recs[..undoPoint], chars[..undoCharPoint], past, t) && undoPoint > 0
      requires undoPoint == recs.Length || undoCharPoint + n > chars.Length
      modifies this`undoPoint, this`undoCharPoint, this`past, recs, chars
      ensures Shape() && UndoStack(recs[..undoPoint], chars[..undoCharPoint], past, t) &&
              undoPoint == old(undoPoint) - 1
      ensures Forget(past, recs.Length, chars.Length, n) == Forget(old(past), recs.Length, chars.Length, n)
    {
      hide UndoStack, UndoHistory.Moved, KeptIn;
      StackSize(recs[..undoPoint], chars[..undoCharPoint], past, t);
      DiscardUndo(t);
    }

    // ------------------------------------------------------------ edits

    /** The newest record has been filled in, its characters reserved but not yet stored. */
    ghost predicate Pending(t: Text, r: Record)
      reads this, recs, chars
    {
      Shape() && undoPoint > 0 && r.ins <= undoCharPoint && recs[undoPoint - 1] == r &&
      StoredAt(r, undoCharPoint - r.ins) &&
      UndoStack(recs[..undoPoint - 1], chars[..undoCharPoint - r.ins], past, t)
    }

    /** Redo is empty, and of the past only the texts that had to make room for n characters are gone. */
    ghost predicate Pruned(was: seq<Mark>, n: nat)
      reads this
    {
      redoPoint == recs.Length && redoCharPoint == chars.Length && future == [] && redoable &&
      past == if n > chars.Length then [] else Forget(was, recs.Length, chars.Length, n)
    }

    /** Adds a record; p is where its characters go, or -1 if there are none to store. */
    method CreateUndo(ghost t: Text, pos: nat, ins: nat, del: nat) returns (p: int)
      requires Shape() && UndoStack(recs[..undoPoint], chars[..undoCharPoint], past, t)
      modifies this`undoPoint, this`undoCharPoint, this`redoPoint, this`redoCharPoint
      modifies this`past, this`future, this`redoable, recs, chars
      ensures Shape() && Pruned(old(past), ins)
      ensures ins > chars.Length ==> undoPoint == 0 && undoCharPoint == 0 && p == -1
      ensures ins <= chars.Length ==> Pending(t, Record(pos, ins, del, p)) && (p >= 0 <==> ins > 0)
    {
      hide UndoStack, UndoHistory.Moved, MovedOne, Forget;
      var ok := CreateUndoRecord(t, ins);
      if !ok {
        return -1;
      }
      if ins == 0 {
        p := -1;
      } else {
        p := undoCharPoint;
        undoCharPoint := undoCharPoint + ins;
      }
      ghost var below := recs[..undoPoint - 1];
      recs[undoPoint - 1] := Record(pos, ins, del, p);
      assert recs[..undoPoint - 1] == below;
    }

    /** Copies len characters of the text, from pos on, into the character array at p. */
    method SaveChars(p: nat, pos: nat, len: nat)
      requires p + len <= chars.Length && pos + len <= |text|
      modifies chars
      ensures chars[..p] == old(chars[..p]) && chars[p..p + len] == text[pos..pos + len] &&
              chars[p + len..] == old(chars[p + len..])
    {
      for i := 0 to len
        invariant forall j :: 0 <= j < chars.Length ==>
                    chars[j] == if p <= j < p + i then text[pos + j - p] else old(chars[j])
      {
        chars[p + i] := text[pos + i];
      }
    }

    /** Records, before it happens, that len characters at pos give way to newLen others. */
    method MakeUndoReplace(pos: nat, len: nat, newLen: nat)
      requires Valid() && pos + len <= |text|
      modifies this`undoPoint, this`undoCharPoint, this`redoPoint, this`redoCharPoint
      modifies this`past, this`future, this`redoable, recs, chars
      ensures Shape() && Pruned(old(past), len)
      ensures len > chars.Length ==> undoPoint == 0 && undoCharPoint == 0
      ensures len <= chars.Length ==>
                Pending(text, Inverse(Record(pos, newLen, len, -1), undoCharPoint - len)) &&
                chars[undoCharPoint - len..undoCharPoint] == text[pos..pos + len]
    {
      hide UndoStack, Pruned;
      var p := CreateUndo(text, pos, len, newLen);
      if p >= 0 {
        SaveChars(p, pos, len);
      }
    }

    /** A filled-in record becomes part of the past once the text has changed. */
    ghost method Commit(was: Text, r: Record, s: Text)
      requires Turns(r, s, was, text) && r.del <= undoCharPoint <= chars.Length && redoPoint == recs.Length &&
               redoCharPoint == chars.Length
      requires Pending(was, Inverse(r, undoCharPoint - r.del)) &&
               chars[undoCharPoint - r.del..undoCharPoint] == Taken(r, was)
      requires redoable && future == []
      modifies this`past
      ensures Valid() && past == old(past) + [Mark(was, r.del)]
    {
      hide UndoStack, Splice;
      var low := undoCharPoint - r.del;
      assert chars[..undoCharPoint] == chars[..low] + Taken(r, was);
      assert recs[..undoPoint] == recs[..undoPoint - 1] + [recs[undoPoint - 1]];
      UndoPush(recs[..undoPoint - 1], chars[..low], past, r, s, was, text);
      past := past + [Mark(was, r.del)];
    }

    /** Past, present and future. */
    ghost function Now(): History
      reads this
    {
      History(past, text, future)
    }

    /** Replaces len characters at pos by s. */
    method Replace(pos: nat, len: nat, s: Text)
      requires Valid() && pos + len <= |text|
      modifies this, recs, chars
      ensures Valid() && redoable && Now() == Step(old(Now()), Replacement(pos, len, s), recs.Length, chars.Length)
      ensures |text| == |old(text)| - len + |s| && text[..pos] == old(text)[..pos]
      ensures text[pos..pos + |s|] == s && text[pos + |s|..] == old(text)[pos + len..]
      ensures future == [] && if len > chars.Length then past == []
                              else past != [] && past[|past| - 1] == Mark(old(text), len)
    {
      hide UndoStack, Forget;
      ghost var was := text;
      MakeUndoReplace(pos, len, |s|);
      text := text[..pos] + text[pos + len..];
      text := text[..pos] + s + text[pos..];
      assert text == Splice(was, pos, len, s);
      FinishEdit(was, Record(pos, |s|, len, -1), s);
    }

    /** Deletes len characters at pos. */
    method Delete(pos: nat, len: nat)
      requires Valid() && pos + len <= |text|
      modifies this, recs, chars
      ensures Valid() && redoable && Now() == Step(old(Now()), Deletion(pos, len), recs.Length, chars.Length)
      ensures |text| == |old(text)| - len && text[..pos] == old(text)[..pos] && text[pos..] == old(text)[pos + len..]
      ensures future == [] && if len > chars.Length then past == []
                              else past != [] && past[|past| - 1] == Mark(old(text), len)
    {
      hide UndoStack, Forget;
      ghost var was := text;
      MakeUndoReplace(pos, len, 0);
      text := text[..pos] + text[pos + len..];
      assert text == Splice(was, pos, len, []);
      FinishEdit(was, Record(pos, 0, len, -1), []);
    }

    /** The changed text, and the record if there is one, become part of the history. */
    ghost method FinishEdit(was: Text, r: Record, s: Text)
      requires Turns(r, s, was, text) && Shape() && redoPoint == recs.Length && redoCharPoint == chars.Length
      requires redoable && future == []
      requires r.del > chars.Length ==> undoPoint == 0 && undoCharPoint == 0 && past == []
      requires r.del <= chars.Length ==>
                 Pending(was, Inverse(r, undoCharPoint - r.del)) &&
                 chars[undoCharPoint - r.del..undoCharPoint] == Taken(r, was)
      modifies this`past
      ensures Valid() && past == if r.del > chars.Length then [] else old(past) + [Mark(was, r.del)]
    {
      hide UndoStack, Splice;
      if r.del <= chars.Length {
        Commit(was, r, s);
      } else {
        Emptied(text);
      }
    }

    lemma Emptied(t: Text)
      requires Shape() && undoPoint == 0 && undoCharPoint == 0 && past == []
      ensures UndoStack(recs[..undoPoint], chars[..undoCharPoint], past, t)
    {
    }

    /** Inserts s at pos; the record is made after the text has changed and needs no characters. */
    method Insert(pos: nat, s: Text)
      requires Valid() && pos <= |text|
      modifies this, recs, chars
      ensures Valid() && redoable && Now() == Step(old(Now()), Insertion(pos, s), recs.Length, chars.Length)
      ensures |text| == |old(text)| + |s| && text[..pos] == old(text)[..pos]
      ensures text[pos..pos + |s|] == s && text[pos + |s|..] == old(text)[pos..]
      ensures future == [] && past != [] && past[|past| - 1] == Mark(old(text), 0)
    {
      hide UndoStack, Forget;
      ghost var was := text;
      text := text[..pos] + s + text[pos..];
      var p := CreateUndo(was, pos, 0, |s|);
      assert Inverse(Record(pos, |s|, 0, -1), undoCharPoint) == Record(pos, 0, |s|, -1);
      Commit(was, Record(pos, |s|, 0, -1), s);
    }

    // ------------------------------------------------------------ undo and redo

    /** The characters the next undo takes out of the text can be kept for redo. */
    predicate UndoFits()
      requires Shape()
      reads this, recs
    {
      undoPoint > 0 && recs[undoPoint - 1].del > 0 ==> undoCharPoint + recs[undoPoint - 1].del < chars.Length
    }

    /** They fit only if redo records are discarded. */
    predicate UndoCrowdsRedo()
      requires Shape()
      reads this, recs
    {
      undoPoint > 0 && recs[undoPoint - 1].del > 0 && UndoFits() &&
      undoCharPoint + recs[undoPoint - 1].del > redoCharPoint
    }

    /** Carries out a record on the text. */
    method Apply(r: Record, ghost s: Text)
      requires r.pos + r.del <= |text| && |s| == r.ins
      requires r.ins > 0 ==>
                 0 <= r.storage <= r.storage + r.ins <= chars.Length && chars[r.storage..r.storage + r.ins] == s
      modifies this`text, this`cursor
      ensures Turns(r, s, old(text), text) && cursor == r.pos + r.ins <= |text|
    {
      text := text[..r.pos] + text[r.pos + r.del..];
      if r.ins > 0 {
        text := text[..r.pos] + chars[r.storage..r.storage + r.ins] + text[r.pos..];
      }
      cursor := r.pos + r.ins;
    }

    /**
     * Goes back to the previous text, if there is one. The redo record left behind leads on to the text
     * that was there if and only if its characters could be kept.
     */
    method Undo()
      requires Valid() && !UndoCrowdsRedo()
      modifies this, recs, chars
      ensures Valid() && Now() == Step(old(Now()), Back, recs.Length, chars.Length)
      ensures old(past) == [] ==> cursor == old(cursor) && redoable == old(redoable)
      ensures old(past) != [] ==> 0 < old(undoPoint) <= recs.Length && redoPoint < recs.Length
      ensures old(past) != [] ==> cursor == old(recs[undoPoint - 1].pos + recs[undoPoint - 1].ins) <= |text|
      ensures old(past) != [] ==> redoable == (old(redoable) && old(UndoFits()))
      ensures old(past) != [] ==> (LeadsTo(recs[redoPoint], chars[..], text, old(text)) <==> old(UndoFits()))
      ensures old(past) != [] ==> (LeadsTo(recs[redoPoint], chars[..], text, old(text)) <==>
                old(recs[undoPoint - 1].del == 0 || undoCharPoint + recs[undoPoint - 1].del < chars.Length))
      ensures old(past) != [] ==>
                var m := old(past)[|old(past)| - 1];
                text == m.text && past + [m] == old(past) && future == [Mark(old(text), m.kept)] + old(future)
    {
      hide UndoStack, RedoStack, Splice, LeadsTo;
      if undoPoint == 0 {
        NoPast(recs[..undoPoint], chars[..undoCharPoint], past, text);
      } else {
        UndoTop(recs[..undoPoint], chars[..undoCharPoint], past, text);
        UndoOne(recs[..undoPoint], chars[..undoCharPoint], recs[redoPoint..], chars[redoCharPoint..]);
      }
    }

    method UndoOne(ghost rs: seq<Record>, ghost cs: Text, ghost redo: seq<Record>, ghost saved: Text)
      requires Valid() && !UndoCrowdsRedo() && undoPoint > 0 && past != []
      requires rs == recs[..undoPoint] && cs == chars[..undoCharPoint]
      requires redo == recs[redoPoint..] && saved == chars[redoCharPoint..]
      modifies this, recs, chars
      ensures Valid() && Now() == Step(old(Now()), Back, recs.Length, chars.Length) && redoPoint < recs.Length
      ensures cursor == old(recs[undoPoint - 1].pos + recs[undoPoint - 1].ins) <= |text|
      ensures redoable == (old(redoable) && old(UndoFits()))
      ensures LeadsTo(recs[redoPoint], chars[..], text, old(text)) <==> old(UndoFits())
    {
      hide UndoStack, RedoStack, Turns, UndoFits, UndoCrowdsRedo, Inverse, StoredAt, Taken, LeadsTo;
      ghost var was, base := text, redoCharPoint;
      UndoTop(rs, cs, past, text);
      var kept := Revert(rs, cs, redo, saved);
      UndoStep(rs, cs, past, was, redo, saved, base, future, text);
      past, future, redoable := past[..|rs| - 1], [Mark(was, past[|rs| - 1].kept)] + future, redoable && kept;
    }

    /** Keeps what undo takes away, changes the text and moves the points. */
    method Revert(ghost rs: seq<Record>, ghost cs: Text, ghost redo: seq<Record>, ghost saved: Text)
      returns (kept: bool)
      requires Shape() && !UndoCrowdsRedo() && undoPoint > 0
      requires rs == recs[..undoPoint] && cs == chars[..undoCharPoint] && redo == recs[redoPoint..] &&
               saved == chars[redoCharPoint..]
      requires var u := rs[|rs| - 1]; u.ins <= |cs| && StoredAt(u, |cs| - u.ins) && u.pos + u.del <= |text|
      modifies this`text, this`cursor, this`undoPoint, this`redoPoint, this`undoCharPoint, this`redoCharPoint, recs,
        chars
      ensures Shape() && kept == old(UndoFits()) && redoPoint == old(redoPoint) - 1
      ensures var u := rs[|rs| - 1];
              cursor == u.pos + u.ins <= |text| && Turns(u, cs[|cs| - u.ins..], old(text), text) &&
              recs[..undoPoint] == rs[..|rs| - 1] && chars[..undoCharPoint] == cs[..|cs| - u.ins] &&
              (kept ==> |cs| + u.del <= old(redoCharPoint) && redoCharPoint == old(redoCharPoint) - u.del &&
                        recs[redoPoint..] == [Inverse(u, redoCharPoint)] + redo &&
                        chars[redoCharPoint..] == Taken(u, old(text)) + saved)
      ensures LeadsTo(recs[redoPoint], chars[..], text, old(text)) <==> kept
    {
      hide Turns, UndoCrowdsRedo, Inverse, Taken, LeadsTo;
      var u := recs[undoPoint - 1];
      kept := SaveForRedo(u);
      ghost var at := undoCharPoint - u.ins;
      assert chars[..at] == cs[..at] && chars[at..undoCharPoint] == cs[at..];
      Apply(u, cs[at..]);
      LeftBehind(u, cs[at..], old(text), kept, saved);
      undoCharPoint := undoCharPoint - u.ins;
      undoPoint, redoPoint := undoPoint - 1, redoPoint - 1;
    }

    /** The redo record made for u leads back just if its characters were kept. */
    lemma LeftBehind(u: Record, s: Text, was: Text, kept: bool, saved: Text)
      requires Turns(u, s, was, text) && 0 < redoPoint <= recs.Length && redoCharPoint <= chars.Length
      requires kept ==> recs[redoPoint - 1..] == [Inverse(u, redoCharPoint)] + recs[redoPoint..]
      requires kept ==> chars[redoCharPoint..] == Taken(u, was) + saved
      requires !kept ==> u.del > 0 && recs[redoPoint - 1] == Record(u.pos, 0, u.ins, -1)
      ensures LeadsTo(recs[redoPoint - 1], chars[..], text, was) <==> kept
    {
      hide LeadsTo, Turns, Taken, Inverse;
      if kept {
        assert recs[redoPoint - 1] == recs[redoPoint - 1..][0] == Inverse(u, redoCharPoint);
        assert chars[..][redoCharPoint..] == chars[redoCharPoint..];
        KeptLeads(u, s, was, text, chars[..], redoCharPoint, saved);
      } else {
        LostLeads(u, s, was, text, chars[..]);
      }
    }

    /** Makes the redo record for undo record u; kept says whether the redo can put back what u deletes. */
    method SaveForRedo(u: Record) returns (kept: bool)
      requires Shape() && redoPoint > 0 && undoPoint > 0 && u == recs[undoPoint - 1] && !UndoCrowdsRedo() &&
               u.pos + u.del <= |text|
      modifies this`redoCharPoint, recs, chars
      ensures kept == old(UndoFits()) && recs[..undoPoint - 1] == old(recs[..undoPoint])[..undoPoint - 1]
      ensures kept ==> undoCharPoint + u.del <= old(redoCharPoint)
      ensures undoCharPoint <= redoCharPoint <= old(redoCharPoint) &&
              chars[..undoCharPoint] == old(chars[..undoCharPoint])
      ensures kept ==>
                redoCharPoint == old(redoCharPoint) - u.del && recs[redoPoint - 1..] == [Inverse(u, redoCharPoint)] +
                old(recs[redoPoint..])
      ensures kept ==> chars[redoCharPoint..] == Taken(u, text) + old(chars[redoCharPoint..])
      ensures !kept ==> redoCharPoint == old(redoCharPoint) && recs[redoPoint - 1] == Record(u.pos, 0, u.ins, -1)
    {
      hide Taken;
      kept := KeepChars(u);
      var k := redoPoint - 1;
      ghost var before := recs[..];
      recs[k] := Record(u.pos, if kept then u.del else 0, u.ins, if kept && u.del > 0 then redoCharPoint else -1);
      assert recs[..] == before[k := recs[k]];
      SliceUpdate(before, k, recs[k], undoPoint - 1);
    }

    /** Stores the characters u deletes below those of the other redo records, unless undo leaves no space. */
    method KeepChars(u: Record) returns (kept: bool)
      requires Shape() && undoPoint > 0 && u == recs[undoPoint - 1] && !UndoCrowdsRedo() && u.pos + u.del <= |text|
      modifies this`redoCharPoint, chars
      ensures kept == old(UndoFits()) && redoCharPoint == old(redoCharPoint) - (if kept then u.del else 0)
      ensures undoCharPoint <= redoCharPoint && chars[..undoCharPoint] == old(chars[..undoCharPoint])
      ensures chars[redoCharPoint..] == (if kept then Taken(u, text) else []) + old(chars[redoCharPoint..])
    {
      if u.del == 0 {
        return true;
      }
      if undoCharPoint + u.del >= chars.Length {
        return false;
      }
      redoCharPoint := redoCharPoint - u.del;
      SaveChars(redoCharPoint, u.pos, u.del);
      assert chars[redoCharPoint..] == chars[redoCharPoint..redoCharPoint + u.del] + chars[redoCharPoint + u.del..];
      assert chars[..undoCharPoint] == chars[..redoCharPoint][..undoCharPoint];
      kept := true;
    }

    /** Goes on to the next text, if there is one. */
    method Redo()
      requires Valid() && redoable
      modifies this, recs, chars
      ensures Valid() && redoable && Now() == Step(old(Now()), Forth, recs.Length, chars.Length)
      ensures old(future) == [] ==> cursor == old(cursor)
      ensures old(future) != [] ==> old(redoPoint) < recs.Length
      ensures old(future) != [] ==> cursor == old(recs[redoPoint].pos + recs[redoPoint].ins) <= |text|
      ensures old(future) != [] ==>
                var m := old(future)[0];
                text == m.text && [m] + future == old(future) && past == old(past) + [Mark(old(text), m.kept)]
    {
      hide UndoStack, RedoStack, Splice;
      if redoPoint == recs.Length {
        NoFuture(recs[redoPoint..], chars[redoCharPoint..], undoCharPoint, redoCharPoint, text, future);
      } else {
        RedoTop(recs[redoPoint..], chars[redoCharPoint..], undoCharPoint, redoCharPoint, text, future);
        RedoOne(recs[..undoPoint], chars[..undoCharPoint], recs[redoPoint..], chars[redoCharPoint..]);
      }
    }

    method RedoOne(ghost rs: seq<Record>, ghost cs: Text, ghost redo: seq<Record>, ghost saved: Text)
      requires Valid() && redoable && redoPoint < recs.Length && future != []
      requires rs == recs[..undoPoint] && cs == chars[..undoCharPoint] && redo == recs[redoPoint..] &&
               saved == chars[redoCharPoint..]
      modifies this, recs, chars
      ensures cursor == old(recs[redoPoint].pos + recs[redoPoint].ins) <= |text|
      ensures Valid() && redoable && Now() == Step(old(Now()), Forth, recs.Length, chars.Length)
    {
      hide UndoStack, RedoStack, Turns, Inverse, StoredAt, Taken;
      ghost var was, base := text, redoCharPoint;
      RedoTop(redo, saved, undoCharPoint, redoCharPoint, text, future);
      Repeat(rs, cs, redo, saved);
      RedoStep(rs, cs, past, was, redo, saved, base, future, text);
      past, future := past + [Mark(was, future[0].kept)], future[1..];
    }

    /** Keeps what redo takes away, changes the text and moves the points. */
    method Repeat(ghost rs: seq<Record>, ghost cs: Text, ghost redo: seq<Record>, ghost saved: Text)
      requires Shape() && redoPoint < recs.Length
      requires rs == recs[..undoPoint] && cs == chars[..undoCharPoint] && redo == recs[redoPoint..] &&
               saved == chars[redoCharPoint..]
      requires var r := redo[0];
               r.ins <= |saved| && StoredAt(r, redoCharPoint) && undoCharPoint + r.del <= redoCharPoint &&
               r.pos + r.del <= |text|
      modifies this`text, this`cursor, this`undoPoint, this`redoPoint, this`undoCharPoint, this`redoCharPoint, recs,
        chars
      ensures Shape()
      ensures var r := redo[0];
              cursor == r.pos + r.ins <= |text| && Turns(r, saved[..r.ins], old(text), text) &&
              undoCharPoint == |cs| + r.del && redoCharPoint == old(redoCharPoint) + r.ins &&
              recs[..undoPoint] == rs + [Inverse(r, |cs|)] && chars[..undoCharPoint] == cs + Taken(r, old(text)) &&
              recs[redoPoint..] == redo[1..] && chars[redoCharPoint..] == saved[r.ins..]
    {
      hide Turns, Inverse, Taken;
      var r := recs[redoPoint];
      SaveForUndo(r);
      assert chars[redoCharPoint..redoCharPoint + r.ins] == saved[..r.ins];
      Apply(r, saved[..r.ins]);
      redoCharPoint := redoCharPoint + r.ins;
      undoPoint, redoPoint := undoPoint + 1, redoPoint + 1;
    }

    /** Makes the undo record for redo record r; there is always room for it. */
    method SaveForUndo(r: Record)
      requires Shape() && redoPoint < recs.Length && undoCharPoint + r.del <= redoCharPoint && r.pos + r.del <= |text|
      modifies this`undoCharPoint, recs, chars
      ensures undoCharPoint == old(undoCharPoint) + r.del
      ensures recs[..undoPoint + 1] == old(recs[..undoPoint]) + [Inverse(r, old(undoCharPoint))]
      ensures recs[redoPoint + 1..] == old(recs[redoPoint..])[1..]
      ensures chars[..undoCharPoint] == old(chars[..undoCharPoint]) + Taken(r, text) &&
              chars[redoCharPoint..] == old(chars[redoCharPoint..])
    {
      recs[undoPoint] := Inverse(r, undoCharPoint);
      if r.del > 0 {
        var p := undoCharPoint;
        undoCharPoint := undoCharPoint + r.del;
        SaveChars(p, r.pos, r.del);
        assert chars[..undoCharPoint] == chars[..p] + chars[p..p + r.del];
        assert chars[redoCharPoint..] == chars[p + r.del..][redoCharPoint - p - r.del..];
      }
    }

    // ------------------------------------------------------------ whole runs

    /** The operation has legal positions, and an undo can keep its characters without discarding redo records. */
    predicate CanDo(op: Op)
      requires Shape()
      reads this, recs
    {
      match op
      case Insertion(pos, s) => pos <= |text|
      case Deletion(pos, len) => pos + len <= |text|
      case Replacement(pos, len, s) => pos + len <= |text|
      case Back => UndoFits() && !UndoCrowdsRedo()
      case Forth => true
    }

    /** Whether undo can keep its characters depends on the history and the space only. */
    lemma UndoFitsIsKeeps()
      requires Valid()
      ensures UndoFits() <==> UndoKeeps(Now(), chars.Length)
      ensures undoCharPoint == KeptIn(past) && undoPoint == |past|
      ensures past != [] ==> TakenOut(Now()) == recs[undoPoint - 1].del
    {
      hide UndoStack, RedoStack, Splice;
      CharPoint(recs[..undoPoint], chars[..undoCharPoint], past, text);
      StackSize(recs[..undoPoint], chars[..undoCharPoint], past, text);
      if undoPoint > 0 {
        UndoTop(recs[..undoPoint], chars[..undoCharPoint], past, text);
        var u := recs[undoPoint - 1];
        TakenOutIs(u, chars[..undoCharPoint][undoCharPoint - u.ins..], Now());
      }
    }

    /** What can be done depends on the history and the space only. */
    lemma CanDoIsCanStep(op: Op)
      requires Valid() && redoable
      ensures CanDo(op) <==> CanStep(Now(), op, chars.Length)
    {
      hide UndoStack, RedoStack, KeptIn, Reserved;
      UndoFitsIsKeeps();
      RedoChars(recs[redoPoint..], chars[redoCharPoint..], undoCharPoint, redoCharPoint, text, future);
    }

    method Do(op: Op)
      requires Valid() && redoable && CanDo(op)
      modifies this, recs, chars
      ensures Valid() && redoable && Now() == Step(old(Now()), op, recs.Length, chars.Length)
    {
      hide UndoStack, RedoStack, Step, LeadsTo;
      match op
      case Insertion(pos, s) => Insert(pos, s);
      case Deletion(pos, len) => Delete(pos, len);
      case Replacement(pos, len, s) => Replace(pos, len, s);
      case Back => Undo();
      case Forth => Redo();
    }

    /**
     * Carries out ops as far as they can be done; the history is exactly the one that these
     * operations give with room for this many states and characters.
     */
    method Run(ops: seq<Op>) returns (n: nat)
      requires Valid() && redoable
      modifies this, recs, chars
      ensures Valid() && redoable && n <= |ops|
      ensures Now() == Play(old(Now()), ops[..n], recs.Length, chars.Length)
      ensures CanPlay(old(Now()), ops[..n], recs.Length, chars.Length)
      ensures n < |ops| ==> !CanStep(Now(), ops[n], chars.Length)
      ensures CanPlay(old(Now()), ops, recs.Length, chars.Length) ==> n == |ops|
    {
      hide UndoStack, RedoStack, Step, CanStep;
      n := 0;
      while n < |ops| && CanDo(ops[n])
        invariant Valid() && redoable && n <= |ops|
        invariant Now() == Play(old(Now()), ops[..n], recs.Length, chars.Length)
        invariant CanPlay(old(Now()), ops[..n], recs.Length, chars.Length)
      {
        CanDoIsCanStep(ops[n]);
        assert ops[..n + 1] == ops[..n] + [ops[n]];
        PlayOne(old(Now()), ops[..n], ops[n], recs.Length, chars.Length);
        CanPlayOne(old(Now()), ops[..n], ops[n], recs.Length, chars.Length);
        Do(ops[n]);
        n := n + 1;
      }
      if n < |ops| {
        CanDoIsCanStep(ops[n]);
        if CanPlay(old(Now()), ops, recs.Length, chars.Length) {
          CanPlayPrefix(old(Now()), ops, n + 1, recs.Length, chars.Length);
          assert ops[..n + 1] == ops[..n] + [ops[n]];
          CanPlayOne(old(Now()), ops[..n], ops[n], recs.Length, chars.Length);
        }
      }
    }

    /** Carries out edits that find room and takes them all back. */
    method DoAndUndo(edits: seq<Op>)
      requires Valid() && redoable
      requires AllFit(Now(), edits, recs.Length, chars.Length) && CanPlay(Now(), edits, recs.Length, chars.Length)
      modifies this, recs, chars
      ensures Valid() && redoable && text == old(text) && past == old(past)
    {
      hide UndoStack, RedoStack, Step, CanStep, Play, CanPlay, AllFit;
      ghost var h, k := Now(), |edits|;
      UndoAllRedoAll(h, edits, recs.Length, chars.Length);
      var ops := edits + Times(Back, |edits|);
      ghost var more := ops + Times(Forth, k);
      CanPlayPrefix(h, more, |ops|, recs.Length, chars.Length);
      assert more[..|ops|] == ops;
      var n := Run(ops);
      assert ops[..n] == ops;
    }
  }

  /** With room for one character, inserting one and undoing that leaves a redo record that does not lead back. */
  method LostRedo() returns (e: Editor)
    ensures fresh(e) && e.Valid() && e.text == [] && e.redoPoint < e.recs.Length
    ensures !LeadsTo(e.recs[e.redoPoint], e.chars[..], e.text, ['a'])
  {
    hide UndoStack, RedoStack, LeadsTo;
    e := new Editor(1, 1, []);
    e.Insert(0, ['a']);
    assert e.text == ['a'] && e.past == [Mark([], 0)];
    e.UndoFitsIsKeeps();
    e.Undo();
  }
}
