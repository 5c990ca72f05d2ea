/** Text buffers as objects of one program: the undo record they share is an object as well. */
module Sharing {
  import opened Wrappers
  import opened Allocation
  import opened Editing
  import opened Buffers
  import opened GapBuffer

  ghost function BufferOf(b: Fl_Text_Buffer): Buffer
    reads b
  {
    Buffer(b.text, b.mCanUndo, b.Room(), b.mPreferredGapSize)
  }

  ghost predicate Separate(b: Fl_Text_Buffer, c: Fl_Text_Buffer)
    reads b`mBuf, c`mBuf
  {
    b != c && b.mBuf != c.mBuf
  }

  ghost predicate Sound(b: Fl_Text_Buffer, undo: UndoRecord)
    reads b, b.mBuf
  {
    b.Valid() && b.Distinct() && b.undo == undo
  }

  /** Sound buffers, each with its own memory. */
  ghost predicate Apart(bufs: seq<Fl_Text_Buffer>, undo: UndoRecord)
    reads bufs, set b | b in bufs :: b.mBuf
  {
    && (forall i | 0 <= i < |bufs| :: Sound(bufs[i], undo))
    && (forall i, j | 0 <= i < |bufs| && 0 <= j < |bufs| && i != j :: Separate(bufs[i], bufs[j]))
  }

  ghost function RecordOf(undo: UndoRecord): Record
    reads undo
  {
    Record(false, undo.at, undo.cut, undo.ins, undo.yankCut, undo.saved)
  }

  /** The objects show what the desk says. */
  ghost predicate Shows(bufs: seq<Fl_Text_Buffer>, undo: UndoRecord, d: Desk)
    reads bufs, undo
  {
    && |d.buffers| == |bufs| && d.owner < |bufs|
    && (forall i | 0 <= i < |bufs| :: d.buffers[i] == BufferOf(bufs[i]))
    && (forall i | 0 <= i < |bufs| :: d.owner == i <==> undo.widget == bufs[i])
    && d.record == RecordOf(undo)
  }

  /** The object of one buffer shows what the desk says of it and of the record. */
  ghost predicate ShowsAt(b: Fl_Text_Buffer, undo: UndoRecord, d: Desk, i: nat)
    reads b, undo
  {
    && i < |d.buffers| && d.buffers[i] == BufferOf(b)
    && (d.owner == i <==> undo.widget == b)
    && d.record == RecordOf(undo)
  }

  method EditOn(b: Fl_Text_Buffer, undo: UndoRecord, ghost d: Desk, i: nat, edit: Edit)
    requires Possible(d, Does(i, edit)) && Sound(b, undo) && ShowsAt(b, undo, d, i)
    modifies b, b.mBuf, undo, b.mPrimary, b.mSecondary, b.mHighlight
    ensures Sound(b, undo) && (b.mBuf == old(b.mBuf) || fresh(b.mBuf))
    ensures ShowsAt(b, undo, Done(d, Does(i, edit)), i)
    ensures undo.widget == b || undo.widget == old(undo.widget)
  {
    assert b.State() == EditorOf(d, i);
    StepOwns(b.State(), edit);
    b.Perform(edit);
  }

  method CopyOn(b: Fl_Text_Buffer, c: Fl_Text_Buffer, undo: UndoRecord, ghost d: Desk, ghost i: nat, ghost from: nat,
                start: int, end: int, pos: int)
    requires Possible(d, Copies(i, from, start, end, pos)) && Sound(b, undo) && ShowsAt(b, undo, d, i)
    requires Sound(c, undo) && d.buffers[from] == BufferOf(c) && (b == c || Separate(b, c))
    modifies b, b.mBuf, b.mPrimary, b.mSecondary, b.mHighlight
    ensures Sound(b, undo) && (b.mBuf == old(b.mBuf) || fresh(b.mBuf))
    ensures ShowsAt(b, undo, Done(d, Copies(i, from, start, end, pos)), i)
  {
    ResizedOne(b.Room(), Put(end - start), b.mPreferredGapSize);
    b.Copy(c, start, end, pos);
  }

  /** One act, on the object it concerns. */
  method PerformOn(b: Fl_Text_Buffer, c: Fl_Text_Buffer, undo: UndoRecord, ghost d: Desk, act: Act)
    requires Possible(d, act) && Sound(b, undo) && ShowsAt(b, undo, d, act.i)
    requires act.Copies? ==> Sound(c, undo) && d.buffers[act.from] == BufferOf(c) && (b == c || Separate(b, c))
    modifies b, b.mBuf, undo, b.mPrimary, b.mSecondary, b.mHighlight
    ensures Sound(b, undo) && (b.mBuf == old(b.mBuf) || fresh(b.mBuf))
    ensures ShowsAt(b, undo, Done(d, act), act.i)
    ensures undo.widget == b || undo.widget == old(undo.widget)
  {
    match act {
      case Does(i, edit) =>
        EditOn(b, undo, d, i, edit);
      case Sets(i, t) =>
        ResizedOne(b.Room(), Renew(|t|), b.mPreferredGapSize);
        b.SetText(t);
      case Copies(i, from, start, end, pos) =>
        CopyOn(b, c, undo, d, i, from, start, end, pos);
      case Switches(i, flag) =>
        b.SetCanUndo(flag);
    }
  }

  lemma DoneElsewhere(d: Desk, act: Act)
    requires Possible(d, act)
    ensures
      var f := Done(d, act);
      && |f.buffers| == |d.buffers| && (f.owner == d.owner || f.owner == act.i)
      && forall j | 0 <= j < |d.buffers| && j != act.i :: f.buffers[j] == d.buffers[j]
  {
  }

  method Perform(bufs: seq<Fl_Text_Buffer>, undo: UndoRecord, ghost d: Desk, act: Act)
    requires act.i < |bufs| && Apart(bufs, undo) && Shows(bufs, undo, d) && Possible(d, act)
    modifies bufs[act.i], bufs[act.i].mBuf, undo
    modifies bufs[act.i].mPrimary, bufs[act.i].mSecondary, bufs[act.i].mHighlight
    ensures Apart(bufs, undo) && Shows(bufs, undo, Done(d, act))
    ensures forall i | 0 <= i < |bufs| :: bufs[i].mBuf == old(bufs[i].mBuf) || fresh(bufs[i].mBuf)
  {
    var b := bufs[act.i];
    var c := bufs[if act.Copies? then act.from else act.i];
    PerformOn(b, c, undo, d, act);
    forall j | 0 <= j < |bufs| && j != act.i
      ensures Sound(bufs[j], undo) && BufferOf(bufs[j]) == d.buffers[j] && bufs[j].mBuf == old(bufs[j].mBuf)
    {
      assert old(Sound(bufs[j], undo)) && old(Separate(bufs[j], bufs[act.i]));
    }
    DoneElsewhere(d, act);
  }

  lemma StatesShown(bufs: seq<Fl_Text_Buffer>, undo: UndoRecord, d: Desk)
    requires Apart(bufs, undo) && Shows(bufs, undo, d)
    ensures forall i | 0 <= i < |bufs| :: bufs[i].State() == EditorOf(d, i)
  {
    assert forall i | 0 <= i < |bufs| :: Sound(bufs[i], undo);
  }

  /** Any run, on objects: they show what the run makes of the desk. */
  method Replay(bufs: seq<Fl_Text_Buffer>, undo: UndoRecord, ghost d: Desk, acts: seq<Act>)
    requires Apart(bufs, undo) && Shows(bufs, undo, d) && PossibleRun(d, acts)
    modifies bufs, undo, set b | b in bufs :: b.mBuf
    modifies set b | b in bufs :: b.mPrimary, set b | b in bufs :: b.mSecondary, set b | b in bufs :: b.mHighlight
    ensures Apart(bufs, undo) && Shows(bufs, undo, After(d, acts))
    ensures forall i | 0 <= i < |bufs| :: bufs[i].mBuf == old(bufs[i].mBuf) || fresh(bufs[i].mBuf)
    decreases |acts|
  {
    if |acts| > 0 {
      var n := |acts| - 1;
      Replay(bufs, undo, d, acts[..n]);
      Perform(bufs, undo, After(d, acts[..n]), acts[n]);
    }
  }

  method UndoOne(bufs: seq<Fl_Text_Buffer>, undo: UndoRecord, ghost f: Desk, ghost d: Desk, ghost acts: seq<Act>,
                 i: nat)
    requires PossibleRun(d, acts) && f == After(d, acts) && Apart(bufs, undo) && Shows(bufs, undo, f)
    requires i < |bufs| && Tracks(d, None) && (f.owner == i ==> Followed(d, acts).Some?)
    modifies bufs[i], bufs[i].mBuf, undo, bufs[i].mPrimary, bufs[i].mSecondary, bufs[i].mHighlight
    ensures
      if f.owner == i then bufs[i].text == Followed(d, acts).value.Base() && bufs[i].text in Texts(d, acts, i)
      else bufs[i].text == f.buffers[i].text
  {
    StatesShown(bufs, undo, f);
    Buffers.RunUndoes(d, acts, i);
    var b := bufs[i];
    assert Sound(b, undo) && b.State() == EditorOf(f, i);
    var _, _ := b.Undo(0);
    assert b.State() == Undo(EditorOf(f, i));
  }

  /** An undo after any run: in the owner of the record it leads back to a text the buffer has had, as
      long as the change is followed, and elsewhere it does nothing. */
  method ReplayAndUndo(bufs: seq<Fl_Text_Buffer>, undo: UndoRecord, ghost d: Desk, acts: seq<Act>, i: nat)
    requires Apart(bufs, undo) && Shows(bufs, undo, d) && PossibleRun(d, acts)
    requires i < |bufs| && Tracks(d, None) && (After(d, acts).owner == i ==> Followed(d, acts).Some?)
    modifies bufs, undo, set b | b in bufs :: b.mBuf
    modifies set b | b in bufs :: b.mPrimary, set b | b in bufs :: b.mSecondary, set b | b in bufs :: b.mHighlight
    ensures
      if After(d, acts).owner == i then
        bufs[i].text == Followed(d, acts).value.Base() && bufs[i].text in Texts(d, acts, i)
      else
        bufs[i].text == After(d, acts).buffers[i].text
  {
    Replay(bufs, undo, d, acts);
    UndoOne(bufs, undo, After(d, acts), d, acts, i);
  }

  method OpenOne(bufs: seq<Fl_Text_Buffer>, undo: UndoRecord, ghost d: Desk, requested: nat, preferred: nat)
    returns (more: seq<Fl_Text_Buffer>, ghost e: Desk)
    requires Apart(bufs, undo) && Shows(bufs, undo, d) && undo.widget == null
    ensures Apart(more, undo) && Shows(more, undo, e)
    ensures |more| == |bufs| + 1 && more[..|bufs|] == bufs && fresh(more[|bufs|])
    ensures e == d.(buffers := d.buffers + [Buffer("", true, Fresh(requested, preferred), preferred)])
  {
    var b := new Fl_Text_Buffer(requested, preferred, undo);
    more := bufs + [b];
    e := d.(buffers := d.buffers + [BufferOf(b)]);
    forall i | 0 <= i < |bufs|
      ensures Sound(bufs[i], undo) && Separate(bufs[i], b) && Separate(b, bufs[i])
      ensures BufferOf(bufs[i]) == d.buffers[i]
    {
      assert old(Sound(bufs[i], undo));
    }
  }

  /** Any number of new buffers, of given requested and preferred sizes. */
  method Open(requested: seq<nat>, preferred: seq<nat>)
    returns (bufs: seq<Fl_Text_Buffer>, undo: UndoRecord, ghost d: Desk)
    requires |requested| == |preferred|
    ensures fresh(undo) && |bufs| == |requested| && (forall b <- bufs :: fresh(b))
    ensures Apart(bufs, undo) && Shows(bufs, undo, d) && Tracks(d, None)
    ensures forall i | 0 <= i < |bufs| ::
      d.buffers[i] == Buffer("", true, Fresh(requested[i], preferred[i]), preferred[i])
  {
    undo := new UndoRecord();
    bufs := [];
    d := Desk([], -1, RecordOf(undo));
    while |bufs| < |requested|
      invariant fresh(undo) && undo.widget == null && |bufs| <= |requested|
      invariant forall b <- bufs :: fresh(b)
      invariant Apart(bufs, undo) && Shows(bufs, undo, d) && Tracks(d, None)
      invariant forall i | 0 <= i < |bufs| ::
        d.buffers[i] == Buffer("", true, Fresh(requested[i], preferred[i]), preferred[i])
    {
      bufs, d := OpenOne(bufs, undo, d, requested[|bufs|], preferred[|bufs|]);
    }
  }
}
