/** What the buffer's editing operations do to its text and to the undo record.

    There is one undo record for all buffers; `mine` says whether this buffer wrote it last. */
module Editing {
  import opened Allocation

  function Max(a: int, b: int): int { if a >= b then a else b }

  function Min(a: int, b: int): int { if a <= b then a else b }

  function Clamp(pos: int, length: nat): (p: nat)
    ensures p <= length
  {
    Max(0, Min(pos, length))
  }

  /** The position in the text that is nearest: between any other, `q`, and the one given. */
  lemma ClampNearest(pos: int, length: nat, q: nat)
    requires q <= length
    ensures pos <= Clamp(pos, length) <= q || q <= Clamp(pos, length) <= pos
    ensures Clamp(pos, length) == pos <==> 0 <= pos <= length
  {
  }

  lemma Larger(a: int, b: int)
    ensures Max(a, b) >= a && Max(a, b) >= b && Max(a, b) in {a, b}
    ensures Min(a, b) <= a && Min(a, b) <= b && Min(a, b) in {a, b}
  {
  }

  function Splice(t: string, start: int, end: int, put: string): (r: string)
    requires 0 <= start <= end <= |t|
    ensures |r| == |t| - (end - start) + |put|
  {
    t[..start] + put + t[end..]
  }

  // `at` points behind the last insertion; `cut` characters were deleted there, or `ins` inserted
  // over `yankCut` deleted ones; `saved` holds the deleted characters.
  datatype Record = Record(mine: bool, at: int, cut: int, ins: int, yankCut: int, saved: string)
  {
    predicate WellFormed() {
      0 <= cut <= |saved| && 0 <= yankCut <= |saved| && 0 <= ins
    }
  }

  datatype Editor = Editor(text: string, canUndo: bool, record: Record)
  {
    predicate WellFormed() {
      record.WellFormed() && (record.mine ==> 0 <= record.at - record.ins && record.at <= |text|)
    }
  }

  function InsertRecord(r: Record, pos: int, n: nat): Record {
    if r.mine && r.at == pos && r.ins != 0 then
      r.(ins := r.ins + n, at := pos + n, cut := 0)
    else
      Record(true, pos + n, 0, n, if r.at == pos then r.cut else 0, r.saved)
  }

  /** The internal insertion: `insert_`. */
  function Inserted(e: Editor, pos: int, t: string): Editor
    requires 0 <= pos <= |e.text|
  {
    Editor(Splice(e.text, pos, pos, t), e.canUndo, if e.canUndo then InsertRecord(e.record, pos, |t|) else e.record)
  }

  function RemoveRecord(r: Record, start: int, end: int, gone: string): Record
    requires r.WellFormed()
  {
    if r.mine && r.at == end && r.cut != 0 then
      Record(true, start, r.cut + (end - start), 0, 0, gone + r.saved[..r.cut])
    else
      Record(true, start, end - start, 0, 0, gone)
  }

  /** The internal deletion: `remove_`. */
  function Removed(e: Editor, start: int, end: int): Editor
    requires 0 <= start <= end <= |e.text| && e.record.WellFormed()
  {
    Editor(Splice(e.text, start, end, ""), e.canUndo,
           if e.canUndo then RemoveRecord(e.record, start, end, e.text[start..end]) else e.record)
  }

  function Insert(e: Editor, pos: int, t: string): Editor {
    Inserted(e, Clamp(pos, |e.text|), t)
  }

  function Remove(e: Editor, start: int, end: int): Editor
    requires e.record.WellFormed()
  {
    var s, f := Clamp(Min(start, end), |e.text|), Clamp(Max(start, end), |e.text|);
    if s == f then e else Removed(e, s, f)
  }

  /** The range `replace` is called with has to be one, within the text. */
  predicate IsRange(start: int, end: int, length: nat) {
    Max(0, start) <= Min(end, length)
  }

  function Replace(e: Editor, start: int, end: int, t: string): Editor
    requires e.record.WellFormed() && IsRange(start, end, |e.text|)
  {
    Inserted(Removed(e, Max(0, start), Min(end, |e.text|)), Max(0, start), t)
  }

  predicate CanUndo(e: Editor) {
    e.record.mine && (e.record.cut != 0 || e.record.ins != 0 || e.canUndo)
  }

  /** How many saved characters an undo puts back. */
  function Restored(r: Record): int {
    if r.ins != 0 && r.yankCut != 0 && r.cut == 0 then r.yankCut else r.cut
  }

  /** What undoing needs: where it replaces text, a range within the text. */
  predicate Revertible(e: Editor) {
    var r := e.record;
    && r.WellFormed()
    && (CanUndo(e) && r.ins != 0 && Restored(r) != 0 ==> IsRange(r.at - r.ins, r.at, |e.text|))
  }

  function Undo(e: Editor): Editor
    requires Revertible(e)
  {
    var r := e.record;
    var back := Restored(r);
    if !CanUndo(e) then e
    else if r.ins != 0 && back != 0 then Replace(e, r.at - r.ins, r.at, r.saved[..back])
    else if r.ins != 0 then Remove(e, r.at - r.ins, r.at)
    else if back != 0 then
      var f := Insert(e, r.at, r.saved[..back]);
      f.(record := f.record.(yankCut := 0))
    else e
  }

  // ---------------------------------------------------------------- what the record means

  /** A text that reads before + now + after, where it read before + was + after until the last
      change. Undoing swaps the two. */
  datatype Change = Change(before: string, now: string, was: string, after: string)
  {
    function Text(): string { before + now + after }

    function Base(): string { before + was + after }

    function At(): nat { |before| + |now| }

    function Flip(): Change { Change(before, was, now, after) }

    /** Typing on at the end of the change, or over what it deleted, belongs to it; typing
        elsewhere starts a new one. */
    function Typed(pos: nat, t: string): (c: Change)
      requires pos <= |Text()|
      ensures c.Text() == Splice(Text(), pos, pos, t)
    {
      if pos == At() && (now != "" || t != "") then
        assert before + (now + t) + after == Splice(Text(), pos, pos, t);
        Change(before, now + t, was, after)
      else
        assert Text()[..pos] + t + Text()[pos..] == Splice(Text(), pos, pos, t);
        Change(Text()[..pos], t, "", Text()[pos..])
    }

    /** Deleting backwards from a deletion belongs to it; deleting elsewhere starts a new change. */
    function Cut(start: nat, end: nat): (c: Change)
      requires start <= end <= |Text()|
      ensures c.Text() == Splice(Text(), start, end, "")
    {
      if end == At() && now == "" then
        assert before[..start] + "" + after == Splice(Text(), start, end, "");
        Change(before[..start], "", before[start..] + was, after)
      else
        assert Text()[..start] + "" + Text()[end..] == Splice(Text(), start, end, "");
        Change(Text()[..start], "", Text()[start..end], Text()[end..])
    }
  }

  /** The record stands for a change of the text. */
  ghost predicate Records(e: Editor, c: Change) {
    && e.WellFormed()
    && e.record.mine
    && e.text == c.Text()
    && e.record.at == c.At()
    && e.record.ins == |c.now|
    && if c.now != "" then
         e.record.cut == 0 && e.record.yankCut == |c.was| && e.record.saved[..e.record.yankCut] == c.was
       else
         e.record.cut == |c.was| && e.record.saved[..e.record.cut] == c.was
  }

  lemma InsertedRecords(e: Editor, c: Change, pos: nat, t: string)
    requires Records(e, c) && e.canUndo && pos <= |e.text|
    ensures Records(Inserted(e, pos, t), c.Typed(pos, t))
  {
  }

  lemma RemovedRecords(e: Editor, c: Change, start: nat, end: nat)
    requires Records(e, c) && e.canUndo && start <= end <= |e.text|
    ensures Records(Removed(e, start, end), c.Cut(start, end))
  {
    var r := e.record;
    if r.at == end && c.now == "" {
      assert c.before + c.now == c.before;
      assert e.text[start..end] == c.before[start..];
      if c.was != "" {
        assert (e.text[start..end] + r.saved[..r.cut])[..r.cut + (end - start)] == c.before[start..] + c.was;
      } else {
        assert c.before[start..] + c.was == c.before[start..];
        assert e.text[start..end][..end - start] == e.text[start..end];
      }
    } else {
      assert e.text[start..end][..end - start] == e.text[start..end];
    }
  }

  /** Undoing text that was inserted over deleted text. */
  lemma UndoOverwriting(e: Editor, c: Change)
    requires Records(e, c) && e.canUndo && c.now != "" && c.was != ""
    ensures Records(Undo(e), c.Flip())
  {
    var b, d := e.record.at - e.record.ins, c.Cut(|c.before|, c.At());
    assert b == |c.before| && e.text[b..e.record.at] == c.now;
    assert e.text[..b] == c.before && e.text[e.record.at..] == c.after;
    RemovedRecords(e, c, b, e.record.at);
    InsertedRecords(Removed(e, b, e.record.at), d, b, c.was);
    assert d == Change(c.before, "", c.now, c.after);
    assert d.Typed(b, c.was) == c.Flip();
  }

  lemma UndoTyping(e: Editor, c: Change)
    requires Records(e, c) && e.canUndo && c.now != "" && c.was == ""
    ensures Records(Undo(e), c.Flip())
  {
    var b := e.record.at - e.record.ins;
    assert e.text[b..e.record.at] == c.now;
    assert e.text[..b] == c.before && e.text[e.record.at..] == c.after;
    RemovedRecords(e, c, b, e.record.at);
  }

  lemma UndoDeleting(e: Editor, c: Change)
    requires Records(e, c) && e.canUndo && c.now == ""
    ensures Records(Undo(e), c.Flip())
  {
    assert c.before + c.now == c.before;
    assert e.text[..|c.before|] == c.before && e.text[|c.before|..] == c.after;
    assert Splice(e.text, e.record.at, e.record.at, c.was) == c.Base();
  }

  /** Undoing swaps the two sides of the change, so that a second undo takes the first back. */
  lemma UndoRecords(e: Editor, c: Change)
    requires Records(e, c) && e.canUndo
    ensures Records(Undo(e), c.Flip())
    ensures Undo(e).text == c.Base()
  {
    if c.now == "" {
      UndoDeleting(e, c);
    } else if c.was == "" {
      UndoTyping(e, c);
    } else {
      UndoOverwriting(e, c);
    }
  }

  /** The text after undoing, with undo switched off for new edits too. */
  lemma UndoBase(e: Editor, c: Change)
    requires Records(e, c)
    ensures Revertible(e) && Undo(e).text == c.Base()
  {
    var r, b := e.record, |c.before|;
    assert e.text[..b] == c.before && e.text[b..] == c.now + c.after && e.text[c.At()..] == c.after;
    assert c.was == "" && c.now == "" ==> e.text == c.Base();
    if c.now != "" && c.was != "" {
      assert Splice(Splice(e.text, b, r.at, ""), b, b, c.was) == c.Base();
    } else if c.now != "" {
      assert Splice(e.text, b, r.at, "") == c.Base();
    } else if c.was != "" {
      assert Splice(e.text, r.at, r.at, c.was) == c.Base();
    }
  }

  /** What the first insertion after another buffer wrote the record is recorded as: when that
      buffer's last deletion happens to lie at the same position, its text is taken for text of
      this buffer. */
  function Taken(e: Editor, pos: nat, t: string): Change
    requires e.WellFormed() && pos <= |e.text|
  {
    Change(e.text[..pos], t, if e.record.at == pos && t != "" then e.record.saved[..e.record.cut] else "",
           e.text[pos..])
  }

  lemma FirstInsertionTaken(e: Editor, pos: nat, t: string)
    requires e.WellFormed() && e.canUndo && !e.record.mine && pos <= |e.text|
    ensures Records(Inserted(e, pos, t), Taken(e, pos, t))
    ensures Taken(e, pos, t).Base() == Splice(e.text, pos, pos, Taken(e, pos, t).was)
  {
    assert e.text[..pos] + t + e.text[pos..] == Splice(e.text, pos, pos, t);
  }

  /** What undoing that insertion does: it takes back the insertion alone unless it also brings in
      the other buffer's text. */
  lemma FirstInsertionUndone(e: Editor, pos: nat, t: string)
    requires e.WellFormed() && e.canUndo && !e.record.mine && pos <= |e.text|
    ensures Revertible(Inserted(e, pos, t))
    ensures
      Undo(Inserted(e, pos, t)).text == e.text
      <==> !(e.record.at == pos && e.record.cut != 0 && t != "")
    ensures
      e.record.at == pos && t != "" ==>
        Undo(Inserted(e, pos, t)).text == Splice(e.text, pos, pos, e.record.saved[..e.record.cut])
  {
    FirstInsertionTaken(e, pos, t);
    UndoRecords(Inserted(e, pos, t), Taken(e, pos, t));
    assert Splice(e.text, pos, pos, "") == e.text;
  }

  lemma FirstDeletion(e: Editor, start: nat, end: nat)
    requires e.WellFormed() && e.canUndo && !e.record.mine && start <= end <= |e.text|
    ensures Records(Removed(e, start, end), Change(e.text[..start], "", e.text[start..end], e.text[end..]))
  {
    assert e.text[..start] + "" + e.text[end..] == Splice(e.text, start, end, "");
    assert e.text[start..end][..end - start] == e.text[start..end];
  }

  // ---------------------------------------------------------------- runs

  datatype Edit =
    | Insertion(pos: int, t: string)
    | Deletion(start: int, end: int)
    | Replacement(start: int, end: int, t: string)
    | Undoing

  predicate Legal(edit: Edit, length: nat) {
    edit.Replacement? ==> IsRange(edit.start, edit.end, length)
  }

  /** What an edit asks of the editor. */
  predicate Ready(e: Editor, edit: Edit) {
    e.record.WellFormed() && Legal(edit, |e.text|) && (edit.Undoing? ==> Revertible(e))
  }

  function Step(e: Editor, edit: Edit): Editor
    requires Ready(e, edit)
  {
    match edit
    case Insertion(pos, t) => Insert(e, pos, t)
    case Deletion(start, end) => Remove(e, start, end)
    case Replacement(start, end, t) => Replace(e, start, end, t)
    case Undoing => Undo(e)
  }

  function ChangeStep(c: Change, edit: Edit): Change
    requires Legal(edit, |c.Text()|)
  {
    var n := |c.Text()|;
    match edit
    case Insertion(pos, t) => c.Typed(Clamp(pos, n), t)
    case Deletion(start, end) =>
      var s, f := Clamp(Min(start, end), n), Clamp(Max(start, end), n);
      if s == f then c else c.Cut(s, f)
    case Replacement(start, end, t) => c.Cut(Max(0, start), Min(end, n)).Typed(Max(0, start), t)
    case Undoing => c.Flip()
  }

  lemma StepRecords(e: Editor, c: Change, edit: Edit)
    requires Records(e, c) && e.canUndo && Legal(edit, |e.text|)
    ensures Ready(e, edit) && Records(Step(e, edit), ChangeStep(c, edit)) && Step(e, edit).canUndo
  {
    var n := |e.text|;
    match edit
    case Insertion(pos, t) =>
      InsertedRecords(e, c, Clamp(pos, n), t);
    case Deletion(start, end) =>
      RemovedRecords(e, c, Clamp(Min(start, end), n), Clamp(Max(start, end), n));
    case Replacement(start, end, t) =>
      RemovedRecords(e, c, Max(0, start), Min(end, n));
      InsertedRecords(Removed(e, Max(0, start), Min(end, n)), c.Cut(Max(0, start), Min(end, n)), Max(0, start), t);
    case Undoing =>
      UndoRecords(e, c);
  }

  /** How the sizes of the buffer change with an edit. */
  function Sizes(e: Editor, edit: Edit): seq<Resize>
    requires Ready(e, edit)
  {
    var n := |e.text|;
    match edit
    case Insertion(pos, t) => [Put(|t|)]
    case Deletion(start, end) => RemoveSizes(start, end, n)
    case Replacement(start, end, t) => [Free(Min(end, n) - Max(0, start)), Put(|t|)]
    case Undoing =>
      var r := e.record;
      var b := r.at - r.ins;
      if !CanUndo(e) then []
      else if r.ins != 0 && Restored(r) != 0 then [Free(Min(r.at, n) - Max(0, b)), Put(Restored(r))]
      else if r.ins != 0 then RemoveSizes(b, r.at, n)
      else if Restored(r) != 0 then [Put(Restored(r))]
      else []
  }

  function RemoveSizes(start: int, end: int, length: nat): seq<Resize> {
    var s, f := Clamp(Min(start, end), length), Clamp(Max(start, end), length);
    if s == f then [] else [Free(f - s)]
  }

  /** Undoing an insertion over deleted text is a replacement. */
  lemma UndoneOver(e: Editor, room: Space, preferred: nat)
    requires Revertible(e) && CanUndo(e) && e.record.ins != 0 && Restored(e.record) != 0
    ensures
      var r := e.record;
      var b, n := r.at - r.ins, Restored(r);
      && Undo(e) == Replace(e, b, r.at, r.saved[..n])
      && ResizedAll(room, Sizes(e, Undoing), preferred)
         == Resized(Resized(room, Free(Min(r.at, |e.text|) - Max(0, b)), preferred), Put(n), preferred)
      && (e.canUndo ==> Undo(e).record.at == Max(0, b) + n)
  {
    var r := e.record;
    ResizedTwo(room, Free(Min(r.at, |e.text|) - Max(0, r.at - r.ins)), Put(Restored(r)), preferred);
  }

  predicate LegalRun(c: Change, edits: seq<Edit>)
    decreases edits
  {
    edits == [] || (Legal(edits[0], |c.Text()|) && LegalRun(ChangeStep(c, edits[0]), edits[1..]))
  }

  function ChangeRun(c: Change, edits: seq<Edit>): Change
    requires LegalRun(c, edits)
    decreases edits
  {
    if edits == [] then c else ChangeRun(ChangeStep(c, edits[0]), edits[1..])
  }

  /** The editor after a run, as long as the record stays in step with the text. */
  ghost predicate Runs(e: Editor, edits: seq<Edit>, f: Editor)
    decreases edits
  {
    if edits == [] then f == e
    else Ready(e, edits[0]) && Runs(Step(e, edits[0]), edits[1..], f)
  }

  /** Over every run of edits and undos of one buffer, undoing leads back to the text before the
      change under way, and undoing twice changes nothing. */
  lemma {:induction false} RunUndoes(e: Editor, c: Change, edits: seq<Edit>) returns (f: Editor)
    requires Records(e, c) && e.canUndo && LegalRun(c, edits)
    ensures Runs(e, edits, f) && f.canUndo
    ensures Records(f, ChangeRun(c, edits))
    ensures Undo(f).text == ChangeRun(c, edits).Base() && Records(Undo(f), ChangeRun(c, edits).Flip())
    ensures Undo(Undo(f)).text == f.text
    decreases edits
  {
    if edits == [] {
      f := e;
      UndoRecords(e, c);
      UndoRecords(Undo(e), c.Flip());
    } else {
      StepRecords(e, c, edits[0]);
      f := RunUndoes(Step(e, edits[0]), ChangeStep(c, edits[0]), edits[1..]);
    }
  }

  lemma TypedBase(c: Change, pos: nat, t: string)
    requires pos <= |c.Text()|
    ensures c.Typed(pos, t).Base() == if pos == c.At() && (c.now != "" || t != "") then c.Base() else c.Text()
  {
    assert c.Text()[..pos] + "" + c.Text()[pos..] == c.Text();
  }

  lemma CutBase(c: Change, start: nat, end: nat)
    requires start <= end <= |c.Text()|
    ensures c.Cut(start, end).Base() == if end == c.At() && c.now == "" then c.Base() else c.Text()
  {
    if end == c.At() && c.now == "" {
      assert c.before[..start] + (c.before[start..] + c.was) + c.after == c.Base();
    } else {
      assert c.Text()[..start] + c.Text()[start..end] + c.Text()[end..] == c.Text();
    }
  }

  lemma ReplacedBase(c: Change, start: nat, end: nat, t: string)
    requires start <= end <= |c.Text()|
    ensures
      var d := c.Cut(start, end).Typed(start, t);
      if t == "" then d.Base() == d.Text()
      else d.Base() == if end == c.At() && c.now == "" then c.Base() else c.Text()
  {
    CutBase(c, start, end);
    var d := c.Cut(start, end);
    assert d.now == "" && d.At() == start;
    TypedBase(d, start, t);
    assert Splice(d.Text(), start, start, "") == d.Text();
  }

  /** Which text an undo would lead back to after one more edit: the one before that edit, or,
      when the edit belongs to the change under way, the one before that change. A replacement by
      nothing is the one edit that undo does not take back. */
  lemma BaseAfter(c: Change, edit: Edit)
    requires Legal(edit, |c.Text()|)
    ensures
      var n, base := |c.Text()|, ChangeStep(c, edit).Base();
      match edit
      case Insertion(pos, t) =>
        base == if Clamp(pos, n) == c.At() && (c.now != "" || t != "") then c.Base() else c.Text()
      case Deletion(start, end) =>
        var s, f := Clamp(Min(start, end), n), Clamp(Max(start, end), n);
        base == if s == f || (f == c.At() && c.now == "") then c.Base() else c.Text()
      case Replacement(start, end, t) =>
        if t == "" then base == ChangeStep(c, edit).Text()
        else base == if Min(end, n) == c.At() && c.now == "" then c.Base() else c.Text()
      case Undoing => base == c.Text()
  {
    var n := |c.Text()|;
    match edit
    case Insertion(pos, t) =>
      TypedBase(c, Clamp(pos, n), t);
    case Deletion(start, end) =>
      CutBase(c, Clamp(Min(start, end), n), Clamp(Max(start, end), n));
    case Replacement(start, end, t) =>
      ReplacedBase(c, Max(0, start), Min(end, n), t);
    case Undoing =>
  }

  /** An input on which undo does not take back the last edit: a replacement by nothing. */
  lemma ReplacementNotUndone()
    ensures
      var e := Editor("ab", true, Record(false, 0, 0, 0, 0, ""));
      var f := Replace(e, 0, 2, "");
      f.text == "" && Undo(f).text == ""
  {
  }
}
