/** Any number of text buffers in one program. They share the undo record: it speaks of the buffer
    that wrote it last. */
module Buffers {
  import opened Wrappers
  import opened Allocation
  import opened Editing

  datatype Buffer = Buffer(text: string, canUndo: bool, room: Space, preferred: nat)

  // `owner` is the buffer that wrote the record last; nobody has at the start. It says for every buffer
  // whether the record is its own, so the record itself does not.
  datatype Desk = Desk(buffers: seq<Buffer>, owner: int, record: Record)

  datatype Act =
    | Does(i: nat, edit: Edit)
    | Sets(i: nat, t: string)
    | Copies(i: nat, from: nat, start: int, end: int, pos: int)
    | Switches(i: nat, flag: bool)

  /** A buffer as its own methods see it. */
  function EditorOf(d: Desk, i: nat): Editor
    requires i < |d.buffers|
  {
    Editor(d.buffers[i].text, d.buffers[i].canUndo, d.record.(mine := d.owner == i))
  }

  predicate Possible(d: Desk, act: Act) {
    && act.i < |d.buffers|
    && match act
       case Does(i, edit) => Ready(EditorOf(d, i), edit)
       case Copies(i, from, start, end, pos) =>
         && from < |d.buffers| && 0 <= start <= end <= |d.buffers[from].text|
         && 0 <= pos <= |d.buffers[i].text|
       case _ => true
  }

  /** The sizes an act puts its buffer through. */
  function ActSizes(d: Desk, act: Act): seq<Resize>
    requires Possible(d, act)
  {
    match act
    case Does(i, edit) => Sizes(EditorOf(d, i), edit)
    case Sets(i, t) => [Renew(|t|)]
    case Copies(i, from, start, end, pos) => [Put(end - start)]
    case Switches(i, flag) => []
  }

  /** Only edits write the record; `text` and `copy` leave it as it is. */
  function Done(d: Desk, act: Act): Desk
    requires Possible(d, act)
  {
    var b := d.buffers[act.i];
    var room := ResizedAll(b.room, ActSizes(d, act), b.preferred);
    match act
    case Does(i, edit) =>
      var e := Step(EditorOf(d, i), edit);
      Desk(d.buffers[i := b.(text := e.text, room := room)], if e.record.mine then i else d.owner,
           e.record.(mine := false))
    case Sets(i, t) =>
      d.(buffers := d.buffers[i := b.(text := t, room := room)])
    case Copies(i, from, start, end, pos) =>
      var put := d.buffers[from].text[start..end];
      d.(buffers := d.buffers[i := b.(text := Splice(b.text, pos, pos, put), room := room)])
    case Switches(i, flag) =>
      d.(buffers := d.buffers[i := b.(canUndo := flag, room := room)])
  }

  // ---------------------------------------------------------------- what the record stands for

  /** After an insertion. An insertion that the record takes for a continuation of something it
      does not stand for, or that takes over deleted characters, is not followed. */
  function TypedFrom(e: Editor, t: Option<Change>, pos: nat, s: string): Option<Change>
    requires pos <= |e.text| && (t.Some? ==> e.text == t.value.Text())
  {
    var r := e.record;
    if t.Some? then Some(t.value.Typed(pos, s))
    else if r.at == pos && ((r.mine && r.ins != 0) || (r.cut != 0 && s != "")) then None
    else Some(Change(e.text[..pos], s, "", e.text[pos..]))
  }

  function CutFrom(e: Editor, t: Option<Change>, start: nat, end: nat): (u: Option<Change>)
    requires start <= end <= |e.text| && (t.Some? ==> e.text == t.value.Text())
    ensures u.Some? ==> u.value.Text() == Splice(e.text, start, end, "")
  {
    var r := e.record;
    if t.Some? then Some(t.value.Cut(start, end))
    else if r.mine && r.at == end && r.cut != 0 then None
    else
      assert e.text[..start] + "" + e.text[end..] == Splice(e.text, start, end, "");
      Some(Change(e.text[..start], "", e.text[start..end], e.text[end..]))
  }

  function EditFrom(e: Editor, t: Option<Change>, edit: Edit): Option<Change>
    requires Ready(e, edit) && (t.Some? ==> e.text == t.value.Text())
  {
    var n := |e.text|;
    match edit
    case Insertion(pos, s) => TypedFrom(e, t, Clamp(pos, n), s)
    case Deletion(start, end) =>
      var s, f := Clamp(Min(start, end), n), Clamp(Max(start, end), n);
      if s == f then t else CutFrom(e, t, s, f)
    case Replacement(start, end, s) =>
      var a, b := Max(0, start), Min(end, n);
      TypedFrom(Removed(e, a, b), CutFrom(e, t, a, b), a, s)
    case Undoing => if t.Some? then Some(t.value.Flip()) else None
  }

  ghost predicate Stands(e: Editor, t: Option<Change>) {
    e.record.WellFormed() && (t.Some? ==> Records(e, t.value))
  }

  /** Undoing would lead to the text before, or to the one it would have led to before. */
  predicate Leads(e: Editor, t: Option<Change>, u: Option<Change>) {
    u.Some? ==> u.value.Base() == e.text || (t.Some? && u.value.Base() == t.value.Base())
  }

  lemma TypedStands(e: Editor, t: Option<Change>, pos: nat, s: string)
    requires Stands(e, t) && e.canUndo && pos <= |e.text|
    ensures Stands(Inserted(e, pos, s), TypedFrom(e, t, pos, s))
    ensures Leads(e, t, TypedFrom(e, t, pos, s))
  {
    if t.Some? {
      InsertedRecords(e, t.value, pos, s);
      TypedBase(t.value, pos, s);
    } else {
      assert e.text[..pos] + s + e.text[pos..] == Splice(e.text, pos, pos, s);
      assert e.text[..pos] + "" + e.text[pos..] == e.text;
    }
  }

  lemma CutStands(e: Editor, t: Option<Change>, start: nat, end: nat)
    requires Stands(e, t) && e.canUndo && start <= end <= |e.text|
    ensures Stands(Removed(e, start, end), CutFrom(e, t, start, end))
    ensures Leads(e, t, CutFrom(e, t, start, end))
  {
    if t.Some? {
      RemovedRecords(e, t.value, start, end);
      CutBase(t.value, start, end);
    } else {
      assert e.text[start..end][..end - start] == e.text[start..end];
      assert e.text[..start] + e.text[start..end] + e.text[end..] == e.text;
    }
  }

  /** A replacement by nothing leads to the text it leaves, any other edit to the text before it or
      to where the change under way led. */
  predicate EditLeads(e: Editor, t: Option<Change>, edit: Edit, u: Option<Change>)
    requires Ready(e, edit)
  {
    if edit.Replacement? && edit.t == "" then u.Some? ==> u.value.Base() == Step(e, edit).text
    else Leads(e, t, u)
  }

  lemma OverwrittenStands(e: Editor, t: Option<Change>, a: nat, b: nat, s: string)
    requires Stands(e, t) && e.canUndo && a <= b <= |e.text|
    ensures Stands(Inserted(Removed(e, a, b), a, s), TypedFrom(Removed(e, a, b), CutFrom(e, t, a, b), a, s))
  {
    CutStands(e, t, a, b);
    TypedStands(Removed(e, a, b), CutFrom(e, t, a, b), a, s);
  }

  lemma OverwrittenLeads(e: Editor, t: Option<Change>, a: nat, b: nat, s: string)
    requires Stands(e, t) && e.canUndo && a <= b <= |e.text|
    ensures
      var u := TypedFrom(Removed(e, a, b), CutFrom(e, t, a, b), a, s);
      if s == "" then u.Some? ==> u.value.Base() == Inserted(Removed(e, a, b), a, s).text else Leads(e, t, u)
  {
    var f := Removed(e, a, b);
    assert Splice(f.text, a, a, "") == f.text;
    if t.Some? {
      ReplacedBase(t.value, a, b, s);
    } else {
      FreshLeads(e, a, b, s);
    }
  }

  lemma FreshLeads(e: Editor, a: nat, b: nat, s: string)
    requires e.record.WellFormed() && e.canUndo && a <= b <= |e.text|
    ensures
      var f := Removed(e, a, b);
      var u := TypedFrom(f, CutFrom(e, None, a, b), a, s);
      u.Some? ==> u.value.Base() == if s == "" then f.text else e.text
  {
    var f, c := Removed(e, a, b), CutFrom(e, None, a, b);
    assert f.text[..a] + "" + f.text[a..] == f.text;
    assert e.text[..a] + e.text[a..b] + e.text[b..] == e.text;
    if c.Some? {
      TypedBase(c.value, a, s);
    }
  }

  lemma ReplacementStands(e: Editor, t: Option<Change>, edit: Edit)
    requires Stands(e, t) && e.canUndo && edit.Replacement? && Ready(e, edit)
    ensures Stands(Step(e, edit), EditFrom(e, t, edit))
  {
    OverwrittenStands(e, t, Max(0, edit.start), Min(edit.end, |e.text|), edit.t);
  }

  lemma ReplacementLeads(e: Editor, t: Option<Change>, edit: Edit)
    requires Stands(e, t) && e.canUndo && edit.Replacement? && Ready(e, edit)
    ensures EditLeads(e, t, edit, EditFrom(e, t, edit))
  {
    OverwrittenLeads(e, t, Max(0, edit.start), Min(edit.end, |e.text|), edit.t);
  }

  lemma UndoingStands(e: Editor, t: Option<Change>)
    requires Stands(e, t) && e.canUndo && Revertible(e)
    ensures Stands(Undo(e), if t.Some? then Some(t.value.Flip()) else None)
    ensures t.Some? ==> t.value.Flip().Base() == e.text
  {
    if t.Some? {
      UndoRecords(e, t.value);
    }
  }

  lemma EditStands(e: Editor, t: Option<Change>, edit: Edit)
    requires Stands(e, t) && e.canUndo && Ready(e, edit)
    ensures Stands(Step(e, edit), EditFrom(e, t, edit))
    ensures EditLeads(e, t, edit, EditFrom(e, t, edit))
  {
    var n := |e.text|;
    match edit
    case Insertion(pos, s) =>
      TypedStands(e, t, Clamp(pos, n), s);
    case Deletion(start, end) =>
      CutStands(e, t, Clamp(Min(start, end), n), Clamp(Max(start, end), n));
    case Replacement(start, end, s) =>
      ReplacementStands(e, t, edit);
      ReplacementLeads(e, t, edit);
    case Undoing =>
      UndoingStands(e, t);
  }

  // ---------------------------------------------------------------- one act

  /** Where the record comes from an edit that is followed, it stands for a change of its owner's
      text. */
  ghost predicate Tracks(d: Desk, t: Option<Change>) {
    && d.record.WellFormed() && d.owner < |d.buffers|
    && (t.Some? ==> d.owner >= 0 && Records(EditorOf(d, d.owner), t.value))
  }

  /** The change is lost when the owner's text is changed without a note. */
  function Tracked(d: Desk, t: Option<Change>, act: Act): Option<Change>
    requires Possible(d, act)
    requires t.Some? ==> 0 <= d.owner < |d.buffers| && d.buffers[d.owner].text == t.value.Text()
  {
    match act
    case Does(i, edit) =>
      var e := EditorOf(d, i);
      if i == d.owner then if e.canUndo then EditFrom(e, t, edit) else None
      else if Step(e, edit).record.mine then EditFrom(e, None, edit)
      else t
    case Switches(_, _) => t
    case _ => if act.i == d.owner then None else t
  }

  lemma UndoOwns(e: Editor)
    requires Revertible(e)
    ensures Undo(e).record.WellFormed()
    ensures e.record.mine ==> Undo(e).record.mine
    ensures !Undo(e).record.mine ==> Undo(e).record == e.record
  {
  }

  /** Whoever owns the record keeps it, and an edit that does not take it does not touch it. */
  lemma StepOwns(e: Editor, edit: Edit)
    requires Ready(e, edit)
    ensures Step(e, edit).record.WellFormed()
    ensures e.record.mine ==> Step(e, edit).record.mine
    ensures !Step(e, edit).record.mine ==> Step(e, edit).record == e.record
    ensures Step(e, edit).record.mine ==> e.record.mine || e.canUndo
  {
    if edit.Undoing? {
      UndoOwns(e);
    }
  }

  lemma ActTracks(d: Desk, t: Option<Change>, act: Act)
    requires Tracks(d, t) && Possible(d, act)
    ensures Tracks(Done(d, act), Tracked(d, t, act))
  {
    if act.Does? {
      var e := EditorOf(d, act.i);
      StepOwns(e, act.edit);
      if act.i == d.owner && e.canUndo {
        EditStands(e, t, act.edit);
      } else if act.i != d.owner && Step(e, act.edit).record.mine {
        EditStands(e, None, act.edit);
      }
    }
  }

  /** Where an undo would lead after an act: to the owner's text before or behind the act, or to
      where it would have led. */
  lemma ActLeads(d: Desk, t: Option<Change>, act: Act)
    requires Tracks(d, t) && Possible(d, act) && Tracked(d, t, act).Some?
    ensures
      var f, base := Done(d, act), Tracked(d, t, act).value.Base();
      && 0 <= f.owner < |f.buffers| == |d.buffers|
      && (|| base == d.buffers[f.owner].text || base == f.buffers[f.owner].text
          || (f.owner == d.owner && t.Some? && base == t.value.Base()))
  {
    if act.Does? {
      var e := EditorOf(d, act.i);
      StepOwns(e, act.edit);
      if act.i == d.owner {
        EditStands(e, t, act.edit);
      } else if Step(e, act.edit).record.mine {
        EditStands(e, None, act.edit);
      }
    }
  }

  // ---------------------------------------------------------------- runs

  ghost predicate PossibleRun(d: Desk, acts: seq<Act>)
    decreases |acts|, 0
  {
    acts == [] ||
    var front := acts[..|acts| - 1];
    PossibleRun(d, front) && Possible(After(d, front), acts[|acts| - 1])
  }

  ghost function After(d: Desk, acts: seq<Act>): (f: Desk)
    requires PossibleRun(d, acts)
    ensures |f.buffers| == |d.buffers|
    decreases |acts|, 1
  {
    if acts == [] then d else Done(After(d, acts[..|acts| - 1]), acts[|acts| - 1])
  }

  /** The texts a buffer has had. */
  ghost function Texts(d: Desk, acts: seq<Act>, i: nat): (ts: seq<string>)
    requires PossibleRun(d, acts) && i < |d.buffers|
    ensures After(d, acts).buffers[i].text in ts
    decreases |acts|
  {
    (if acts == [] then [] else Texts(d, acts[..|acts| - 1], i)) + [After(d, acts).buffers[i].text]
  }

  ghost function Followed(d: Desk, acts: seq<Act>): (t: Option<Change>)
    requires PossibleRun(d, acts) && Tracks(d, None)
    ensures Tracks(After(d, acts), t)
    decreases |acts|
  {
    if acts == [] then None else
    var front, last := acts[..|acts| - 1], acts[|acts| - 1];
    ActTracks(After(d, front), Followed(d, front), last);
    Tracked(After(d, front), Followed(d, front), last)
  }

  /** The text undo leads to is one that the owner of the record has had. */
  lemma {:induction false} FollowedToPast(d: Desk, acts: seq<Act>)
    requires PossibleRun(d, acts) && Tracks(d, None) && Followed(d, acts).Some?
    ensures 0 <= After(d, acts).owner < |d.buffers|
    ensures Followed(d, acts).value.Base() in Texts(d, acts, After(d, acts).owner)
  {
    var front, last := acts[..|acts| - 1], acts[|acts| - 1];
    var before := After(d, front);
    ActLeads(before, Followed(d, front), last);
    if Followed(d, front).Some? {
      FollowedToPast(d, front);
    }
    var i := After(d, acts).owner;
    assert before.buffers[i].text in Texts(d, front, i);
    assert forall x <- Texts(d, front, i) :: x in Texts(d, acts, i);
  }

  /** Over every run of edits, undos, `text`, `copy` and switching undo off and on, in any number
      of buffers: to undo in a buffer that does not own the record does nothing, and as long as the
      change is followed, to undo in its owner leads back to a text that buffer has had. */
  lemma RunUndoes(d: Desk, acts: seq<Act>, i: nat)
    requires PossibleRun(d, acts) && Tracks(d, None) && i < |d.buffers|
    ensures
      var f := After(d, acts);
      var e := EditorOf(f, i);
      && (i != f.owner ==> Revertible(e) && Undo(e) == e)
      && (i == f.owner && Followed(d, acts).Some? ==>
            && Revertible(e)
            && Undo(e).text == Followed(d, acts).value.Base() && Undo(e).text in Texts(d, acts, i)
            && (e.canUndo ==> Revertible(Undo(e)) && Undo(Undo(e)).text == e.text))
  {
    var f, t := After(d, acts), Followed(d, acts);
    if i == f.owner && t.Some? {
      var e := EditorOf(f, i);
      FollowedToPast(d, acts);
      UndoBase(e, t.value);
      if e.canUndo {
        UndoRecords(e, t.value);
        UndoRecords(Undo(e), t.value.Flip());
      }
    }
  }

  /** When the change is followed. An edit that is noted in the record by its owner goes on with it;
      so does all that other buffers do without touching the record. */
  lemma FollowedOn(d: Desk, acts: seq<Act>, act: Act)
    requires PossibleRun(d, acts) && Tracks(d, None) && Possible(After(d, acts), act)
    ensures PossibleRun(d, acts + [act])
    ensures
      var f, g := After(d, acts), After(d, acts + [act]);
      && (act.i == f.owner && act.Does? && f.buffers[act.i].canUndo && Followed(d, acts).Some? ==>
            Followed(d, acts + [act]).Some?)
      && (act.i != f.owner && (act.Does? ==> g.owner == f.owner) ==> Followed(d, acts + [act]) == Followed(d, acts))
  {
    assert (acts + [act])[..|acts|] == acts;
    if act.Does? && act.i == After(d, acts).owner && After(d, acts).buffers[act.i].canUndo && Followed(d, acts).Some? {
      var e := EditorOf(After(d, acts), act.i);
      assert Records(e, Followed(d, acts).value);
    } else if act.Does? {
      StepOwns(EditorOf(After(d, acts), act.i), act.edit);
    }
  }

  /** A buffer that takes the record over has its change followed, from the text before, unless its
      insertion lands where the other buffer's last deletion was. */
  lemma FollowedAnew(d: Desk, acts: seq<Act>, i: nat, edit: Edit)
    requires PossibleRun(d, acts) && Tracks(d, None) && Possible(After(d, acts), Does(i, edit))
    requires i != After(d, acts).owner && After(d, acts).buffers[i].canUndo
    requires match edit
             case Insertion(pos, t) =>
               var r := After(d, acts).record;
               !(r.at == Clamp(pos, |After(d, acts).buffers[i].text|) && r.cut != 0 && t != "")
             case Deletion(start, end) =>
               var n := |After(d, acts).buffers[i].text|;
               Clamp(start, n) != Clamp(end, n)
             case _ => false
    ensures PossibleRun(d, acts + [Does(i, edit)])
    ensures After(d, acts + [Does(i, edit)]).owner == i && Followed(d, acts + [Does(i, edit)]).Some?
    ensures Followed(d, acts + [Does(i, edit)]).value.Base() == After(d, acts).buffers[i].text
  {
    var e := EditorOf(After(d, acts), i);
    assert (acts + [Does(i, edit)])[..|acts|] == acts;
    EditStands(e, None, edit);
  }

  // ---------------------------------------------------------------- undoing after text and copy

  /** `text` and `copy` put another text under the record. What undoing needs then, and exactly
      when it leaves that text alone. */
  lemma UndoInOtherText(e: Editor, c: Change, t: string)
    requires Records(e, c)
    ensures
      var f := e.(text := t);
      && (Revertible(f) <==> c.now == "" || c.was == "" || |c.before| <= |t|)
      && (Revertible(f) ==>
            var b, a := Clamp(|c.before|, |t|), Clamp(c.At(), |t|);
            && Undo(f).text == Splice(t, b, a, c.was)
            && (Undo(f).text == t <==> t[b..a] == c.was))
  {
    var f := e.(text := t);
    var r := f.record;
    var b, a := Clamp(|c.before|, |t|), Clamp(c.At(), |t|);
    assert Splice(t, b, a, t[b..a]) == t;
    assert Splice(t, b, a, c.was)[b..b + |c.was|] == c.was;
    if Revertible(f) {
      OtherTextUndone(e, c, t);
      if Splice(t, b, a, c.was) == t {
        assert |c.was| == a - b;
      }
    }
  }

  lemma OtherTextUndone(e: Editor, c: Change, t: string)
    requires Records(e, c) && Revertible(e.(text := t))
    ensures Undo(e.(text := t)).text == Splice(t, Clamp(|c.before|, |t|), Clamp(c.At(), |t|), c.was)
  {
    var b, a := Clamp(|c.before|, |t|), Clamp(c.At(), |t|);
    if c.now != "" && c.was != "" {
      assert Splice(Splice(t, b, a, ""), b, b, c.was) == Splice(t, b, a, c.was);
    } else if c.was == "" {
      assert b == a ==> Splice(t, b, a, "") == t;
    }
  }

  // ---------------------------------------------------------------- what is allocated

  /** The sizes a run puts a buffer through. */
  ghost function RunSizes(d: Desk, acts: seq<Act>, i: nat): seq<Resize>
    requires PossibleRun(d, acts)
    decreases |acts|
  {
    if acts == [] then [] else
    var front, last := acts[..|acts| - 1], acts[|acts| - 1];
    RunSizes(d, front, i) + if last.i == i then ActSizes(After(d, front), last) else []
  }

  lemma {:induction false} RoomOfRun(d: Desk, acts: seq<Act>, i: nat)
    requires PossibleRun(d, acts) && i < |d.buffers|
    ensures
      var b, c := d.buffers[i], After(d, acts).buffers[i];
      c.preferred == b.preferred && c.room == ResizedAll(b.room, RunSizes(d, acts, i), b.preferred)
  {
    if acts != [] {
      var front, last := acts[..|acts| - 1], acts[|acts| - 1];
      var b := d.buffers[i];
      RoomOfRun(d, front, i);
      var more := if last.i == i then ActSizes(After(d, front), last) else [];
      ResizedConcat(b.room, RunSizes(d, front, i), more, b.preferred);
    }
  }

  lemma UndoLength(e: Editor, s: Space, preferred: nat)
    requires Revertible(e) && s.length == |e.text| && s.gap >= 0
    ensures
      var f := ResizedAll(s, Sizes(e, Undoing), preferred);
      f.length == |Undo(e).text| && f.gap >= 0
  {
    var rs := Sizes(e, Undoing);
    if |rs| == 1 {
      ResizedOne(s, rs[0], preferred);
    } else if |rs| == 2 {
      ResizedTwo(s, rs[0], rs[1], preferred);
    }
  }

  lemma EditLength(e: Editor, edit: Edit, s: Space, preferred: nat)
    requires Ready(e, edit) && s.length == |e.text| && s.gap >= 0
    ensures
      var f := ResizedAll(s, Sizes(e, edit), preferred);
      f.length == |Step(e, edit).text| && f.gap >= 0
  {
    var rs := Sizes(e, edit);
    if edit.Undoing? {
      UndoLength(e, s, preferred);
    } else if |rs| == 1 {
      ResizedOne(s, rs[0], preferred);
    } else if |rs| == 2 {
      ResizedTwo(s, rs[0], rs[1], preferred);
    }
  }

  lemma {:induction false} LengthOfRun(d: Desk, acts: seq<Act>, i: nat)
    requires PossibleRun(d, acts) && i < |d.buffers|
    requires d.buffers[i].room.length == |d.buffers[i].text| && d.buffers[i].room.gap >= 0
    ensures
      var c := After(d, acts).buffers[i];
      c.room.length == |c.text| && c.room.gap >= 0
  {
    if acts != [] {
      var front, last := acts[..|acts| - 1], acts[|acts| - 1];
      LengthOfRun(d, front, i);
      var f := After(d, front);
      if last.i == i {
        var rs := ActSizes(f, last);
        if last.Does? {
          EditLength(EditorOf(f, i), last.edit, f.buffers[i].room, f.buffers[i].preferred);
        } else if |rs| == 1 {
          ResizedOne(f.buffers[i].room, rs[0], f.buffers[i].preferred);
        }
      }
    }
  }

  /** Over every run from the constructor: a buffer's allocated size is gap plus length exactly
      when no extra size was requested for it, or some step of the run made it reallocate. */
  lemma AllocatedInRuns(d: Desk, acts: seq<Act>, i: nat, requested: nat)
    requires PossibleRun(d, acts) && i < |d.buffers|
    requires d.buffers[i].text == "" && d.buffers[i].room == Fresh(requested, d.buffers[i].preferred)
    ensures
      var b, c := d.buffers[i], After(d, acts).buffers[i];
      && c.room.length == |c.text| && c.room.gap >= 0
      && (c.room.size == c.room.gap + |c.text|
          <==> requested == 0 || EverReallocates(b.room, RunSizes(d, acts, i), b.preferred))
  {
    RoomOfRun(d, acts, i);
    LengthOfRun(d, acts, i);
    AllocatedExactly(requested, d.buffers[i].preferred, RunSizes(d, acts, i));
  }

  // ---------------------------------------------------------------- inputs that fail

  lemma Snoc(d: Desk, acts: seq<Act>, act: Act, i: nat)
    requires PossibleRun(d, acts) && Possible(After(d, acts), act) && i < |d.buffers|
    ensures PossibleRun(d, acts + [act]) && After(d, acts + [act]) == Done(After(d, acts), act)
    ensures Texts(d, acts + [act], i) == Texts(d, acts, i) + [Done(After(d, acts), act).buffers[i].text]
  {
    assert (acts + [act])[..|acts|] == acts;
  }

  lemma EditStep(d: Desk, acts: seq<Act>, i: nat, edit: Edit)
    requires PossibleRun(d, acts) && Possible(After(d, acts), Does(i, edit))
    ensures PossibleRun(d, acts + [Does(i, edit)])
    ensures EditorOf(After(d, acts + [Does(i, edit)]), i) == Step(EditorOf(After(d, acts), i), edit)
  {
    Snoc(d, acts, Does(i, edit), i);
    StepOwns(EditorOf(After(d, acts), i), edit);
  }

  lemma NotYet(d: Desk, acts: seq<Act>, act: Act, i: nat, s: string)
    requires PossibleRun(d, acts) && Possible(After(d, acts), act) && i < |d.buffers|
    requires s !in Texts(d, acts, i) && s != Done(After(d, acts), act).buffers[i].text
    ensures PossibleRun(d, acts + [act]) && After(d, acts + [act]) == Done(After(d, acts), act)
    ensures s !in Texts(d, acts + [act], i)
  {
    Snoc(d, acts, act, i);
  }

  const EMPTY := Buffer("", true, Fresh(0, 1024), 1024)

  const NOTHING := Record(false, 0, 0, 0, 0, "")

  /** Undoing leaves buffer `i` with a text it never had. */
  ghost predicate Invents(d: Desk, acts: seq<Act>, i: nat) {
    && i < |d.buffers| && Tracks(d, None) && PossibleRun(d, acts)
    && Revertible(EditorOf(After(d, acts), i))
    && Undo(EditorOf(After(d, acts), i)).text !in Texts(d, acts, i)
  }

  /** Two empty buffers, of which the first inserts and deletes "x". */
  lemma ForeignDeletion() returns (d: Desk, acts: seq<Act>)
    ensures |d.buffers| == 2 && Tracks(d, None) && PossibleRun(d, acts)
    ensures EditorOf(After(d, acts), 1) == Editor("", true, Record(false, 0, 1, 0, 0, "x"))
    ensures "x" !in Texts(d, acts, 1)
  {
    d := Desk([EMPTY, EMPTY], -1, NOTHING);
    acts := [];
    Snoc(d, acts, Does(0, Insertion(0, "x")), 1);
    acts := acts + [Does(0, Insertion(0, "x"))];
    assert EditorOf(After(d, acts), 0) == Editor("x", true, Record(true, 1, 0, 1, 0, ""));
    Snoc(d, acts, Does(0, Deletion(0, 1)), 1);
    acts := acts + [Does(0, Deletion(0, 1))];
  }

  lemma ForeignUndone(e: Editor)
    requires e == Editor("", true, Record(false, 0, 1, 0, 0, "x"))
    ensures Revertible(Inserted(e, 0, "a")) && Undo(Inserted(e, 0, "a")).text == "x" != Inserted(e, 0, "a").text
  {
    assert Inserted(e, 0, "a").text[0] == 'a';
    FirstInsertionUndone(e, 0, "a");
    assert Splice("", 0, 0, "x"[..1]) == "x";
  }

  /** The second then inserts "a". Undoing gives it the text "x". */
  lemma ForeignTextPutBack() returns (d: Desk, acts: seq<Act>)
    ensures Invents(d, acts, 1) && Undo(EditorOf(After(d, acts), 1)).text == "x"
  {
    d, acts := ForeignDeletion();
    var e := EditorOf(After(d, acts), 1);
    ForeignUndone(e);
    NotYet(d, acts, Does(1, Insertion(0, "a")), 1, "x");
    acts := acts + [Does(1, Insertion(0, "a"))];
    assert EditorOf(After(d, acts), 1) == Inserted(e, 0, "a");
  }

  lemma UndoneInYZ(e: Editor)
    requires e == Editor("x", true, Record(true, 1, 0, 1, 0, ""))
    ensures Revertible(e.(text := "yz")) && Undo(e.(text := "yz")).text == "z"
  {
    UndoInOtherText(e, Change("", "x", "", ""), "yz");
    assert Splice("yz", 0, 1, "") == "z";
  }

  /** Typing "x" and setting the text to "yz": undoing gives "z". */
  lemma SetTextCut() returns (d: Desk, acts: seq<Act>)
    ensures Invents(d, acts, 0) && Undo(EditorOf(After(d, acts), 0)).text == "z"
  {
    d := Desk([EMPTY], -1, NOTHING);
    acts := [];
    Snoc(d, acts, Does(0, Insertion(0, "x")), 0);
    acts := acts + [Does(0, Insertion(0, "x"))];
    var e := EditorOf(After(d, acts), 0);
    assert e == Editor("x", true, Record(true, 1, 0, 1, 0, ""));
    UndoneInYZ(e);
    Snoc(d, acts, Sets(0, "yz"), 0);
    acts := acts + [Sets(0, "yz")];
    assert EditorOf(After(d, acts), 0) == e.(text := "yz");
  }

  lemma OverDeleted(e: Editor)
    requires e == Editor("abc", true, Record(true, 3, 0, 3, 0, ""))
    ensures Remove(e, 1, 3) == Editor("a", true, Record(true, 1, 2, 0, 0, "bc"))
    ensures Insert(Remove(e, 1, 3), 1, "x") == Editor("ax", true, Record(true, 2, 0, 1, 2, "bc"))
  {
  }

  lemma NoRoomForUndo(e: Editor)
    requires e == Editor("ax", true, Record(true, 2, 0, 1, 2, "bc"))
    ensures !Revertible(e.(text := ""))
  {
    UndoInOtherText(e, Change("a", "x", "bc", ""), "");
  }

  /** Typing "abc", deleting "bc", typing "x" and setting the text to "": undoing would replace a
      character that is not there. */
  lemma SetTextUndefined() returns (d: Desk, acts: seq<Act>)
    ensures |d.buffers| == 1 && Tracks(d, None) && PossibleRun(d, acts)
    ensures After(d, acts).owner == 0 && !Possible(After(d, acts), Does(0, Undoing))
  {
    d := Desk([EMPTY], -1, NOTHING);
    acts := [];
    EditStep(d, acts, 0, Insertion(0, "abc"));
    acts := acts + [Does(0, Insertion(0, "abc"))];
    var e := EditorOf(After(d, acts), 0);
    assert e == Editor("abc", true, Record(true, 3, 0, 3, 0, ""));
    OverDeleted(e);
    EditStep(d, acts, 0, Deletion(1, 3));
    acts := acts + [Does(0, Deletion(1, 3))];
    EditStep(d, acts, 0, Insertion(1, "x"));
    acts := acts + [Does(0, Insertion(1, "x"))];
    e := EditorOf(After(d, acts), 0);
    NoRoomForUndo(e);
    Snoc(d, acts, Sets(0, ""), 0);
    acts := acts + [Sets(0, "")];
    assert EditorOf(After(d, acts), 0) == e.(text := "");
  }
}
