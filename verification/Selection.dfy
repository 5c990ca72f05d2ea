/** A selected stretch of the text, moved along as the text changes. */
module Selection {

  datatype Span = Span(selected: bool, start: int, end: int) {
    predicate Covers(i: int) {
      selected && start <= i < end
    }
  }

  /** The new stretch after `nDeleted` characters at `pos` give way to `nInserted` others. */
  function Moved(s: Span, pos: int, nDeleted: int, nInserted: int): Span {
    if !s.selected || pos > s.end then s
    else if pos + nDeleted <= s.start then Span(true, s.start + nInserted - nDeleted, s.end + nInserted - nDeleted)
    else if pos <= s.start && pos + nDeleted >= s.end then Span(false, pos, pos)
    else if pos <= s.start then Span(true, pos, nInserted + s.end - nDeleted)
    else if pos < s.end then
      var end := s.end + nInserted - nDeleted;
      Span(s.start < end, s.start, end)
    else s
  }

  /** An insertion keeps every selected character selected and no other, and selects the new ones
      when they land strictly inside. */
  lemma InsertionTracked(s: Span, pos: int, n: nat)
    requires s.start <= s.end
    ensures forall i :: i < pos ==> (Moved(s, pos, 0, n).Covers(i) <==> s.Covers(i))
    ensures forall i :: i >= pos ==> (Moved(s, pos, 0, n).Covers(i + n) <==> s.Covers(i))
    ensures forall i :: pos <= i < pos + n ==>
      (Moved(s, pos, 0, n).Covers(i) <==> s.selected && s.start < pos < s.end)
  {
  }

  /** What a deletion should leave selected: the selected characters that survive, and no other. */
  ghost predicate DeletionTracked(s: Span, pos: int, n: nat) {
    && (forall i {:trigger s.Covers(i)} :: i < pos ==> (Moved(s, pos, n, 0).Covers(i) <==> s.Covers(i)))
    && (forall i {:trigger s.Covers(i)} :: i >= pos + n ==> (Moved(s, pos, n, 0).Covers(i - n) <==> s.Covers(i)))
  }

  /** It does so unless the deleted stretch begins inside the selection and runs on past its end. */
  lemma DeletionTrackedExactly(s: Span, pos: int, n: nat)
    requires s.start <= s.end
    ensures DeletionTracked(s, pos, n) <==> !(s.selected && s.start < pos < s.end < pos + n)
  {
    if s.selected && s.start < pos < s.end < pos + n {
      assert s.Covers(pos - 1) && !Moved(s, pos, n, 0).Covers(pos - 1);
    }
  }

  /** What that says of every character. */
  lemma DeletionKeeps(s: Span, pos: int, n: nat, i: int)
    requires s.start <= s.end && !(s.selected && s.start < pos < s.end < pos + n)
    ensures
      var m := Moved(s, pos, n, 0);
      && (i < pos ==> (m.selected && m.start <= i < m.end <==> s.selected && s.start <= i < s.end))
      && (i >= pos + n ==> (m.selected && m.start <= i - n < m.end <==> s.selected && s.start <= i < s.end))
  {
  }

  /** An input that fails: 2..5 is selected and 3..7 is deleted. The character at 2, which survives,
      is no longer selected. */
  lemma DeletionLosesCharacter()
    ensures !DeletionTracked(Span(true, 2, 5), 3, 4)
    ensures Span(true, 2, 5).Covers(2) && !Moved(Span(true, 2, 5), 3, 4, 0).selected
  {
    DeletionTrackedExactly(Span(true, 2, 5), 3, 4);
  }

  /** The selection, if any, is not empty and lies within `n` characters. */
  predicate Within(s: Span, n: int) {
    s.selected ==> 0 <= s.start < s.end <= n
  }

  /** A selection within the text stays within it. */
  lemma WithinStays(s: Span, n: nat, pos: nat, nDeleted: nat, nInserted: nat)
    requires Within(s, n) && pos + nDeleted <= n
    ensures Within(Moved(s, pos, nDeleted, nInserted), n - nDeleted + nInserted)
  {
  }

  /** Setting the whole text is meant to clear the selections. It clears those that lie within the
      `n` characters there were. */
  lemma ClearedExactly(s: Span, n: nat)
    requires 0 <= s.start <= s.end
    ensures !Moved(s, 0, n, 0).selected <==> !s.selected || (s.start < n && s.end <= n)
    ensures Within(s, n) ==> !Moved(s, 0, n, 0).selected
  {
  }

  /** Inputs that fail: five characters selected in an empty text, and a selection that begins inside
      a text of four characters and ends behind it. */
  lemma NotCleared()
    ensures Moved(Span(true, 0, 5), 0, 0, 0).selected
    ensures Moved(Span(true, 2, 9), 0, 4, 0) == Span(true, 0, 5)
  {
  }

  class Fl_Text_Selection {
    var mSelected: bool
    var mStart: int
    var mEnd: int

    function Value(): Span
      reads this
    {
      Span(mSelected, mStart, mEnd)
    }

    constructor ()
      ensures Value() == Span(false, 0, 0)
    {
      mSelected, mStart, mEnd := false, 0, 0;
    }

    /** Nothing asks that the positions lie in the text. */
    method Set(startpos: int, endpos: int)
      modifies this
      ensures Value() == if startpos <= endpos then Span(startpos != endpos, startpos, endpos)
                         else Span(true, endpos, startpos)
    {
      mSelected := startpos != endpos;
      mStart := if startpos <= endpos then startpos else endpos;
      mEnd := if startpos <= endpos then endpos else startpos;
    }

    method Update(pos: int, nDeleted: int, nInserted: int)
      modifies this
      ensures Value() == Moved(old(Value()), pos, nDeleted, nInserted)
    {
      if !mSelected || pos > mEnd {
        return;
      }
      if pos + nDeleted <= mStart {
        mStart := mStart + (nInserted - nDeleted);
        mEnd := mEnd + (nInserted - nDeleted);
      } else if pos <= mStart && pos + nDeleted >= mEnd {
        mStart := pos;
        mEnd := pos;
        mSelected := false;
      } else if pos <= mStart && pos + nDeleted < mEnd {
        mStart := pos;
        mEnd := nInserted + mEnd - nDeleted;
      } else if pos < mEnd {
        mEnd := mEnd + (nInserted - nDeleted);
        if mEnd <= mStart {
          mSelected := false;
        }
      }
    }
  }
}
