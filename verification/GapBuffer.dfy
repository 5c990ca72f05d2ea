/** The text buffer: characters on both sides of a movable gap. A C string argument is the
    sequence of its characters, without the NUL that ends it; texts hold no NUL. */
module GapBuffer {
  import opened Allocation
  import opened Editing
  import opened TextLines
  import opened Selection

  function MovedAll(s: seq<Span>, pos: int, nDeleted: int, nInserted: int): (r: seq<Span>)
    requires |s| == 3
    ensures |r| == 3 && forall i | 0 <= i < 3 :: r[i] == Moved(s[i], pos, nDeleted, nInserted)
  {
    [Moved(s[0], pos, nDeleted, nInserted), Moved(s[1], pos, nDeleted, nInserted),
     Moved(s[2], pos, nDeleted, nInserted)]
  }

  function ReplacedAll(s: seq<Span>, start: int, end: int, nInserted: int): seq<Span>
    requires |s| == 3
  {
    MovedAll(MovedAll(s, start, end - start, 0), start, 0, nInserted)
  }

  /** The undo variables all buffers share. Of the saved characters only the valid ones are kept. */
  class UndoRecord {
    var widget: Fl_Text_Buffer?
    var at: int
    var cut: int
    var ins: int
    var yankCut: int
    var saved: string

    constructor ()
      ensures widget == null && at == cut == ins == yankCut == 0 && saved == ""
    {
      widget, at, cut, ins, yankCut, saved := null, 0, 0, 0, 0, "";
    }
  }

  class Fl_Text_Buffer {
    var mBuf: array<char>
    var mLength: int
    var mGapStart: int
    var mGapEnd: int
    const mPreferredGapSize: nat
    var mCanUndo: bool
    var mCursorPosHint: int
    const mPrimary: Fl_Text_Selection
    const mSecondary: Fl_Text_Selection
    const mHighlight: Fl_Text_Selection
    const undo: UndoRecord
    /** The text the buffer stands for. */
    ghost var text: string

    ghost predicate Valid()
      reads `mBuf, `mLength, `mGapStart, `mGapEnd, `text, mBuf
    {
      && 0 <= mGapStart <= mGapEnd
      && mGapStart <= mLength == |text|
      && mBuf.Length >= mGapEnd - mGapStart + mLength
      && (forall i | 0 <= i < mGapStart :: mBuf[i] == text[i])
      && (forall j | mGapEnd <= j < mGapEnd + (mLength - mGapStart) :: mBuf[j] == text[j - (mGapEnd - mGapStart)])
    }

    /** The text is what lies on both sides of the gap. */
    lemma TextAroundGap()
      requires Valid()
      ensures text == mBuf[..mGapStart] + mBuf[mGapEnd..mGapEnd + (mLength - mGapStart)]
    {
      var behind := mBuf[mGapEnd..mGapEnd + (mLength - mGapStart)];
      assert forall j | 0 <= j < |behind| :: behind[j] == mBuf[mGapEnd + j] == text[mGapStart + j];
    }

    function Room(): Space
      reads `mBuf, `mLength, `mGapStart, `mGapEnd
    {
      Space(mLength, mGapEnd - mGapStart, mBuf.Length)
    }

    ghost function UndoState(): Record
      reads undo
    {
      Record(undo.widget == this, undo.at, undo.cut, undo.ins, undo.yankCut, undo.saved)
    }

    ghost function State(): Editor
      reads `text, `mCanUndo, undo
    {
      Editor(text, mCanUndo, UndoState())
    }

    /** The three selections are separate objects. */
    ghost predicate Distinct() {
      mPrimary != mSecondary && mPrimary != mHighlight && mSecondary != mHighlight
    }

    ghost function Spans(): (s: seq<Span>)
      reads mPrimary, mSecondary, mHighlight
      ensures |s| == 3
    {
      [mPrimary.Value(), mSecondary.Value(), mHighlight.Value()]
    }

    /** `requestedSize` characters are allocated beyond the gap. */
    constructor (requestedSize: nat, preferredGapSize: nat, undo: UndoRecord)
      ensures Valid() && text == "" && fresh(mBuf)
      ensures fresh(mPrimary) && fresh(mSecondary) && fresh(mHighlight) && Distinct()
      ensures Room() == Fresh(requestedSize, preferredGapSize) && mPreferredGapSize == preferredGapSize
      ensures this.undo == undo && mCanUndo
      ensures Spans() == [Span(false, 0, 0), Span(false, 0, 0), Span(false, 0, 0)]
    {
      mLength := 0;
      mPreferredGapSize := preferredGapSize;
      mBuf := new char[requestedSize + preferredGapSize];
      mGapStart := 0;
      mGapEnd := preferredGapSize;
      mPrimary := new Fl_Text_Selection();
      mSecondary := new Fl_Text_Selection();
      mHighlight := new Fl_Text_Selection();
      mCursorPosHint := 0;
      mCanUndo := true;
      this.undo := undo;
      text := "";
    }

    // ---------------------------------------------------------------- reading

    /** Where the character at a position is stored: outside the gap, and no two in one place. */
    function Address(pos: int): (i: int)
      requires Valid() && 0 <= pos < mLength
      reads this, mBuf
      ensures 0 <= i < mBuf.Length && !(mGapStart <= i < mGapEnd)
      ensures mBuf[i] == text[pos]
      ensures pos == if i < mGapStart then i else i - (mGapEnd - mGapStart)
    {
      if pos < mGapStart then pos else pos + mGapEnd - mGapStart
    }

    method CopyText() returns (t: array<char>)
      requires Valid()
      ensures fresh(t) && t[..] == text + ['\0']
    {
      t := new char[mLength + 1];
      forall i | 0 <= i < mGapStart {
        t[i] := mBuf[i];
      }
      forall i | mGapStart <= i < mLength {
        t[i] := mBuf[mGapEnd + (i - mGapStart)];
      }
      t[mLength] := '\0';
    }

    /** A bad start gives the empty string, a bad end is adjusted. */
    method TextRange(start: int, end: int) returns (s: array<char>)
      requires Valid() && (0 <= start <= mLength ==> end >= 0)
      ensures fresh(s)
      ensures s[..] ==
              if start < 0 || start > mLength then ['\0']
              else text[Min(start, end)..Min(Max(start, end), mLength)] + ['\0']
    {
      if start < 0 || start > mLength {
        s := new char[1];
        s[0] := '\0';
        return;
      }
      var from, to := start, end;
      if to < from {
        from, to := to, from;
      }
      if to > mLength {
        to := mLength;
      }
      var copiedLength := to - from;
      s := new char[copiedLength + 1];
      CopyOut(from, to, s, 0);
      assert s[..copiedLength] == text[from..to];
      s[copiedLength] := '\0';
    }

    /** `memcpy` */
    static method CopyChars(dst: array<char>, at: int, src: array<char>, from: int, n: int)
      requires n >= 0 && 0 <= at <= at + n <= dst.Length && 0 <= from <= from + n <= src.Length
      requires src == dst ==> at + n <= from || from + n <= at
      modifies dst
      ensures forall i | at <= i < at + n :: dst[i] == old(src[i - at + from])
      ensures forall i | 0 <= i < at || at + n <= i < dst.Length :: dst[i] == old(dst[i])
    {
      forall i | at <= i < at + n {
        dst[i] := src[i - at + from];
      }
    }

    /** Copy a range of the text around the gap, in two parts. */
    method CopyAround(from: int, to: int, s: array<char>, at: int)
      requires Valid() && 0 <= from < mGapStart < to <= mLength
      requires 0 <= at && at + (to - from) <= s.Length
      requires s == mBuf ==> mGapStart <= at && at + (to - from) <= mGapEnd
      modifies s
      ensures forall i | at <= i < at + (to - from) :: s[i] == text[i - at + from]
      ensures forall i | 0 <= i < at || at + (to - from) <= i < s.Length :: s[i] == old(s[i])
    {
      var part1Length := mGapStart - from;
      CopyChars(s, at, mBuf, from, part1Length);
      CopyChars(s, at + part1Length, mBuf, mGapEnd, to - from - part1Length);
    }

    /** Copy a range of the text, from before the gap, from behind it, or in two parts, to another
        array or into the gap. */
    method CopyOut(from: int, to: int, s: array<char>, at: int)
      requires Valid() && 0 <= from <= to <= mLength
      requires 0 <= at && at + (to - from) <= s.Length
      requires s == mBuf ==> mGapStart <= at && at + (to - from) <= mGapEnd
      modifies s
      ensures forall i | at <= i < at + (to - from) :: s[i] == text[i - at + from]
      ensures forall i | 0 <= i < at || at + (to - from) <= i < s.Length :: s[i] == old(s[i])
    {
      var gap := mGapEnd - mGapStart;
      if to <= mGapStart {
        CopyChars(s, at, mBuf, from, to - from);
      } else if from >= mGapStart {
        CopyChars(s, at, mBuf, from + gap, to - from);
      } else {
        CopyAround(from, to, s, at);
      }
    }

    // ---------------------------------------------------------------- moving the gap

    method MoveGap(pos: int)
      requires Valid() && 0 <= pos <= mLength
      modifies `mGapStart, `mGapEnd, mBuf
      ensures Valid()
      ensures mGapStart == pos && mGapEnd - mGapStart == old(mGapEnd - mGapStart)
    {
      if pos > mGapStart {
        MoveGapUp(pos);
      } else {
        MoveGapDown(pos);
      }
    }

    method MoveGapUp(pos: int)
      requires Valid() && mGapStart < pos <= mLength
      modifies `mGapStart, `mGapEnd, mBuf
      ensures Valid()
      ensures mGapStart == pos && mGapEnd - mGapStart == old(mGapEnd - mGapStart)
    {
      var gapLen := mGapEnd - mGapStart;
      forall i | mGapStart <= i < pos {
        mBuf[i] := mBuf[i + gapLen];
      }
      mGapEnd := mGapEnd + (pos - mGapStart);
      mGapStart := mGapStart + (pos - mGapStart);
    }

    method MoveGapDown(pos: int)
      requires Valid() && 0 <= pos <= mGapStart
      modifies `mGapStart, `mGapEnd, mBuf
      ensures Valid()
      ensures mGapStart == pos && mGapEnd - mGapStart == old(mGapEnd - mGapStart)
    {
      var gapLen := mGapEnd - mGapStart;
      forall i | pos <= i < mGapStart {
        mBuf[i + gapLen] := mBuf[i];
      }
      mGapEnd := mGapEnd + (pos - mGapStart);
      mGapStart := mGapStart + (pos - mGapStart);
    }

    /** Copy the text around a new gap that begins at or before the old one. */
    method SpreadBefore(newBuf: array<char>, newGapStart: int, newGapLen: int)
      requires Valid() && 0 <= newGapStart <= mGapStart && newGapLen >= 0
      requires newBuf != mBuf && newBuf.Length == mLength + newGapLen
      modifies newBuf
      ensures forall i | 0 <= i < newGapStart :: newBuf[i] == text[i]
      ensures forall j | newGapStart + newGapLen <= j < newGapLen + mLength :: newBuf[j] == text[j - newGapLen]
    {
      var newGapEnd := newGapStart + newGapLen;
      forall i | 0 <= i < newGapStart {
        newBuf[i] := mBuf[i];
      }
      forall i | newGapEnd <= i < newGapLen + mGapStart {
        newBuf[i] := mBuf[i - newGapLen];
      }
      forall i | newGapLen + mGapStart <= i < newGapLen + mLength {
        newBuf[i] := mBuf[i - newGapLen + (mGapEnd - mGapStart)];
      }
    }

    /** Copy the text around a new gap that begins behind the start of the old one. */
    method SpreadBehind(newBuf: array<char>, newGapStart: int, newGapLen: int)
      requires Valid() && mGapStart < newGapStart <= mLength && newGapLen >= 0
      requires newBuf != mBuf && newBuf.Length == mLength + newGapLen
      modifies newBuf
      ensures forall i | 0 <= i < newGapStart :: newBuf[i] == text[i]
      ensures forall j | newGapStart + newGapLen <= j < newGapLen + mLength :: newBuf[j] == text[j - newGapLen]
    {
      var newGapEnd := newGapStart + newGapLen;
      forall i | 0 <= i < mGapStart {
        newBuf[i] := mBuf[i];
      }
      forall i | mGapStart <= i < newGapStart {
        newBuf[i] := mBuf[i + (mGapEnd - mGapStart)];
      }
      forall i | newGapEnd <= i < newGapLen + mLength {
        newBuf[i] := mBuf[i - newGapLen + (mGapEnd - mGapStart)];
      }
    }

    method ReallocateWithGap(newGapStart: int, newGapLen: int)
      requires Valid() && 0 <= newGapStart <= mLength && newGapLen >= 0
      modifies `mBuf, `mGapStart, `mGapEnd
      ensures Valid() && fresh(mBuf)
      ensures mGapStart == newGapStart && mGapEnd == newGapStart + newGapLen && mBuf.Length == mLength + newGapLen
    {
      var newBuf := new char[mLength + newGapLen];
      if newGapStart <= mGapStart {
        SpreadBefore(newBuf, newGapStart, newGapLen);
      } else {
        SpreadBehind(newBuf, newGapStart, newGapLen);
      }
      mBuf := newBuf;
      mGapStart := newGapStart;
      mGapEnd := newGapStart + newGapLen;
    }

    /** Bring the gap to a position and make it at least `room` wide. */
    method OpenGap(pos: int, room: int)
      requires Valid() && 0 <= pos <= mLength && room >= 0
      modifies `mBuf, `mGapStart, `mGapEnd, mBuf
      ensures Valid() && mGapStart == pos && mGapEnd - mGapStart >= room
      ensures
        if room > old(mGapEnd - mGapStart) then
          && fresh(mBuf) && mBuf.Length == mLength + (room + mPreferredGapSize)
          && mGapEnd - mGapStart == room + mPreferredGapSize
        else
          mBuf == old(mBuf) && mGapEnd - mGapStart == old(mGapEnd - mGapStart)
    {
      if room > mGapEnd - mGapStart {
        ReallocateWithGap(pos, room + mPreferredGapSize);
      } else if pos != mGapStart {
        MoveGap(pos);
      }
    }

    /** Write characters into the gap and make them part of the text. */
    method TakeString(t: string)
      requires Valid() && |t| <= mGapEnd - mGapStart
      modifies `mGapStart, `mLength, `text, mBuf
      ensures Valid() && text == Splice(old(text), old(mGapStart), old(mGapStart), t)
      ensures mLength == old(mLength) + |t| && mGapEnd - mGapStart == old(mGapEnd - mGapStart) - |t|
    {
      forall i | mGapStart <= i < mGapStart + |t| {
        mBuf[i] := t[i - mGapStart];
      }
      assert mBuf[mGapStart..mGapStart + |t|] == t;
      TakeIn(|t|);
    }

    /** Make `n` characters at the start of the gap part of the text. */
    method TakeIn(n: int)
      requires Valid() && 0 <= n <= mGapEnd - mGapStart
      modifies `mGapStart, `mLength, `text
      ensures Valid() && mGapStart == old(mGapStart) + n && mLength == old(mLength) + n
      ensures text == Splice(old(text), old(mGapStart), old(mGapStart), mBuf[old(mGapStart)..mGapStart])
    {
      text := Splice(text, mGapStart, mGapStart, mBuf[mGapStart..mGapStart + n]);
      mGapStart := mGapStart + n;
      mLength := mLength + n;
    }

    /** Make a stretch of text that touches the gap part of it. */
    method LetGo(start: int, end: int)
      requires Valid() && 0 <= start <= mGapStart <= end <= mLength
      modifies `mGapStart, `mGapEnd, `mLength, `text
      ensures Valid() && mGapStart == start && mLength == old(mLength) - (end - start)
      ensures mGapEnd - mGapStart == old(mGapEnd - mGapStart) + (end - start)
      ensures text == Splice(old(text), start, end, "")
    {
      text := Splice(text, start, end, "");
      mGapEnd := mGapEnd + (end - mGapStart);
      mGapStart := mGapStart - (mGapStart - start);
      mLength := mLength - (end - start);
    }

    method UpdateSelections(pos: int, nDeleted: int, nInserted: int)
      requires Distinct()
      modifies mPrimary, mSecondary, mHighlight
      ensures Spans() == MovedAll(old(Spans()), pos, nDeleted, nInserted)
    {
      mPrimary.Update(pos, nDeleted, nInserted);
      mSecondary.Update(pos, nDeleted, nInserted);
      mHighlight.Update(pos, nDeleted, nInserted);
    }

    // ---------------------------------------------------------------- editing

    method RecordInsertion(pos: int, n: int)
      requires n >= 0
      modifies undo
      ensures UndoState() == InsertRecord(old(UndoState()), pos, n)
    {
      if undo.widget == this && undo.at == pos && undo.ins != 0 {
        undo.ins := undo.ins + n;
      } else {
        undo.ins := n;
        undo.yankCut := if undo.at == pos then undo.cut else 0;
      }
      undo.at := pos + n;
      undo.cut := 0;
      undo.widget := this;
    }

    /** `insert_` */
    method InsertInternal(pos: int, t: string) returns (n: int)
      requires Valid() && Distinct() && 0 <= pos <= mLength
      modifies `mBuf, `mGapStart, `mGapEnd, `mLength, `text, mBuf, undo, mPrimary, mSecondary, mHighlight
      ensures Valid() && (mBuf == old(mBuf) || fresh(mBuf)) && n == |t|
      ensures undo.widget == this || undo.widget == old(undo.widget)
      ensures State() == Inserted(old(State()), pos, t)
      ensures Spans() == MovedAll(old(Spans()), pos, 0, |t|)
      ensures Room() == Resized(old(Room()), Put(|t|), mPreferredGapSize)
    {
      n := |t|;
      OpenGap(pos, n);
      TakeString(t);
      UpdateSelections(pos, 0, n);
      if mCanUndo {
        RecordInsertion(pos, n);
      }
    }

    /** Note a deletion, with room for the `gone` characters in front of the saved ones. */
    method RecordRemoval(start: int, end: int, ghost gone: string)
      requires 0 <= start <= end && |gone| == end - start && UndoState().WellFormed()
      modifies undo
      ensures end - start <= |undo.saved|
      ensures UndoState().(saved := gone + undo.saved[end - start..])
           == RemoveRecord(old(UndoState()), start, end, gone)
    {
      var n := end - start;
      if undo.widget == this && undo.at == end && undo.cut != 0 {
        undo.saved := seq(n, i => '\0') + undo.saved[..undo.cut];
        undo.cut := undo.cut + n;
        assert undo.saved[n..] == old(undo.saved[..undo.cut]);
      } else {
        undo.cut := n;
        undo.saved := seq(n, i => '\0');
        assert gone + undo.saved[n..] == gone;
      }
      undo.at := start;
      undo.ins := 0;
      undo.yankCut := 0;
      undo.widget := this;
    }

    lemma SliceBefore(start: int, end: int)
      requires Valid() && 0 <= start <= end <= mGapStart
      ensures text[start..end] == mBuf[start..end]
    {
      var part := mBuf[start..end];
      assert forall k | 0 <= k < end - start :: part[k] == mBuf[start + k] == text[start + k];
    }

    lemma SliceBehind(start: int, end: int)
      requires Valid() && mGapStart <= start <= end <= mLength
      ensures text[start..end] == mBuf[mGapEnd - mGapStart + start..mGapEnd - mGapStart + end]
    {
      var gap := mGapEnd - mGapStart;
      var part := mBuf[gap + start..gap + end];
      assert forall k | 0 <= k < end - start :: part[k] == mBuf[gap + start + k] == text[start + k];
    }

    /** A range of the text around the gap. */
    lemma SliceAround(start: int, end: int)
      requires Valid() && 0 <= start <= mGapStart <= end <= mLength
      ensures text[start..end] == mBuf[start..mGapStart] + mBuf[mGapEnd..mGapEnd - mGapStart + end]
    {
      SliceBefore(start, mGapStart);
      SliceBehind(mGapStart, end);
      assert text[start..end] == text[start..mGapStart] + text[mGapStart..end];
    }

    method DeletedAround(start: int, end: int) returns (gone: string)
      requires Valid() && 0 <= start <= mGapStart <= end <= mLength
      ensures gone == text[start..end]
    {
      var prelen := mGapStart - start;
      var before, behind := mBuf[start..start + prelen], mBuf[mGapEnd..mGapEnd + (end - start - prelen)];
      gone := before + behind;
      assert start + prelen == mGapStart && mGapEnd + (end - start - prelen) == mGapEnd - mGapStart + end;
      SliceAround(start, end);
    }

    /** The characters of a range, read from one side of the gap or from both. */
    method Deleted(start: int, end: int) returns (gone: string)
      requires Valid() && 0 <= start <= end <= mLength
      ensures gone == text[start..end]
    {
      if start > mGapStart {
        SliceBehind(start, end);
        gone := mBuf[mGapEnd - mGapStart + start..mGapEnd - mGapStart + end];
      } else if end < mGapStart {
        SliceBefore(start, end);
        gone := mBuf[start..end];
      } else {
        gone := DeletedAround(start, end);
      }
    }

    /** The first half of `remove_`: save the characters and bring the gap to them. */
    method SaveAndReach(start: int, end: int)
      requires Valid() && UndoState().WellFormed() && 0 <= start <= end <= mLength
      modifies `mGapStart, `mGapEnd, mBuf, undo
      ensures Valid() && start <= mGapStart <= end && mGapEnd - mGapStart == old(mGapEnd - mGapStart)
      ensures undo.widget == this || undo.widget == old(undo.widget)
      ensures UndoState() == if mCanUndo then RemoveRecord(old(UndoState()), start, end, text[start..end])
                             else old(UndoState())
    {
      if mCanUndo {
        var gone := Deleted(start, end);
        RecordRemoval(start, end, gone);
        undo.saved := gone + undo.saved[end - start..];
      }
      if start > mGapStart {
        MoveGap(start);
      } else if end < mGapStart {
        MoveGap(end);
      }
    }

    /** `remove_` */
    method RemoveInternal(start: int, end: int)
      requires Valid() && Distinct() && UndoState().WellFormed() && 0 <= start <= end <= mLength
      modifies `mGapStart, `mGapEnd, `mLength, `text, mBuf, undo, mPrimary, mSecondary, mHighlight
      ensures Valid()
      ensures undo.widget == this || undo.widget == old(undo.widget)
      ensures State() == Removed(old(State()), start, end)
      ensures Room() == Resized(old(Room()), Free(end - start), mPreferredGapSize)
      ensures Spans() == MovedAll(old(Spans()), start, end - start, 0)
    {
      SaveAndReach(start, end);
      LetGo(start, end);
      UpdateSelections(start, end - start, 0);
    }

    method Insert(pos: int, t: string)
      requires Valid() && Distinct()
      modifies this, mBuf, undo, mPrimary, mSecondary, mHighlight
      ensures Valid() && (mBuf == old(mBuf) || fresh(mBuf))
      ensures undo.widget == this || undo.widget == old(undo.widget)
      ensures State() == Editing.Insert(old(State()), pos, t)
      ensures Spans() == MovedAll(old(Spans()), Clamp(pos, old(mLength)), 0, |t|)
      ensures Room() == Resized(old(Room()), Put(|t|), mPreferredGapSize)
      ensures mCursorPosHint == Clamp(pos, old(mLength)) + |t|
    {
      var p := pos;
      if p > mLength {
        p := mLength;
      }
      if p < 0 {
        p := 0;
      }
      assert p == Clamp(pos, mLength);
      var nInserted := InsertInternal(p, t);
      mCursorPosHint := p + nInserted;
    }

    method Replace(start: int, end: int, t: string)
      requires Valid() && Distinct() && UndoState().WellFormed() && IsRange(start, end, mLength)
      modifies this, mBuf, undo, mPrimary, mSecondary, mHighlight
      ensures Valid() && (mBuf == old(mBuf) || fresh(mBuf))
      ensures undo.widget == this || undo.widget == old(undo.widget)
      ensures State() == Editing.Replace(old(State()), start, end, t)
      ensures Spans() == ReplacedAll(old(Spans()), Max(0, start), Min(end, old(mLength)), |t|)
      ensures Room() == Resized(Resized(old(Room()), Free(Min(end, old(mLength)) - Max(0, start)), mPreferredGapSize),
                                Put(|t|), mPreferredGapSize)
      ensures mCursorPosHint == Max(0, start) + |t|
    {
      var from, to := start, end;
      if from < 0 {
        from := 0;
      }
      if to > mLength {
        to := mLength;
      }
      Overwrite(from, to, t);
    }

    /** Delete and insert, with the range clamped. */
    method Overwrite(start: int, end: int, t: string)
      requires Valid() && Distinct() && UndoState().WellFormed() && 0 <= start <= end <= mLength
      modifies this, mBuf, undo, mPrimary, mSecondary, mHighlight
      ensures Valid() && (mBuf == old(mBuf) || fresh(mBuf))
      ensures undo.widget == this || undo.widget == old(undo.widget)
      ensures State() == Inserted(Removed(old(State()), start, end), start, t)
      ensures Spans() == ReplacedAll(old(Spans()), start, end, |t|)
      ensures Room() == Resized(Resized(old(Room()), Free(end - start), mPreferredGapSize), Put(|t|), mPreferredGapSize)
      ensures mCursorPosHint == start + |t|
    {
      RemoveInternal(start, end);
      var nInserted := InsertInternal(start, t);
      mCursorPosHint := start + nInserted;
    }

    /** The bounds of a range in order and within the text. */
    method Bounds(start: int, end: int) returns (from: int, to: int)
      requires mLength >= 0
      ensures from == Clamp(Min(start, end), mLength) && to == Clamp(Max(start, end), mLength)
    {
      from, to := start, end;
      if from > to {
        from, to := to, from;
      }
      if from > mLength {
        from := mLength;
      }
      if from < 0 {
        from := 0;
      }
      if to > mLength {
        to := mLength;
      }
      if to < 0 {
        to := 0;
      }
    }

    method RemoveRange(start: int, end: int)
      requires Valid() && Distinct() && UndoState().WellFormed() && 0 <= start < end <= mLength
      modifies this, mBuf, undo, mPrimary, mSecondary, mHighlight
      ensures Valid() && mBuf == old(mBuf)
      ensures undo.widget == this || undo.widget == old(undo.widget)
      ensures State() == Removed(old(State()), start, end)
      ensures Spans() == MovedAll(old(Spans()), start, end - start, 0)
      ensures Room() == ResizedAll(old(Room()), [Free(end - start)], mPreferredGapSize)
      ensures mCursorPosHint == start
    {
      RemoveInternal(start, end);
      ResizedOne(old(Room()), Free(end - start), mPreferredGapSize);
      mCursorPosHint := start;
    }

    method Remove(start: int, end: int)
      requires Valid() && Distinct() && UndoState().WellFormed()
      modifies this, mBuf, undo, mPrimary, mSecondary, mHighlight
      ensures Valid() && mBuf == old(mBuf)
      ensures undo.widget == this || undo.widget == old(undo.widget)
      ensures State() == Editing.Remove(old(State()), start, end)
      ensures
        var s, f := Clamp(Min(start, end), old(mLength)), Clamp(Max(start, end), old(mLength));
        Spans() == if s == f then old(Spans()) else MovedAll(old(Spans()), s, f - s, 0)
      ensures Room() == ResizedAll(old(Room()), RemoveSizes(start, end, old(mLength)), mPreferredGapSize)
      ensures mCursorPosHint == if Clamp(start, old(mLength)) == Clamp(end, old(mLength)) then old(mCursorPosHint)
                                else Clamp(Min(start, end), old(mLength))
    {
      var from, to := Bounds(start, end);
      if from == to {
        return;
      }
      RemoveRange(from, to);
    }

    /** `cursorPos` is what the caller's variable holds; it is set when something is undone. */
    method Undo(cursorPos: int) returns (done: bool, cursor: int)
      requires Valid() && Distinct() && Revertible(State())
      modifies this, mBuf, undo, mPrimary, mSecondary, mHighlight
      ensures Valid() && (mBuf == old(mBuf) || fresh(mBuf))
      ensures undo.widget == this || undo.widget == old(undo.widget)
      ensures done <==> CanUndo(old(State()))
      ensures done <==> old(undo.widget) == this && (old(undo.cut) != 0 || old(undo.ins) != 0 || old(mCanUndo))
      ensures Reverted(old(State()), old(Room()))
      ensures
        if done && (old(undo.ins) != 0 || old(undo.cut) != 0) then
          cursor == mCursorPosHint && (mCanUndo && old(State()).WellFormed() ==> cursor == undo.at)
        else
          cursor == cursorPos && mCursorPosHint == old(mCursorPosHint)
    {
      done, cursor := true, cursorPos;
      if undo.widget != this || (undo.cut == 0 && undo.ins == 0 && !mCanUndo) {
        done := false;
        return;
      }
      cursor := Revert(cursorPos);
    }

    method Revert(cursorPos: int) returns (cursor: int)
      requires Valid() && Distinct() && Revertible(State()) && CanUndo(State())
      modifies this, mBuf, undo, mPrimary, mSecondary, mHighlight
      ensures Valid() && (mBuf == old(mBuf) || fresh(mBuf))
      ensures undo.widget == this || undo.widget == old(undo.widget)
      ensures Reverted(old(State()), old(Room()))
      ensures
        if old(undo.ins) != 0 || old(undo.cut) != 0 then
          cursor == mCursorPosHint && (mCanUndo && old(State()).WellFormed() ==> cursor == undo.at)
        else cursor == cursorPos && mCursorPosHint == old(mCursorPosHint)
    {
      cursor := cursorPos;
      var ilen, xlen := undo.cut, undo.ins;
      if xlen != 0 && undo.yankCut != 0 && ilen == 0 {
        ilen := undo.yankCut;
      }
      if xlen != 0 && ilen != 0 {
        PutBackOver(ilen);
        cursor := mCursorPosHint;
      } else if xlen != 0 {
        TakeBack();
        cursor := mCursorPosHint;
      } else if ilen != 0 {
        PutBack();
        cursor := mCursorPosHint;
      }
    }

    ghost predicate Reverted(was: Editor, room: Space)
      requires Revertible(was)
      reads `mBuf, `mLength, `mGapStart, `mGapEnd, `text, `mCanUndo, undo
    {
      && State() == Editing.Undo(was)
      && Room() == ResizedAll(room, Sizes(was, Undoing), mPreferredGapSize)
    }

    /** Undo an insertion over deleted text. */
    method PutBackOver(ilen: int)
      requires Valid() && Distinct() && Revertible(State()) && CanUndo(State())
      requires undo.ins != 0 && ilen != 0 && ilen == Restored(UndoState())
      modifies this, mBuf, undo, mPrimary, mSecondary, mHighlight
      ensures Valid() && (mBuf == old(mBuf) || fresh(mBuf))
      ensures undo.widget == this || undo.widget == old(undo.widget)
      ensures Reverted(old(State()), old(Room()))
      ensures mCanUndo && old(State()).WellFormed() ==> mCursorPosHint == undo.at
    {
      UndoneOver(State(), Room(), mPreferredGapSize);
      var tmp := undo.saved[..ilen];
      Replace(undo.at - undo.ins, undo.at, tmp);
    }

    /** Undo an insertion. */
    method TakeBack()
      requires Valid() && Distinct() && Revertible(State()) && CanUndo(State())
      requires undo.ins != 0 && Restored(UndoState()) == 0
      modifies this, mBuf, undo, mPrimary, mSecondary, mHighlight
      ensures Valid() && mBuf == old(mBuf)
      ensures undo.widget == this || undo.widget == old(undo.widget)
      ensures Reverted(old(State()), old(Room()))
      ensures mCanUndo && old(State()).WellFormed() ==> mCursorPosHint == undo.at
    {
      Remove(undo.at - undo.ins, undo.at);
    }

    /** Undo a deletion. */
    method PutBack()
      requires Valid() && Distinct() && Revertible(State()) && CanUndo(State())
      requires undo.ins == 0 && undo.cut != 0
      modifies this, mBuf, undo, mPrimary, mSecondary, mHighlight
      ensures Valid() && (mBuf == old(mBuf) || fresh(mBuf))
      ensures undo.widget == this || undo.widget == old(undo.widget)
      ensures Reverted(old(State()), old(Room()))
      ensures mCanUndo && old(State()).WellFormed() ==> mCursorPosHint == undo.at
    {
      var ilen := undo.cut;
      Insert(undo.at, undo.saved[..ilen]);
      undo.yankCut := 0;
      ResizedOne(old(Room()), Put(ilen), mPreferredGapSize);
    }

    method SetCanUndo(flag: bool)
      modifies `mCanUndo
      ensures mCanUndo == flag
    {
      mCanUndo := flag;
    }

    method PerformReplacement(start: int, end: int, t: string)
      requires Valid() && Distinct() && Ready(State(), Replacement(start, end, t))
      modifies this, mBuf, undo, mPrimary, mSecondary, mHighlight
      ensures Valid() && (mBuf == old(mBuf) || fresh(mBuf))
      ensures undo.widget == this || undo.widget == old(undo.widget)
      ensures State() == Editing.Replace(old(State()), start, end, t)
      ensures Room() == ResizedAll(old(Room()), Sizes(old(State()), Replacement(start, end, t)), mPreferredGapSize)
    {
      ResizedTwo(Room(), Free(Min(end, mLength) - Max(0, start)), Put(|t|), mPreferredGapSize);
      Replace(start, end, t);
    }

    /** Any one edit. */
    method Perform(edit: Edit)
      requires Valid() && Distinct() && Ready(State(), edit)
      modifies this, mBuf, undo, mPrimary, mSecondary, mHighlight
      ensures Valid() && (mBuf == old(mBuf) || fresh(mBuf))
      ensures undo.widget == this || undo.widget == old(undo.widget)
      ensures State() == Step(old(State()), edit)
      ensures Room() == ResizedAll(old(Room()), Sizes(old(State()), edit), mPreferredGapSize)
    {
      match edit {
        case Insertion(pos, t) =>
          ResizedOne(Room(), Put(|t|), mPreferredGapSize);
          Insert(pos, t);
        case Deletion(start, end) =>
          Remove(start, end);
        case Replacement(start, end, t) =>
          PerformReplacement(start, end, t);
        case Undoing =>
          var _, _ := Undo(0);
      }
    }

    /** Replace the whole text. The undo record is left alone. */
    method SetText(t: string)
      requires Valid() && Distinct()
      modifies this, mPrimary, mSecondary, mHighlight
      ensures Valid() && fresh(mBuf)
      ensures text == t && mGapStart == |t| && mGapEnd == |t| + mPreferredGapSize
      ensures Room() == Resized(old(Room()), Renew(|t|), mPreferredGapSize)
      ensures mCanUndo == old(mCanUndo) && mCursorPosHint == old(mCursorPosHint)
      ensures Spans() == MovedAll(old(Spans()), 0, old(mLength), 0)
    {
      var deletedLength := mLength;
      var insertedLength := |t|;
      mBuf := new char[insertedLength + mPreferredGapSize];
      mLength := insertedLength;
      mGapStart := insertedLength;
      mGapEnd := mGapStart + mPreferredGapSize;
      forall i | 0 <= i < insertedLength {
        mBuf[i] := t[i];
      }
      text := t;
      UpdateSelections(0, deletedLength, 0);
    }

    /** Insert a range of a buffer's text, of another one or of its own. The undo record is left
        alone. */
    method Copy(fromBuf: Fl_Text_Buffer, fromStart: int, fromEnd: int, toPos: int)
      requires Valid() && Distinct() && fromBuf.Valid()
      requires fromBuf != this ==> fromBuf.mBuf != mBuf
      requires 0 <= fromStart <= fromEnd <= fromBuf.mLength && 0 <= toPos <= mLength
      modifies this, mBuf, mPrimary, mSecondary, mHighlight
      ensures Valid() && (mBuf == old(mBuf) || fresh(mBuf))
      ensures text == Splice(old(text), toPos, toPos, old(fromBuf.text)[fromStart..fromEnd])
      ensures mCanUndo == old(mCanUndo) && mCursorPosHint == old(mCursorPosHint)
      ensures Spans() == MovedAll(old(Spans()), toPos, 0, fromEnd - fromStart)
      ensures Room() == Resized(old(Room()), Put(fromEnd - fromStart), mPreferredGapSize)
    {
      var copiedLength := fromEnd - fromStart;
      OpenGap(toPos, copiedLength);
      TakeRange(fromBuf, fromStart, fromEnd);
      UpdateSelections(toPos, 0, copiedLength);
    }

    method TakeRange(fromBuf: Fl_Text_Buffer, fromStart: int, fromEnd: int)
      requires Valid() && fromBuf.Valid() && (fromBuf != this ==> fromBuf.mBuf != mBuf)
      requires 0 <= fromStart <= fromEnd <= fromBuf.mLength && fromEnd - fromStart <= mGapEnd - mGapStart
      modifies `mGapStart, `mLength, `text, mBuf
      ensures Valid()
      ensures mLength == old(mLength) + (fromEnd - fromStart)
      ensures mGapEnd - mGapStart == old(mGapEnd - mGapStart) - (fromEnd - fromStart)
      ensures text == Splice(old(text), old(mGapStart), old(mGapStart), old(fromBuf.text)[fromStart..fromEnd])
    {
      FillGap(fromBuf, fromStart, fromEnd);
      TakeIn(fromEnd - fromStart);
    }

    method FillGap(fromBuf: Fl_Text_Buffer, fromStart: int, fromEnd: int)
      requires Valid() && fromBuf.Valid() && (fromBuf != this ==> fromBuf.mBuf != mBuf)
      requires 0 <= fromStart <= fromEnd <= fromBuf.mLength && fromEnd - fromStart <= mGapEnd - mGapStart
      modifies mBuf
      ensures Valid() && mBuf[mGapStart..mGapStart + (fromEnd - fromStart)] == fromBuf.text[fromStart..fromEnd]
    {
      fromBuf.CopyOut(fromStart, fromEnd, mBuf, mGapStart);
    }

    // ---------------------------------------------------------------- lines

    method CountLines(startPos: int, endPos: int) returns (lineCount: int)
      requires Valid() && startPos >= 0
      ensures
        if startPos > mLength then lineCount == 0
        else lineCount == Newlines(text, startPos, if startPos <= endPos <= mLength then endPos else mLength)
    {
      var gapLen := mGapEnd - mGapStart;
      lineCount := 0;
      var pos := startPos;
      while pos < mGapStart
        invariant startPos <= pos && (startPos <= endPos ==> pos <= endPos)
        invariant startPos <= mLength ==> pos <= mLength && lineCount == Newlines(text, startPos, pos)
        invariant startPos > mLength ==> lineCount == 0
      {
        if pos == endPos {
          return;
        }
        if mBuf[pos] == '\n' {
          lineCount := lineCount + 1;
        }
        pos := pos + 1;
      }
      while pos < mLength
        invariant mGapStart <= pos && startPos <= pos && (startPos <= endPos ==> pos <= endPos)
        invariant startPos <= mLength ==> pos <= mLength && lineCount == Newlines(text, startPos, pos)
        invariant startPos > mLength ==> lineCount == 0
      {
        if pos == endPos {
          return;
        }
        if mBuf[pos + gapLen] == '\n' {
          lineCount := lineCount + 1;
        }
        pos := pos + 1;
      }
    }

    method SkipLines(startPos: int, nLines: int) returns (pos: int)
      requires Valid() && startPos >= 0 && nLines >= 0
      ensures pos == if startPos <= mLength then Skip(text, startPos, nLines) else startPos
    {
      if nLines == 0 {
        return startPos;
      }
      var gapLen := mGapEnd - mGapStart;
      pos := startPos;
      var lineCount := 0;
      while pos < mGapStart
        invariant 0 <= lineCount < nLines && if startPos <= mLength then 0 <= pos <= mLength else pos == startPos
        invariant startPos <= mLength ==> Skip(text, startPos, nLines) == Skip(text, pos, nLines - lineCount)
      {
        pos := pos + 1;
        if mBuf[pos - 1] == '\n' {
          lineCount := lineCount + 1;
          if lineCount == nLines {
            return;
          }
        }
      }
      while pos < mLength
        invariant mGapStart <= pos
        invariant 0 <= lineCount < nLines && if startPos <= mLength then pos <= mLength else pos == startPos
        invariant startPos <= mLength ==> Skip(text, startPos, nLines) == Skip(text, pos, nLines - lineCount)
      {
        pos := pos + 1;
        if mBuf[pos - 1 + gapLen] == '\n' {
          lineCount := lineCount + 1;
          if lineCount >= nLines {
            return;
          }
        }
      }
    }

    method RewindLines(startPos: int, nLines: int) returns (start: int)
      requires Valid() && 0 <= startPos <= mLength && nLines >= 0
      ensures start == Rewound(text, startPos, nLines)
    {
      var pos := startPos - 1;
      if pos <= 0 {
        return 0;
      }
      var gapLen := mGapEnd - mGapStart;
      var lineCount := -1;
      while pos >= mGapStart
        invariant -1 <= pos < mLength && -1 <= lineCount < nLines
        invariant Back(text, startPos, nLines) == Back(text, pos + 1, nLines - (lineCount + 1))
      {
        if mBuf[pos + gapLen] == '\n' {
          lineCount := lineCount + 1;
          if lineCount >= nLines {
            return pos + 1;
          }
        }
        pos := pos - 1;
      }
      while pos >= 0
        invariant -1 <= pos < mLength && pos < mGapStart && -1 <= lineCount < nLines
        invariant Back(text, startPos, nLines) == Back(text, pos + 1, nLines - (lineCount + 1))
      {
        if mBuf[pos] == '\n' {
          lineCount := lineCount + 1;
          if lineCount >= nLines {
            return pos + 1;
          }
        }
        pos := pos - 1;
      }
      return 0;
    }

    method FindcharForward(startPos: int, searchChar: char) returns (found: bool, foundPos: int)
      requires Valid()
      ensures
        if 0 <= startPos < mLength && searchChar in text[startPos..] then
          && found && startPos <= foundPos < mLength
          && text[foundPos] == searchChar && searchChar !in text[startPos..foundPos]
        else
          !found && foundPos == mLength
    {
      if startPos < 0 || startPos >= mLength {
        return false, mLength;
      }
      var pos := startPos;
      while pos < mGapStart
        invariant startPos <= pos <= mLength
        invariant forall i | startPos <= i < pos :: text[i] != searchChar
      {
        if mBuf[pos] == searchChar {
          assert text[startPos..][pos - startPos] == searchChar;
          return true, pos;
        }
        pos := pos + 1;
      }
      var gapLen := mGapEnd - mGapStart;
      while pos < mLength
        invariant mGapStart <= pos && startPos <= pos <= mLength
        invariant forall i | startPos <= i < pos :: text[i] != searchChar
      {
        if mBuf[pos + gapLen] == searchChar {
          assert text[startPos..][pos - startPos] == searchChar;
          return true, pos;
        }
        pos := pos + 1;
      }
      return false, mLength;
    }

    method FindcharBackward(startPos: int, searchChar: char) returns (found: bool, foundPos: int)
      requires Valid()
      ensures
        if 0 < startPos <= mLength && searchChar in text[..startPos] then
          && found && 0 <= foundPos < startPos
          && text[foundPos] == searchChar && searchChar !in text[foundPos + 1..startPos]
        else
          !found && foundPos == 0
    {
      if startPos <= 0 || startPos > mLength {
        return false, 0;
      }
      var pos := startPos - 1;
      var gapLen := mGapEnd - mGapStart;
      while pos >= mGapStart
        invariant -1 <= pos < startPos
        invariant forall i | pos < i < startPos :: text[i] != searchChar
      {
        if mBuf[pos + gapLen] == searchChar {
          assert text[..startPos][pos] == searchChar;
          return true, pos;
        }
        pos := pos - 1;
      }
      while pos >= 0
        invariant -1 <= pos < startPos && pos < mGapStart
        invariant forall i | pos < i < startPos :: text[i] != searchChar
      {
        if mBuf[pos] == searchChar {
          assert text[..startPos][pos] == searchChar;
          return true, pos;
        }
        pos := pos - 1;
      }
      return false, 0;
    }

    /** Unlike `RewindLines` by no line, this finds the start of the line at every position. */
    method StartOfLine(pos: int) returns (start: int)
      requires Valid()
      ensures start == if 0 <= pos <= mLength then LineStart(text, pos) else 0
    {
      var found, foundPos := FindcharBackward(pos, '\n');
      if 0 <= pos <= mLength {
        LineStartIsLast(text, pos);
      }
      if !found {
        return 0;
      }
      return foundPos + 1;
    }

    method EndOfLine(pos: int) returns (end: int)
      requires Valid()
      ensures
        if 0 <= pos <= mLength then
          pos <= end <= mLength && '\n' !in text[pos..end] && (end < mLength ==> text[end] == '\n')
        else
          end == mLength
    {
      var found, foundPos := FindcharForward(pos, '\n');
      end := foundPos;
      if !found {
        end := mLength;
      }
    }
  }
}
