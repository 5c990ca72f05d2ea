/** Lines of a text: the positions the buffer's line navigation should find, whatever its gap. */
module TextLines {

  predicate IsLineStart(t: string, p: nat)
    requires p <= |t|
  {
    p == 0 || t[p - 1] == '\n'
  }

  /** The newlines in t[a..b]. */
  function Newlines(t: string, a: nat, b: nat): (n: nat)
    requires a <= b <= |t|
    ensures n <= b - a
    decreases b
  {
    if a == b then 0 else Newlines(t, a, b - 1) + if t[b - 1] == '\n' then 1 else 0
  }

  lemma {:induction false} NewlinesIsSize(t: string, a: nat, b: nat)
    requires a <= b <= |t|
    ensures Newlines(t, a, b) == |set i | a <= i < b && t[i] == '\n'|
    decreases b
  {
    var places := set i | a <= i < b && t[i] == '\n';
    if a == b {
      assert places == {};
    } else {
      var front := set i | a <= i < b - 1 && t[i] == '\n';
      NewlinesIsSize(t, a, b - 1);
      assert places == if t[b - 1] == '\n' then front + {b - 1} else front;
    }
  }

  lemma {:induction false} NewlinesSplit(t: string, a: nat, b: nat, c: nat)
    requires a <= b <= c <= |t|
    ensures Newlines(t, a, c) == Newlines(t, a, b) + Newlines(t, b, c)
  {
    if b < c {
      NewlinesSplit(t, a, b, c - 1);
    }
  }

  /** The start of the line `n` lines further on, or the end of the text. */
  function Skip(t: string, p: nat, n: nat): (q: nat)
    requires p <= |t|
    ensures p <= q <= |t|
    decreases |t| - p
  {
    if n == 0 || p == |t| then p
    else Skip(t, p + 1, if t[p] == '\n' then n - 1 else n)
  }

  /** The start of the line `n` lines back from the one `p` lies in, or the start of the text. */
  function Back(t: string, p: nat, n: nat): (q: nat)
    requires p <= |t|
    ensures q <= p
  {
    if p == 0 then 0
    else if t[p - 1] != '\n' then Back(t, p - 1, n)
    else if n == 0 then p
    else Back(t, p - 1, n - 1)
  }

  function LineStart(t: string, p: nat): (q: nat)
    requires p <= |t|
    ensures q <= p
  {
    Back(t, p, 0)
  }

  /** A line starts where its last newline ends: the definition by recursion finds that place. */
  lemma {:induction false} LineStartIsLast(t: string, p: nat)
    requires p <= |t|
    ensures IsLineStart(t, LineStart(t, p))
    ensures forall i | LineStart(t, p) <= i < p :: t[i] != '\n'
  {
    if p > 0 && t[p - 1] != '\n' {
      LineStartIsLast(t, p - 1);
    }
  }

  /** Skipping passes exactly `n` newlines and stops behind the last, when there are as many. */
  lemma {:induction false} SkipCounts(t: string, p: nat, n: nat)
    requires p <= |t|
    ensures
      var q := Skip(t, p, n);
      if Newlines(t, p, |t|) >= n then Newlines(t, p, q) == n && (n > 0 ==> q > p && t[q - 1] == '\n')
      else q == |t|
    decreases |t| - p
  {
    if n > 0 && p < |t| {
      var m := if t[p] == '\n' then n - 1 else n;
      SkipCounts(t, p + 1, m);
      NewlinesSplit(t, p, p + 1, |t|);
      NewlinesSplit(t, p, p + 1, Skip(t, p + 1, m));
      assert Newlines(t, p, p + 1) == if t[p] == '\n' then 1 else 0 by {
        assert Newlines(t, p, p) == 0;
      }
    }
  }

  /** Going back over a stretch takes one line for each newline in it. */
  lemma {:induction false} BackOver(t: string, p: nat, q: nat, n: nat)
    requires p <= q <= |t|
    ensures Back(t, q, n + Newlines(t, p, q)) == Back(t, p, n)
    decreases q
  {
    if p < q {
      if t[q - 1] == '\n' {
        assert Newlines(t, p, q) == Newlines(t, p, q - 1) + 1;
      }
      BackOver(t, p, q - 1, n);
    }
  }

  /** Skipping `n` lines and going back `n` lines returns to the start of the line. */
  lemma SkipThenBack(t: string, p: nat, n: nat)
    requires p <= |t| && Newlines(t, p, |t|) >= n
    ensures
      var q := Skip(t, p, n);
      && Newlines(t, p, q) == n
      && Back(t, q, n) == LineStart(t, p)
      && (IsLineStart(t, p) ==> Back(t, q, n) == p)
  {
    SkipCounts(t, p, n);
    BackOver(t, p, Skip(t, p, n), 0);
  }

  /** What the buffer's `rewind_lines` returns: it gives up at once when there is at most one
      character to look at. */
  function Rewound(t: string, p: nat, n: nat): (q: nat)
    requires p <= |t|
    ensures q <= p
  {
    if p <= 1 then 0 else Back(t, p, n)
  }

  /** That goes wrong in one place only: right behind a newline that opens the text. */
  lemma RewoundExactly(t: string, p: nat, n: nat)
    requires p <= |t|
    ensures Rewound(t, p, n) == Back(t, p, n) <==> !(p == 1 && t[0] == '\n' && n == 0)
  {
    if p == 1 && n > 0 {
      assert Back(t, 0, n - 1) == 0;
    }
  }

  /** An input that fails: position 1 of the text of one newline. */
  lemma RewoundTooFar()
    ensures Rewound("\n", 1, 0) == 0 && LineStart("\n", 1) == 1
  {
  }

  /** The navigation of the buffer inverts all the same. */
  lemma NavigationInverts(t: string, p: nat, n: nat)
    requires p <= |t| && IsLineStart(t, p) && n >= 1 && Newlines(t, p, |t|) >= n
    ensures
      var q := Skip(t, p, n);
      Newlines(t, p, q) == n && Rewound(t, q, n) == p
  {
    SkipThenBack(t, p, n);
    SkipCounts(t, p, n);
  }
}
