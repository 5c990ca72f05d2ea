/** The help viewer's font stack: a fixed array that saturates at both ends. Every change also
    sets the font and colour used for drawing. */
module FontStack {

  const MAX_ELTS := 100

  datatype Style = Style(f: int, s: int, c: int)
  datatype Op = Push(x: Style) | Pop

  // ---------------------------------------------------------------- the stack as a sequence

  function Pushed(s: seq<Style>, x: Style): seq<Style> {
    if |s| < MAX_ELTS then s + [x] else s[..MAX_ELTS - 1] + [x]
  }

  function Popped(s: seq<Style>): seq<Style> {
    if |s| > 1 then s[..|s| - 1] else s
  }

  function Apply(s: seq<Style>, op: Op): seq<Style> {
    match op
    case Push(x) => Pushed(s, x)
    case Pop => Popped(s)
  }

  function Run(s: seq<Style>, w: seq<Op>): seq<Style> {
    if w == [] then s else Apply(Run(s, w[..|w| - 1]), w[|w| - 1])
  }

  // ---------------------------------------------------------------- words of pushes and pops

  function Depth(w: seq<Op>): int {
    if w == [] then 0 else Depth(w[..|w| - 1]) + if w[|w| - 1].Push? then 1 else -1
  }

  /** The greatest depth reached. */
  function Peak(w: seq<Op>): int {
    if w == [] then 0 else
    var p := Peak(w[..|w| - 1]);
    if Depth(w) > p then Depth(w) else p
  }

  /** No pop goes below where the word began. */
  predicate Grounded(w: seq<Op>) {
    w == [] || (Grounded(w[..|w| - 1]) && Depth(w) >= 0)
  }

  predicate Nested(w: seq<Op>) {
    Grounded(w) && Depth(w) == 0
  }

  /** Every run keeps the index in range and the first entry in place. */
  lemma {:induction false} RunInRange(s: seq<Style>, w: seq<Op>)
    requires 1 <= |s| <= MAX_ELTS
    ensures 1 <= |Run(s, w)| <= MAX_ELTS && Run(s, w)[0] == s[0]
  {
    if w != [] {
      RunInRange(s, w[..|w| - 1]);
    }
  }

  lemma {:induction false} RunFits(s: seq<Style>, w: seq<Op>)
    requires 1 <= |s| && |s| + Peak(w) <= MAX_ELTS && Grounded(w)
    ensures |Run(s, w)| == |s| + Depth(w) && Run(s, w)[..|s|] == s
  {
    if w != [] {
      RunFits(s, w[..|w| - 1]);
    }
  }

  /** Once a push has been refused a place, the stack stays too short. */
  lemma {:induction false} RunOverflows(s: seq<Style>, w: seq<Op>)
    requires 1 <= |s| <= MAX_ELTS && Grounded(w)
    ensures |Run(s, w)| <= |s| + Depth(w)
    ensures |s| > 1 && |s| + Peak(w) > MAX_ELTS ==> |Run(s, w)| < |s| + Depth(w)
  {
    if w != [] {
      var front := w[..|w| - 1];
      RunOverflows(s, front);
      RunInRange(s, front);
      if |s| + Peak(front) <= MAX_ELTS {
        RunFits(s, front);
      }
    }
  }

  /** A properly nested word gives the stack back exactly when the stack never has to overflow,
      or held nothing but its first entry. */
  lemma NestedRestores(s: seq<Style>, w: seq<Op>)
    requires 1 <= |s| <= MAX_ELTS && Nested(w)
    ensures Run(s, w) == s <==> |s| == 1 || |s| + Peak(w) <= MAX_ELTS
  {
    RunInRange(s, w);
    RunOverflows(s, w);
    if |s| + Peak(w) <= MAX_ELTS {
      RunFits(s, w);
      assert Run(s, w)[..|s|] == Run(s, w);
    }
  }

  /** `n` pushes of one style. */
  function Pushes(x: Style, n: nat): (w: seq<Op>)
    ensures |w| == n
  {
    if n == 0 then [] else Pushes(x, n - 1) + [Push(x)]
  }

  /** `n` pushes and then `m` pops. */
  function Tower(x: Style, n: nat, m: nat): (w: seq<Op>)
    ensures |w| == n + m
  {
    if m == 0 then Pushes(x, n) else Tower(x, n, m - 1) + [Pop]
  }

  /** Depth and peak of a word. */
  predicate Rises(w: seq<Op>, depth: int, peak: int) {
    Grounded(w) && Depth(w) == depth && Peak(w) == peak
  }

  lemma Snoc(w: seq<Op>, op: Op)
    ensures Depth(w + [op]) == Depth(w) + if op.Push? then 1 else -1
    ensures Peak(w + [op]) == if Depth(w + [op]) > Peak(w) then Depth(w + [op]) else Peak(w)
    ensures Grounded(w + [op]) <==> Grounded(w) && Depth(w + [op]) >= 0
  {
    assert (w + [op])[..|w|] == w;
  }

  lemma {:induction false} PushesRise(x: Style, n: nat)
    ensures Rises(Pushes(x, n), n, n)
  {
    if n > 0 {
      PushesRise(x, n - 1);
      Snoc(Pushes(x, n - 1), Push(x));
    }
  }

  lemma PopRises(w: seq<Op>, depth: int, peak: int)
    requires Rises(w, depth, peak) && depth >= 1
    ensures Rises(w + [Pop], depth - 1, peak)
  {
    Snoc(w, Pop);
    assert Peak(w) >= Depth(w);
  }

  lemma {:induction false} TowerRises(x: Style, n: nat, m: nat)
    requires m <= n
    ensures Rises(Tower(x, n, m), n - m, n)
  {
    if m == 0 {
      PushesRise(x, n);
    } else {
      TowerRises(x, n, m - 1);
      PopRises(Tower(x, n, m - 1), n - m + 1, n);
    }
  }

  /** An input that fails: two entries, and 99 pushes followed by 99 pops. */
  lemma NotRestored(s: seq<Style>, x: Style)
    requires |s| == 2
    ensures Nested(Tower(x, 99, 99)) && Run(s, Tower(x, 99, 99)) != s
  {
    TowerRises(x, 99, 99);
    NestedRestores(s, Tower(x, 99, 99));
  }

  // ---------------------------------------------------------------- the array

  class Fl_Help_Font_Stack {
    const elts: array<Style>
    var nfonts: nat
    var drawn: Style    // the current drawing font, size and colour

    ghost predicate Valid()
      reads this
    {
      elts.Length == MAX_ELTS && nfonts < MAX_ELTS
    }

    ghost function Stack(): (s: seq<Style>)
      requires Valid()
      reads this, elts
      ensures 1 <= |s| <= MAX_ELTS
    {
      elts[..nfonts + 1]
    }

    constructor (blank: Style)
      ensures Valid() && fresh(elts)
    {
      elts := new Style[MAX_ELTS](_ => blank);
      nfonts, drawn := 0, blank;
    }

    method Init(x: Style)
      requires Valid()
      modifies this, elts
      ensures Valid() && Stack() == [x] && drawn == x
    {
      nfonts := 0;
      elts[nfonts] := x;
      drawn := x;
    }

    method Top() returns (x: Style)
      requires Valid()
      ensures x == Stack()[|Stack()| - 1]
    {
      x := elts[nfonts];
    }

    method PushStyle(x: Style)
      requires Valid()
      modifies this, elts
      ensures Valid() && Stack() == Pushed(old(Stack()), x) && drawn == x
      ensures nfonts == (if old(nfonts) < 99 then old(nfonts) + 1 else 99) && elts[nfonts] == x
      ensures forall i | 0 <= i < nfonts :: elts[i] == old(elts[i])
    {
      if nfonts < MAX_ELTS - 1 {
        nfonts := nfonts + 1;
      }
      elts[nfonts] := x;
      drawn := x;
    }

    method PopStyle() returns (x: Style)
      requires Valid()
      modifies this
      ensures Valid() && Stack() == Popped(old(Stack()))
      ensures nfonts == if old(nfonts) > 0 then old(nfonts) - 1 else 0
      ensures x == drawn == Stack()[|Stack()| - 1]
    {
      if nfonts > 0 {
        nfonts := nfonts - 1;
      }
      x := Top();
      drawn := x;
    }

    /** Any run: the array follows the sequence, and drawing follows the top of the stack. */
    method Replay(w: seq<Op>)
      requires Valid() && drawn == Stack()[|Stack()| - 1]
      modifies this, elts
      ensures Valid() && Stack() == Run(old(Stack()), w) && drawn == Stack()[|Stack()| - 1]
    {
      var i := 0;
      while i < |w|
        invariant 0 <= i <= |w| && Valid()
        invariant Stack() == Run(old(Stack()), w[..i]) && drawn == Stack()[|Stack()| - 1]
      {
        assert w[..i + 1][..i] == w[..i];
        match w[i] {
          case Push(x) => PushStyle(x);
          case Pop => var _ := PopStyle();
        }
        i := i + 1;
      }
      assert w[..i] == w;
    }
  }
}
