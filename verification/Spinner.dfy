/** The spinner: a value stepped up and down between two bounds, and the number of decimals it
    shows. Values are reals, so that rounding plays no part. */
module Spinner {
  import opened Bits

  datatype Press = Up | Down | Typed(v: real)

  /** What one event makes of the value. */
  function Next(value: real, minimum: real, maximum: real, step: real, p: Press): real {
    match p
    case Up => if value + step > maximum then minimum else value + step
    case Down => if value - step < minimum then maximum else value - step
    case Typed(v) => if v < minimum then minimum else if v > maximum then maximum else v
  }

  function After(value: real, minimum: real, maximum: real, step: real, ps: seq<Press>): real {
    if ps == [] then value
    else Next(After(value, minimum, maximum, step, ps[..|ps| - 1]), minimum, maximum, step, ps[|ps| - 1])
  }

  /** With a step that is not negative, no run leaves the range. */
  lemma {:induction false} StaysInRange(value: real, minimum: real, maximum: real, step: real, ps: seq<Press>)
    requires minimum <= value <= maximum && step >= 0.0
    ensures minimum <= After(value, minimum, maximum, step, ps) <= maximum
  {
    if ps != [] {
      StaysInRange(value, minimum, maximum, step, ps[..|ps| - 1]);
    }
  }

  /** Typing leaves the value of the range that is nearest to what was typed: between that and any
      other value `x` of the range. */
  lemma TypedNearest(value: real, minimum: real, maximum: real, step: real, v: real, x: real)
    requires minimum <= x <= maximum
    ensures
      var r := Next(value, minimum, maximum, step, Typed(v));
      && minimum <= r <= maximum
      && (v <= r <= x || x <= r <= v)
      && (r == v <==> minimum <= v <= maximum)
  {
  }

  /** A press of the other button takes a press back exactly when the first did not wrap, or
      wrapped from the bound itself. */
  lemma UndoneExactly(value: real, minimum: real, maximum: real, step: real)
    requires minimum <= value <= maximum && step > 0.0
    ensures
      var up := Next(value, minimum, maximum, step, Up);
      Next(up, minimum, maximum, step, Down) == value <==> value + step <= maximum || value == maximum
    ensures
      var down := Next(value, minimum, maximum, step, Down);
      Next(down, minimum, maximum, step, Up) == value <==> value - step >= minimum || value == minimum
  {
  }

  /** Inputs that fail: from 1 to 10 by 4, up leads from 8 to 1 and down from there to 10; down leads
      from 3 to 10 and up from there to 1. */
  lemma NotUndone()
    ensures Next(8.0, 1.0, 10.0, 4.0, Up) == 1.0 && Next(1.0, 1.0, 10.0, 4.0, Down) == 10.0
    ensures Next(3.0, 1.0, 10.0, 4.0, Down) == 10.0 && Next(10.0, 1.0, 10.0, 4.0, Up) == 1.0
  {
  }

  // ---------------------------------------------------------------- a range of whole steps

  function Rung(minimum: real, step: real, j: int): real {
    minimum + j as real * step
  }

  lemma RungOrder(minimum: real, step: real, i: int, j: int)
    requires step > 0.0
    ensures i < j <==> Rung(minimum, step, i) < Rung(minimum, step, j)
    ensures i == j <==> Rung(minimum, step, i) == Rung(minimum, step, j)
  {
    var d := j - i;
    assert Rung(minimum, step, j) - Rung(minimum, step, i) == d as real * step;
    assert d > 0 ==> d as real * step > 0.0;
    assert d < 0 ==> (-d) as real * step > 0.0;
  }

  predicate OnlyButtons(ps: seq<Press>) {
    forall p <- ps :: p == Up || p == Down
  }

  /** How far the presses climb: one for each up, minus one for each down. */
  function Climb(ps: seq<Press>): int {
    if ps == [] then 0
    else Climb(ps[..|ps| - 1]) + match ps[|ps| - 1] case Up => 1 case Down => -1 case Typed(_) => 0
  }

  lemma RungStep(minimum: real, step: real, k: nat, j: nat)
    requires step > 0.0 && j <= k
    ensures
      var maximum := Rung(minimum, step, k);
      && Next(Rung(minimum, step, j), minimum, maximum, step, Up) == Rung(minimum, step, (j + 1) % (k + 1))
      && Next(Rung(minimum, step, j), minimum, maximum, step, Down) == Rung(minimum, step, (j - 1) % (k + 1))
  {
    RungOrder(minimum, step, j + 1, k);
    RungOrder(minimum, step, k, j + 1);
    RungOrder(minimum, step, j - 1, 0);
    WrapStep(j, k + 1, 1);
    WrapStep(j, k + 1, -1);
    assert Rung(minimum, step, j) + step == Rung(minimum, step, j + 1);
    assert Rung(minimum, step, j) - step == Rung(minimum, step, j - 1);
  }

  lemma WrapStep(j: nat, m: nat, d: int)
    requires j < m && (d == 1 || d == -1)
    ensures (j + d) % m == if j + d == m then 0 else if j + d == -1 then m - 1 else j + d
  {
    var q := if j + d == m then 1 else if j + d == -1 then -1 else 0;
    DivModUnique(j + d, m, q, j + d - m * q);
  }

  lemma ModStep(x: int, m: nat, d: int)
    requires m > 0
    ensures (x % m + d) % m == (x + d) % m
  {
    var q, r := (x % m + d) / m, (x % m + d) % m;
    assert x + d == m * (x / m + q) + r;
    DivModUnique(x + d, m, x / m + q, r);
  }

  /** Any mixture of button presses walks round the `k + 1` rungs by its climb; `n` ups from
      rung `j` reach rung (j + n) mod (k + 1), and an equal number of ups and downs, in any order,
      comes back. */
  lemma {:induction false} PressesWrap(minimum: real, step: real, k: nat, j: nat, ps: seq<Press>)
    requires step > 0.0 && j <= k && OnlyButtons(ps)
    ensures
      var maximum := Rung(minimum, step, k);
      After(Rung(minimum, step, j), minimum, maximum, step, ps) == Rung(minimum, step, (j + Climb(ps)) % (k + 1))
  {
    if ps == [] {
      DivModUnique(j, k + 1, 0, j);
    } else {
      var before, p := ps[..|ps| - 1], ps[|ps| - 1];
      assert forall q <- before :: q in ps;
      PressesWrap(minimum, step, k, j, before);
      assert p in ps;
      var r := (j + Climb(before)) % (k + 1);
      RungStep(minimum, step, k, r);
      ModStep(j + Climb(before), k + 1, if p == Up then 1 else -1);
    }
  }

  function Ups(n: nat): (ps: seq<Press>)
    ensures |ps| == n
  {
    seq(n, i => Up)
  }

  lemma {:induction false} UpsWrap(minimum: real, step: real, k: nat, j: nat, n: nat)
    requires step > 0.0 && j <= k
    ensures Climb(Ups(n)) == n
    ensures
      var maximum := Rung(minimum, step, k);
      After(Rung(minimum, step, j), minimum, maximum, step, Ups(n)) == Rung(minimum, step, (j + n) % (k + 1))
  {
    if n > 0 {
      UpsWrap(minimum, step, k, j, n - 1);
      assert Ups(n)[..n - 1] == Ups(n - 1);
    }
    PressesWrap(minimum, step, k, j, Ups(n));
  }

  // ---------------------------------------------------------------- the decimals to show

  predicate IsDigit(c: char) {
    '0' <= c <= '9'
  }

  function Pow10(n: nat): (p: int)
    ensures p > 0
  {
    if n == 0 then 1 else 10 * Pow10(n - 1)
  }

  function Digit(c: char): (d: nat)
    requires IsDigit(c)
    ensures d <= 9 && (d == 0 <==> c == '0')
  {
    c as int - '0' as int
  }

  /** The number some digits write. */
  function Number(ds: seq<char>): (v: nat)
    requires forall c <- ds :: IsDigit(c)
  {
    if ds == [] then 0
    else
      assert ds[|ds| - 1] in ds;
      10 * Number(ds[..|ds| - 1]) + Digit(ds[|ds| - 1])
  }

  lemma NumberShows()
    ensures Number("0") == 0 && Number("250") == 250
  {
    assert "250"[..2] == "25" && "25"[..1] == "2" && "2"[..0] == "" == "0"[..0];
    assert Number("25") == 25;
  }

  lemma ModTimesTen(v: nat, d: nat, p: int)
    requires d <= 9 && p > 0
    ensures (10 * v + d) % (10 * p) == 10 * (v % p) + d
  {
    assert 10 * v + d == (10 * p) * (v / p) + (10 * (v % p) + d);
    DivModUnique(10 * v + d, 10 * p, v / p, 10 * (v % p) + d);
  }

  /** A number is divisible by 10^k exactly when its last `k` digits are zeros. */
  lemma {:induction false} TrailingZeros(ds: seq<char>, k: nat)
    requires (forall c <- ds :: IsDigit(c)) && k <= |ds|
    ensures Number(ds) % Pow10(k) == 0 <==> forall i | |ds| - k <= i < |ds| :: ds[i] == '0'
    decreases k
  {
    if k > 0 {
      var n := |ds| - 1;
      TrailingZeros(ds[..n], k - 1);
      assert ds[n] in ds;
      ModTimesTen(Number(ds[..n]), Digit(ds[n]), Pow10(k - 1));
      assert forall i | |ds| - k <= i < n :: ds[i] == ds[..n][i];
    }
  }

  /** The text "%.12f" gives: something, a point and twelve digits. */
  predicate FixedPoint(text: seq<char>) {
    && |text| >= 14
    && text[|text| - 13] == '.'
    && forall i | |text| - 12 <= i < |text| :: IsDigit(text[i])
  }

  function Fraction(text: seq<char>): (ds: seq<char>)
    requires FixedPoint(text)
    ensures |ds| == 12 && forall c <- ds :: IsDigit(c)
  {
    text[|text| - 12..]
  }

  /** `c` decimals show the fraction exactly. */
  predicate Shows(text: seq<char>, c: nat)
    requires FixedPoint(text) && c <= 12
  {
    Number(Fraction(text)) % Pow10(12 - c) == 0
  }

  lemma ShowsByDigits(text: seq<char>, c: nat)
    requires FixedPoint(text) && c <= 12
    ensures Shows(text, c) <==> forall i | |text| - 12 + c <= i < |text| :: text[i] == '0'
  {
    TrailingZeros(Fraction(text), 12 - c);
    assert forall i | 0 <= i < 12 :: Fraction(text)[i] == text[|text| - 12 + i];
  }

  /** The scan in `update`: the fewest decimals that show the step exactly. */
  method Precision(temp: array<char>, ghost text: seq<char>) returns (c: nat)
    requires |text| < temp.Length && temp[..|text|] == text && temp[|text|] == '\0'
    requires FixedPoint(text) && '\0' !in text
    ensures c <= 12 && Shows(text, c)
    ensures forall fewer | 0 <= fewer < c :: !Shows(text, fewer)
    ensures forall i | |text| - 12 + c <= i < |text| :: text[i] == '0'
    ensures c > 0 ==> text[|text| - 13 + c] != '0'
  {
    ghost var n := |text|;
    assert forall i | 0 <= i < n :: temp[i] == temp[..n][i] == text[i] && text[i] in text;
    c := 0;
    var sp := 0;
    while temp[sp] != '\0'
      invariant 0 <= sp <= n
      decreases n - sp
    {
      sp := sp + 1;
    }
    assert sp == n;
    sp := sp - 1;
    while sp > 0 && temp[sp] == '0'
      invariant n - 13 <= sp < n
      invariant forall i | sp < i < n :: text[i] == '0'
    {
      sp := sp - 1;
    }
    ghost var last := sp;
    while sp > 0 && IsDigit(temp[sp])
      invariant n - 13 <= sp <= last && c == last - sp
    {
      sp := sp - 1;
      c := c + 1;
    }
    ShowsByDigits(text, c);
    if c > 0 {
      ShowsByDigits(text, c - 1);
    }
    forall fewer | 0 <= fewer < c
      ensures !Shows(text, fewer)
    {
      ShowsByDigits(text, fewer);
    }
  }

  // ---------------------------------------------------------------- the widget

  class Fl_Spinner {
    var value: real
    var minimum: real
    var maximum: real
    var step: real

    constructor ()
      ensures value == 1.0 && minimum == 1.0 && maximum == 100.0 && step == 1.0
    {
      value, minimum, maximum, step := 1.0, 1.0, 100.0, 1.0;
    }

    /** The callback shared by the input field and the two buttons. */
    method SbCb(p: Press)
      modifies `value
      ensures value == Next(old(value), minimum, maximum, step, p)
      ensures p.Typed? && minimum <= p.v <= maximum ==> value == p.v
      ensures p.Typed? && p.v < minimum ==> value == minimum
      ensures p.Typed? && minimum <= maximum < p.v ==> value == maximum
      ensures p.Up? ==> value == if old(value) + step <= maximum then old(value) + step else minimum
      ensures p.Down? ==> value == if old(value) - step >= minimum then old(value) - step else maximum
    {
      match p {
        case Typed(v) =>
          if v < minimum {
            value := minimum;
          } else if v > maximum {
            value := maximum;
          } else {
            value := v;
          }
        case Up =>
          var v := value + step;
          if v > maximum {
            value := minimum;
          } else {
            value := v;
          }
        case Down =>
          var v := value - step;
          if v < minimum {
            value := maximum;
          } else {
            value := v;
          }
      }
    }
  }
}
