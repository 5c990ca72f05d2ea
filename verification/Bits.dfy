/** Two's complement words as vectors of bits, least significant bit first.

    Dafny's `/` and `%` by a positive divisor round towards minus infinity, so `x % 2` is the
    lowest bit and `x / 2` the arithmetic shift of any integer, negative ones included. */
module Bits {

  function Pow2(n: nat): (p: int)
    ensures p > 0
  {
    if n == 0 then 1 else 2 * Pow2(n - 1)
  }

  lemma {:induction false} Pow2Add(m: nat, n: nat)
    ensures Pow2(m + n) == Pow2(m) * Pow2(n)
  {
    if m > 0 {
      Pow2Add(m - 1, n);
    }
  }

  lemma Pow2Sixteens()
    ensures Pow2(16) == 0x1_0000 && Pow2(32) == 0x1_0000_0000 && Pow2(48) == 0x1_0000_0000_0000
  {
    assert Pow2(4) == 0x10;
    Pow2Add(4, 4);
    Pow2Add(8, 8);
    Pow2Add(16, 16);
    Pow2Add(32, 16);
  }

  lemma Pow2Constants()
    ensures Pow2(52) == 0x10_0000_0000_0000
    ensures Pow2(53) == 0x20_0000_0000_0000
    ensures Pow2(63) == 0x8000_0000_0000_0000
    ensures Pow2(64) == 0x1_0000_0000_0000_0000
  {
    Pow2Sixteens();
  }

  /** The low `w` bits of `x`. */
  function Vec(x: int, w: nat): (v: seq<bool>)
    ensures |v| == w
    decreases w, x
  {
    if w == 0 then [] else [x % 2 == 1] + Vec(x / 2, w - 1)
  }

  function Zeros(n: nat): (v: seq<bool>)
    ensures |v| == n && forall i :: 0 <= i < n ==> !v[i]
  {
    seq(n, i => false)
  }

  /** The unsigned number a bit vector writes. */
  function Val(v: seq<bool>): (n: int)
    ensures n >= 0
  {
    if v == [] then 0 else (if v[0] then 1 else 0) + 2 * Val(v[1..])
  }

  /** A vector is what its value writes, and the value fits in the vector's width. */
  lemma {:induction false} VecOfVal(v: seq<bool>)
    ensures Vec(Val(v), |v|) == v
    ensures Val(v) < Pow2(|v|)
  {
    if v != [] {
      VecOfVal(v[1..]);
      assert v == [v[0]] + v[1..];
    }
  }

  lemma ModTwice(x: int, p: int)
    requires p > 0
    ensures x % (2 * p) == x % 2 + 2 * ((x / 2) % p)
  {
    var q, r := (x / 2) / p, (x / 2) % p;
    assert x / 2 == p * q + r;
    assert x == (2 * p) * q + (2 * r + x % 2);
    DivModUnique(x, 2 * p, q, 2 * r + x % 2);
  }

  lemma DivModUnique(x: int, d: int, q: int, r: int)
    requires 0 <= r < d && x == d * q + r
    ensures x / d == q && x % d == r
  {
    var k := x / d - q;
    assert d * k == d * (x / d) - d * q;
    MulGrows(d, k);
  }

  lemma MulGrows(d: int, k: int)
    requires d > 0
    ensures k >= 1 ==> d * k >= d
    ensures k <= -1 ==> d * k <= -d
  {
    if k >= 1 {
      assert d * k == d + d * (k - 1);
    } else if k <= -1 {
      assert d * k == -d - d * (-1 - k);
    }
  }

  lemma ModOfProduct(x: int, a: int, b: int)
    requires a > 0 && b > 0
    ensures a * b > 0 && (x % (a * b)) % a == x % a
  {
    MulGrows(a, b);
    var q, r := x / (a * b), x % (a * b);
    var k, t := r / a, r % a;
    assert (a * b) * q == a * (b * q);
    assert a * (b * q + k) == a * (b * q) + a * k;
    DivModUnique(x, a, b * q + k, t);
  }

  lemma ModOfMod(x: int, m: nat, n: nat)
    ensures (x % Pow2(m + n)) % Pow2(m) == x % Pow2(m)
  {
    Pow2Add(m, n);
    ModOfProduct(x, Pow2(m), Pow2(n));
  }

  lemma QuotientSmaller(y: int, d: int)
    requires y >= 0 && d > 0
    ensures 0 <= y / d <= y
  {
    var q := y / d;
    MulGrows(d, q);
    if q > 0 {
      MulGrows(q, d);
      assert q * d >= q by {
        assert q * d == q + q * (d - 1);
        if d > 1 { MulGrows(q, d - 1); }
      }
    }
  }

  /** The low `w` bits write the residue modulo 2^w. */
  lemma {:induction false} ValOfVec(x: int, w: nat)
    ensures Val(Vec(x, w)) == x % Pow2(w)
    decreases w
  {
    if w > 0 {
      ValOfVec(x / 2, w - 1);
      ModTwice(x, Pow2(w - 1));
      assert Vec(x, w)[1..] == Vec(x / 2, w - 1);
    }
  }

  /** Two numbers have the same low `w` bits exactly when they agree modulo 2^w. */
  lemma VecCongruent(x: int, y: int, w: nat)
    ensures Vec(x, w) == Vec(y, w) <==> x % Pow2(w) == y % Pow2(w)
  {
    ValOfVec(x, w);
    ValOfVec(y, w);
    if x % Pow2(w) == y % Pow2(w) {
      VecOfVal(Vec(x, w));
      VecOfVal(Vec(y, w));
    }
  }

  lemma VecOfResidue(x: int, w: nat)
    ensures Vec(x % Pow2(w), w) == Vec(x, w)
  {
    DivModUnique(x % Pow2(w), Pow2(w), 0, x % Pow2(w));
    VecCongruent(x % Pow2(w), x, w);
  }

  lemma {:induction false} VecPrefix(x: int, w: nat, m: nat)
    requires m <= w
    ensures Vec(x, w)[..m] == Vec(x, m)
    decreases m
  {
    if m > 0 {
      VecPrefix(x / 2, w - 1, m - 1);
    }
  }

  /** Dividing by 2^n drops the low `n` bits. */
  lemma {:induction false} VecDiv(x: int, n: nat, w: nat)
    ensures Vec(x / Pow2(n), w) == Vec(x, w + n)[n..]
    decreases n
  {
    if n == 0 {
      assert x / 1 == x;
    } else {
      VecDiv(x / 2, n - 1, w);
      var p := Pow2(n - 1);
      var q, r := (x / 2) / p, (x / 2) % p;
      assert x == (2 * p) * q + (2 * r + x % 2);
      DivModUnique(x, 2 * p, q, 2 * r + x % 2);
      assert Vec(x, w + n)[n..] == Vec(x / 2, w + n - 1)[n - 1..];
    }
  }

  /** Multiplying by 2^n puts `n` zero bits below. */
  lemma {:induction false} VecMul(x: int, n: nat, w: nat)
    ensures Vec(x * Pow2(n), w + n) == Zeros(n) + Vec(x, w)
  {
    if n == 0 {
      assert x * 1 == x;
      assert Zeros(0) + Vec(x, w) == Vec(x, w);
    } else {
      VecMul(x, n - 1, w);
      var y := x * Pow2(n - 1);
      assert x * Pow2(n) == 2 * y;
      assert Vec(2 * y, w + n) == [false] + Vec(y, w + n - 1);
      assert Zeros(n) == [false] + Zeros(n - 1);
    }
  }

  /** `n` copies of a bit: what lies above the sign bit of a number that fits. */
  function Fill(b: bool, n: nat): (v: seq<bool>)
    ensures |v| == n && forall i :: 0 <= i < n ==> v[i] == b
  {
    seq(n, i => b)
  }

  /** Above the width of a non-negative number that fits there are only zeros, above the
      width of a signed number that fits only copies of its sign. */
  lemma {:induction false} VecExtend(x: int, w: nat, n: nat)
    requires -Pow2(w) <= x < Pow2(w)
    ensures Vec(x, w + n) == Vec(x, w) + Fill(x < 0, n)
    decreases w, n
  {
    if w > 0 {
      VecExtend(x / 2, w - 1, n);
    } else if n > 0 {
      VecExtend(x, 0, n - 1);
      assert x / 2 == x;
      assert Fill(x < 0, n) == [x < 0] + Fill(x < 0, n - 1);
    }
  }
}
