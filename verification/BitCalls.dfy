/** What `band`, `bor` and `bxor` compute, bit by bit in the numbers themselves. */
module BitCalls {
  import opened Bits
  import opened Bitlib
  import opened Wrappers

  lemma HalfOfHalves(x: int, p: int)
    requires p > 0
    ensures x / (2 * p) == (x / 2) / p
  {
    var q, r := (x / 2) / p, (x / 2) % p;
    assert x / 2 == p * q + r;
    DivModUnique(x, 2 * p, q, 2 * r + x % 2);
  }

  lemma {:induction false} VecAt(x: int, w: nat, k: nat)
    requires k < w
    ensures Vec(x, w)[k] <==> (x / Pow2(k)) % 2 == 1
    decreases k
  {
    if k > 0 {
      VecAt(x / 2, w - 1, k - 1);
      HalfOfHalves(x, Pow2(k - 1));
    }
  }

  predicate Bit(x: int, k: nat) {
    (x / Pow2(k)) % 2 == 1
  }

  lemma CountNext(args: seq<int>, k: nat, m: nat)
    requires k < 53 && m < |args|
    ensures Count(Rows(args[..m + 1]), k) == Count(Rows(args[..m]), k) + if Bit(args[m], k) then 1 else 0
  {
    VecAt(args[m], 53, k);
    assert args[..m + 1][..m] == args[..m];
    assert Rows(args[..m + 1])[..m] == Rows(args[..m]);
  }

  lemma PlacesNext(args: seq<int>, k: nat, m: nat)
    requires 0 < m <= |args|
    ensures |set i | 0 <= i < m && Bit(args[i], k)|
         == |set i | 0 <= i < m - 1 && Bit(args[i], k)| + if Bit(args[m - 1], k) then 1 else 0
  {
    var front := set i | 0 <= i < m - 1 && Bit(args[i], k);
    assert (set i | 0 <= i < m && Bit(args[i], k)) == if Bit(args[m - 1], k) then front + {m - 1} else front;
  }

  /** How many of the arguments have the bit set. */
  lemma {:induction false} CountIsSize(args: seq<int>, k: nat, m: nat)
    requires k < 53 && m <= |args|
    ensures Count(Rows(args[..m]), k) == |set i | 0 <= i < m && Bit(args[i], k)|
    decreases m
  {
    var places := set i | 0 <= i < m && Bit(args[i], k);
    if m == 0 {
      assert places == {};
    } else {
      CountIsSize(args, k, m - 1);
      CountNext(args, k, m - 1);
      PlacesNext(args, k, m);
    }
  }

  lemma ResultBit(op: Op, args: seq<int>, k: nat)
    requires args != [] && k < 53
    ensures Bit(Variadic(op, args).value, k) <==> Tally(op, Rows(args), k)
    ensures Count(Rows(args), k) == |set i | 0 <= i < |args| && Bit(args[i], k)|
  {
    VariadicByBits(op, args, k);
    VecAt(Variadic(op, args).value, 53, k);
    CountIsSize(args, k, |args|);
    assert args[..|args|] == args;
  }

  /** A bit of the result of `band` is set if it is set in every argument, of `bor` if in one, of
      `bxor` if in an odd number of them. */
  lemma VariadicMeans(args: seq<int>, k: nat)
    requires args != [] && k < 53
    ensures
      var n := |set i | 0 <= i < |args| && (args[i] / Pow2(k)) % 2 == 1|;
      && ((Variadic(And, args).value / Pow2(k)) % 2 == 1 <==> n == |args|)
      && ((Variadic(Or, args).value / Pow2(k)) % 2 == 1 <==> n > 0)
      && ((Variadic(Xor, args).value / Pow2(k)) % 2 == 1 <==> n % 2 == 1)
  {
    ResultBit(And, args, k);
    ResultBit(Or, args, k);
    ResultBit(Xor, args, k);
    assert (set i | 0 <= i < |args| && (args[i] / Pow2(k)) % 2 == 1) == set i | 0 <= i < |args| && Bit(args[i], k);
  }

  /** Without arguments there is no result. */
  lemma VariadicOfNone(op: Op)
    ensures Variadic(op, []) == None
  {
  }
}
