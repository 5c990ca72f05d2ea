/** bitlib with a 64-bit `lua_Integer`: numbers come in as integer-valued doubles, work happens
    on signed 64-bit words, and every result goes out as an unsigned 53-bit number. */
module Bitlib {
  import opened Bits
  import opened Wrappers

  const BIT_BITS: nat := 53
  const BIT_MAX := 0xf_ffff_ffff_ffff
  const BIT_MIN := -0x10_0000_0000_0000
  const BIT_UMAX := 0x1f_ffff_ffff_ffff
  const MODULUS := BIT_UMAX + 1

  type Word = x: int | -0x8000_0000_0000_0000 <= x < 0x8000_0000_0000_0000
  // Integers below 2^53 in magnitude, which a double holds exactly.
  type ExactDouble = x: int | -MODULUS < x < MODULUS
  type ShiftCount = n: nat | n < 64
  // A 53-bit machine word, lowest bit first.
  type Vector = v: seq<bool> | |v| == 53 witness Zeros(53)

  datatype Op = And | Or | Xor

  // ---------------------------------------------------------------- reading an argument

  /** C's remainder: it takes the sign of the dividend. */
  function Fmod(x: int, m: int): int
    requires m > 0
  {
    if x >= 0 then x % m else -(-x % m)
  }

  /** The representative of `x` modulo 2^53 among the signed 53-bit numbers. */
  function Signed(x: int): (y: int)
    ensures BIT_MIN <= y <= BIT_MAX && y % MODULUS == x % MODULUS
  {
    (x - BIT_MIN) % MODULUS + BIT_MIN
  }

  lemma SignedUnique(x: int, y: int)
    requires BIT_MIN <= y <= BIT_MAX && y % MODULUS == x % MODULUS
    ensures y == Signed(x)
  {
  }

  /** The reading macro. Its scratch variable is a double; giving it the type `ExactDouble`
      makes every assignment show that nothing is rounded. */
  method ToBit(x: int) returns (res: ExactDouble)
    ensures res == Signed(x)
  {
    res := Fmod(x, MODULUS);
    if res > BIT_MAX {
      res := res - BIT_UMAX;
      res := res - 1;
    } else if res < BIT_MIN {
      res := res + BIT_UMAX;
      res := res + 1;
    }
    SignedUnique(x, res);
  }

  // ---------------------------------------------------------------- the machine's operators

  function OnBits(op: Op, a: bool, b: bool): bool {
    match op
    case And => a && b
    case Or => a || b
    case Xor => a != b
  }

  function Zip(op: Op, a: seq<bool>, b: seq<bool>): (v: seq<bool>)
    requires |a| == |b|
    ensures |v| == |a| && forall i :: 0 <= i < |v| ==> v[i] == OnBits(op, a[i], b[i])
  {
    seq(|a|, i requires 0 <= i < |a| => OnBits(op, a[i], b[i]))
  }

  function Flip(a: seq<bool>): (v: seq<bool>)
    ensures |v| == |a| && forall i :: 0 <= i < |v| ==> v[i] == !a[i]
  {
    seq(|a|, i requires 0 <= i < |a| => !a[i])
  }

  /** Conversion to a 64-bit word wraps. */
  function ToWord(u: int): (w: Word)
    ensures w % 0x1_0000_0000_0000_0000 == u % 0x1_0000_0000_0000_0000
  {
    (u + 0x8000_0000_0000_0000) % 0x1_0000_0000_0000_0000 - 0x8000_0000_0000_0000
  }

  function WordOp(op: Op, a: Word, b: Word): Word {
    ToWord(Val(Zip(op, Vec(a, 64), Vec(b, 64))))
  }

  function Complement(a: Word): Word {
    ToWord(Val(Flip(Vec(a, 64))))
  }

  /** Masking with `BIT_UMAX`. */
  function Truncate(i: int): int {
    Val(Zip(And, Vec(i, 64), Vec(BIT_UMAX, 64)))
  }

  // ---------------------------------------------------------------- the library's functions

  function Cast(x: int): int {
    Truncate(Signed(x))
  }

  function BNot(x: int): int {
    Truncate(Complement(Signed(x)))
  }

  function Fold(op: Op, args: seq<int>): Word
    requires args != []
  {
    if |args| == 1 then Signed(args[0])
    else WordOp(op, Fold(op, args[..|args| - 1]), Signed(args[|args| - 1]))
  }

  /** `band`, `bor` and `bxor`; calling one with no argument is an error. */
  function Variadic(op: Op, args: seq<int>): Option<int> {
    if args == [] then None else Some(Truncate(Fold(op, args)))
  }

  function LShift(x: int, n: ShiftCount): int {
    Truncate(ToWord(Signed(x) * Pow2(n)))
  }

  function RShift(x: int, n: ShiftCount): int {
    Truncate(Truncate(Signed(x) % 0x1_0000_0000_0000_0000) / Pow2(n))
  }

  function ARShift(x: int, n: ShiftCount): int {
    Truncate(Signed(x) / Pow2(n))
  }

  /** The loop behind `band`, `bor` and `bxor`. */
  method VariadicLoop(op: Op, args: seq<int>) returns (r: Option<int>)
    ensures r == Variadic(op, args)
  {
    if |args| == 0 {
      return None;
    }
    var w: Word := ToBit(args[0]);
    var i := 1;
    while i < |args|
      invariant 1 <= i <= |args|
      invariant w == Fold(op, args[..i])
    {
      var f := ToBit(args[i]);
      w := WordOp(op, w, f);
      assert args[..i + 1][..i] == args[..i];
      i := i + 1;
    }
    assert args[..i] == args;
    r := Some(Truncate(w));
  }

  // ---------------------------------------------------------------- 64-bit work is 53-bit work

  function Bits53(x: int): Vector {
    Vec(x, BIT_BITS)
  }

  lemma BitsOfTruncate(i: int)
    ensures Truncate(i) == i % MODULUS
    ensures Bits53(Truncate(i)) == Bits53(i)
  {
    Pow2Constants();
    VecOfVal(Fill(true, 53));
    AllOnes(53);
    VecExtend(BIT_UMAX, 53, 11);
    var mask := Vec(BIT_UMAX, 64);
    assert mask == Fill(true, 53) + Zeros(11);
    var v := Zip(And, Vec(i, 64), mask);
    VecPrefix(i, 64, 53);
    assert v == Bits53(i) + Zeros(11);
    ValOfVec(i, 53);
    ValPadded(Bits53(i), 11);
    VecOfResidue(i, 53);
  }

  lemma {:induction false} AllOnes(n: nat)
    ensures Val(Fill(true, n)) == Pow2(n) - 1
  {
    if n > 0 {
      assert Fill(true, n)[1..] == Fill(true, n - 1);
      AllOnes(n - 1);
    }
  }

  lemma {:induction false} ValPadded(v: seq<bool>, n: nat)
    ensures Val(v + Zeros(n)) == Val(v)
  {
    if v != [] {
      assert (v + Zeros(n))[1..] == v[1..] + Zeros(n);
      ValPadded(v[1..], n);
    } else if n > 0 {
      assert (v + Zeros(n))[1..] == v + Zeros(n - 1);
      ValPadded(v, n - 1);
    }
  }

  lemma BitsOfSigned(x: int)
    ensures Bits53(Signed(x)) == Bits53(x)
  {
    Pow2Constants();
    VecCongruent(Signed(x), x, 53);
  }

  lemma BitsOfWord(v: seq<bool>)
    requires |v| == 64
    ensures Bits53(ToWord(Val(v))) == v[..53]
  {
    Pow2Constants();
    VecCongruent(ToWord(Val(v)), Val(v), 64);
    VecOfVal(v);
    VecPrefix(ToWord(Val(v)), 64, 53);
  }

  lemma BitsOfWordOp(op: Op, a: Word, b: Word)
    ensures Bits53(WordOp(op, a, b)) == Zip(op, Bits53(a), Bits53(b))
  {
    BitsOfWord(Zip(op, Vec(a, 64), Vec(b, 64)));
    VecPrefix(a, 64, 53);
    VecPrefix(b, 64, 53);
  }

  lemma BitsOfBNot(x: int)
    ensures Bits53(BNot(x)) == Flip(Bits53(x))
  {
    var a := Signed(x);
    BitsOfTruncate(Complement(a));
    BitsOfWord(Flip(Vec(a, 64)));
    VecPrefix(a, 64, 53);
    BitsOfSigned(x);
  }

  // ---------------------------------------------------------------- a 53-bit reference machine

  function VectorFold(op: Op, vs: seq<Vector>): Vector
    requires vs != []
  {
    if |vs| == 1 then vs[0] else Zip(op, VectorFold(op, vs[..|vs| - 1]), vs[|vs| - 1])
  }

  function VectorLeft(v: Vector, n: nat): Vector {
    (Zeros(n) + v)[..53]
  }

  function VectorRight(v: Vector, n: nat): Vector {
    (v + Zeros(n))[n..]
  }

  function VectorARight(v: Vector, n: nat): Vector {
    (v + Fill(v[52], n))[n..]
  }

  lemma {:induction false} FoldIsVectorFold(op: Op, args: seq<int>, vs: seq<Vector>)
    requires args != [] && |vs| == |args|
    requires forall i :: 0 <= i < |args| ==> vs[i] == Bits53(args[i])
    ensures Bits53(Fold(op, args)) == VectorFold(op, vs)
  {
    BitsOfSigned(args[|args| - 1]);
    if |args| > 1 {
      var n := |args| - 1;
      FoldIsVectorFold(op, args[..n], vs[..n]);
      BitsOfWordOp(op, Fold(op, args[..n]), Signed(args[n]));
    }
  }

  lemma BitsOfLShift(x: int, n: ShiftCount)
    ensures Bits53(LShift(x, n)) == VectorLeft(Bits53(x), n)
  {
    var y := Signed(x) * Pow2(n);
    Pow2Constants();
    BitsOfTruncate(ToWord(y));
    VecCongruent(ToWord(y), y, 64);
    VecPrefix(ToWord(y), 64, 53);
    VecPrefix(y, 64, 53);
    VecMul(Signed(x), n, 53);
    VecPrefix(y, 53 + n, 53);
    BitsOfSigned(x);
  }

  lemma BitsOfRShift(x: int, n: ShiftCount)
    ensures Bits53(RShift(x, n)) == VectorRight(Bits53(x), n)
  {
    var y := Truncate(Signed(x) % 0x1_0000_0000_0000_0000);
    Pow2Constants();
    BitsOfTruncate(Signed(x) % 0x1_0000_0000_0000_0000);
    VecOfResidue(Signed(x), 64);
    VecPrefix(Signed(x), 64, 53);
    VecPrefix(Signed(x) % 0x1_0000_0000_0000_0000, 64, 53);
    BitsOfSigned(x);
    BitsOfTruncate(y / Pow2(n));
    VecDiv(y, n, 53);
    VecExtend(y, 53, n);
  }

  lemma BitsOfARShift(x: int, n: ShiftCount)
    ensures Bits53(ARShift(x, n)) == VectorARight(Bits53(x), n)
  {
    var y := Signed(x);
    Pow2Constants();
    BitsOfTruncate(y / Pow2(n));
    VecDiv(y, n, 53);
    VecExtend(y, 52, 1);
    VecExtend(y, 53, n);
    BitsOfSigned(x);
  }

  // ---------------------------------------------------------------- nested calls

  /** A Lua expression built from calls of the library's functions. */
  datatype Expr =
    | Num(x: int)
    | CastCall(e: Expr)
    | NotCall(e: Expr)
    | OpCall(op: Op, args: seq<Expr>)
    | LeftCall(e: Expr, n: ShiftCount)
    | RightCall(e: Expr, n: ShiftCount)
    | ARightCall(e: Expr, n: ShiftCount)

  /** What the library computes: each call reads back the number the inner call pushed. */
  function Run(e: Expr): Option<int>
    decreases e, 0
  {
    match e
    case Num(x) => Some(x)
    case CastCall(e1) => Run(e1).Map(x => Cast(x))
    case NotCall(e1) => Run(e1).Map(x => BNot(x))
    case LeftCall(e1, n) => Run(e1).Map(x => LShift(x, n))
    case RightCall(e1, n) => Run(e1).Map(x => RShift(x, n))
    case ARightCall(e1, n) => Run(e1).Map(x => ARShift(x, n))
    case OpCall(op, args) =>
      match RunAll(args)
      case None => None
      case Some(xs) => Variadic(op, xs)
  }

  function RunAll(es: seq<Expr>): (r: Option<seq<int>>)
    ensures r.Some? ==> |r.value| == |es|
    decreases es, 0
  {
    if es == [] then Some([]) else
    match (Run(es[0]), RunAll(es[1..]))
    case (Some(x), Some(xs)) => Some([x] + xs)
    case _ => None
  }

  /** What a 53-bit machine computes: it never sees a sign, a 64-bit word or a truncation. */
  function Meaning(e: Expr): Option<Vector>
    decreases e, 0
  {
    match e
    case Num(x) => Some(Bits53(x))
    case CastCall(e1) => Meaning(e1)
    case NotCall(e1) => Meaning(e1).Map((v: Vector) => Flip(v))
    case LeftCall(e1, n) => Meaning(e1).Map((v: Vector) => VectorLeft(v, n))
    case RightCall(e1, n) => Meaning(e1).Map((v: Vector) => VectorRight(v, n))
    case ARightCall(e1, n) => Meaning(e1).Map((v: Vector) => VectorARight(v, n))
    case OpCall(op, args) =>
      match MeaningAll(args)
      case None => None
      case Some(vs) => if vs == [] then None else Some(VectorFold(op, vs))
  }

  function MeaningAll(es: seq<Expr>): Option<seq<Vector>>
    decreases es, 0
  {
    if es == [] then Some([]) else
    match (Meaning(es[0]), MeaningAll(es[1..]))
    case (Some(v), Some(vs)) => Some([v] + vs)
    case _ => None
  }

  /** The main theorem: for calls nested in any way, the library fails exactly where the 53-bit
      machine does and otherwise pushes the unsigned value of the machine's result. */
  lemma {:induction false} RunIsMeaning(e: Expr)
    ensures Run(e).None? <==> Meaning(e).None?
    ensures Run(e).Some? ==> Bits53(Run(e).value) == Meaning(e).value
    ensures Run(e).Some? && !e.Num? ==> Run(e).value == Val(Meaning(e).value)
    decreases e, 0
  {
    if e.OpCall? {
      RunAllIsMeaningAll(e.args);
      if RunAll(e.args).Some? && e.args != [] {
        var xs := RunAll(e.args).value;
        FoldIsVectorFold(e.op, xs, MeaningAll(e.args).value);
        BitsOfTruncate(Fold(e.op, xs));
        InRange(Fold(e.op, xs));
      }
    } else if !e.Num? {
      RunIsMeaning(e.e);
      if Run(e.e).Some? {
        var x := Run(e.e).value;
        match e {
          case CastCall(_) => BitsOfTruncate(Signed(x)); BitsOfSigned(x); InRange(Signed(x));
          case NotCall(_) => BitsOfBNot(x); InRange(Complement(Signed(x)));
          case LeftCall(_, n) => BitsOfLShift(x, n); InRange(ToWord(Signed(x) * Pow2(n)));
          case RightCall(_, n) =>
            BitsOfRShift(x, n);
            InRange(Truncate(Signed(x) % 0x1_0000_0000_0000_0000) / Pow2(n));
          case ARightCall(_, n) => BitsOfARShift(x, n); InRange(Signed(x) / Pow2(n));
        }
      }
    }
  }

  lemma {:induction false} RunAllIsMeaningAll(es: seq<Expr>)
    ensures RunAll(es).None? <==> MeaningAll(es).None?
    ensures RunAll(es).Some? ==>
      && |MeaningAll(es).value| == |es|
      && forall i :: 0 <= i < |es| ==> MeaningAll(es).value[i] == Bits53(RunAll(es).value[i])
    decreases es, 0
  {
    if es != [] {
      RunIsMeaning(es[0]);
      RunAllIsMeaningAll(es[1..]);
    }
  }

  /** A pushed number is determined by its 53 bits. */
  lemma InRange(i: int)
    ensures 0 <= Truncate(i) < MODULUS
    ensures Truncate(i) == Val(Bits53(Truncate(i)))
  {
    Pow2Constants();
    BitsOfTruncate(i);
    ValOfVec(Truncate(i), 53);
  }

  lemma SameBitsSameNumber(i: int, j: int)
    requires Bits53(Truncate(i)) == Bits53(Truncate(j))
    ensures Truncate(i) == Truncate(j)
  {
    InRange(i);
    InRange(j);
  }

  // ---------------------------------------------------------------- one call, bit by bit

  function Rows(args: seq<int>): (vs: seq<Vector>)
    ensures |vs| == |args| && forall i :: 0 <= i < |vs| ==> vs[i] == Bits53(args[i])
  {
    seq(|args|, i requires 0 <= i < |args| => Bits53(args[i]))
  }

  /** How many of the vectors have bit `k` set. */
  function Count(vs: seq<Vector>, k: nat): (c: nat)
    requires k < 53
    ensures c <= |vs|
  {
    if vs == [] then 0
    else Count(vs[..|vs| - 1], k) + if vs[|vs| - 1][k] then 1 else 0
  }

  /** Set in all of them, in some, or in an odd number of them. */
  predicate Tally(op: Op, vs: seq<Vector>, k: nat)
    requires k < 53
  {
    match op
    case And => Count(vs, k) == |vs|
    case Or => Count(vs, k) > 0
    case Xor => Count(vs, k) % 2 == 1
  }

  lemma {:induction false} VectorFoldByBits(op: Op, vs: seq<Vector>, k: nat)
    requires vs != [] && k < 53
    ensures VectorFold(op, vs)[k] == Tally(op, vs, k)
  {
    var n := |vs| - 1;
    if n > 0 {
      VectorFoldByBits(op, vs[..n], k);
    }
  }

  lemma VariadicIsVectorFold(op: Op, args: seq<int>)
    requires args != []
    ensures Bits53(Variadic(op, args).value) == VectorFold(op, Rows(args))
  {
    FoldIsVectorFold(op, args, Rows(args));
    BitsOfTruncate(Fold(op, args));
  }

  /** A call of `band`, `bor` or `bxor`, bit by bit. */
  lemma VariadicByBits(op: Op, args: seq<int>, k: nat)
    requires args != [] && k < 53
    ensures 0 <= Variadic(op, args).value < MODULUS
    ensures Bits53(Variadic(op, args).value)[k] == Tally(op, Rows(args), k)
  {
    InRange(Fold(op, args));
    VariadicIsVectorFold(op, args);
    VectorFoldByBits(op, Rows(args), k);
  }

  lemma VariadicEqual(op: Op, a: seq<int>, b: seq<int>)
    requires a != [] && b != []
    requires forall k | 0 <= k < 53 :: Tally(op, Rows(a), k) == Tally(op, Rows(b), k)
    ensures Variadic(op, a) == Variadic(op, b)
  {
    forall k | 0 <= k < 53
      ensures VectorFold(op, Rows(a))[k] == VectorFold(op, Rows(b))[k]
    {
      VectorFoldByBits(op, Rows(a), k);
      VectorFoldByBits(op, Rows(b), k);
    }
    assert VectorFold(op, Rows(a)) == VectorFold(op, Rows(b));
    VariadicIsVectorFold(op, a);
    VariadicIsVectorFold(op, b);
    SameBitsSameNumber(Fold(op, a), Fold(op, b));
  }

  lemma {:induction false} CountConcat(a: seq<Vector>, b: seq<Vector>, k: nat)
    requires k < 53
    ensures Count(a + b, k) == Count(a, k) + Count(b, k)
  {
    if b == [] {
      assert a + b == a;
    } else {
      var n := |b| - 1;
      CountConcat(a, b[..n], k);
      assert (a + b)[..|a| + n] == a + b[..n];
    }
  }

  lemma RowsConcat(a: seq<int>, b: seq<int>)
    ensures Rows(a + b) == Rows(a) + Rows(b)
  {
  }

  lemma RowsThree(a: seq<int>, b: seq<int>, c: seq<int>)
    ensures Rows(a + b + c) == Rows(a) + Rows(b) + Rows(c)
  {
    RowsConcat(a, b);
    RowsConcat(a + b, c);
  }

  lemma {:induction false} CountPermuted(a: seq<int>, b: seq<int>, k: nat)
    requires k < 53 && multiset(a) == multiset(b)
    ensures Count(Rows(a), k) == Count(Rows(b), k)
    decreases |a|
  {
    assert |a| == |multiset(a)| && |b| == |multiset(b)|;
    if a != [] {
      var n := |a| - 1;
      var x := a[n];
      assert a == a[..n] + [x];
      assert x in multiset(b);
      var i :| 0 <= i < |b| && b[i] == x;
      var rest := b[..i] + b[i + 1..];
      assert b == b[..i] + [x] + b[i + 1..];
      WithoutOne(a[..n], [], x);
      WithoutOne(b[..i], b[i + 1..], x);
      assert a[..n] + [x] + [] == a && a[..n] + [] == a[..n];
      CountPermuted(a[..n], rest, k);
      CountSplit(a[..n], [], x, k);
      CountSplit(b[..i], b[i + 1..], x, k);
    }
  }

  lemma WithoutOne(a: seq<int>, b: seq<int>, x: int)
    ensures multiset(a + b) == multiset(a + [x] + b) - multiset{x}
  {
    assert multiset(a + [x] + b) == multiset(a) + multiset{x} + multiset(b);
  }

  lemma CountSplit(a: seq<int>, b: seq<int>, x: int, k: nat)
    requires k < 53
    ensures Count(Rows(a + [x] + b), k) == Count(Rows(a + b), k) + Count([Bits53(x)], k)
  {
    RowsConcat(a, b);
    RowsConcat(a, [x]);
    RowsConcat(a + [x], b);
    assert Rows([x]) == [Bits53(x)];
    CountConcat(Rows(a), Rows(b), k);
    CountConcat(Rows(a), Rows([x]), k);
    CountConcat(Rows(a) + Rows([x]), Rows(b), k);
  }

  /** The order of the arguments does not matter. */
  lemma VariadicUnordered(op: Op, a: seq<int>, b: seq<int>)
    requires multiset(a) == multiset(b)
    ensures Variadic(op, a) == Variadic(op, b)
  {
    assert |a| == |multiset(a)| && |b| == |multiset(b)|;
    if a != [] {
      forall k | 0 <= k < 53
        ensures Tally(op, Rows(a), k) == Tally(op, Rows(b), k)
      {
        CountPermuted(a, b, k);
      }
      VariadicEqual(op, a, b);
    }
  }

  /** Any run of arguments may be computed by a call of its own. */
  lemma VariadicNested(op: Op, a: seq<int>, b: seq<int>, c: seq<int>)
    requires b != []
    ensures Variadic(op, a + [Variadic(op, b).value] + c) == Variadic(op, a + b + c)
  {
    var r := Variadic(op, b).value;
    RowsThree(a, [r], c);
    RowsThree(a, b, c);
    assert Rows([r]) == [Bits53(r)];
    VariadicIsVectorFold(op, b);
    forall k | 0 <= k < 53
      ensures Tally(op, Rows(a + [r] + c), k) == Tally(op, Rows(a + b + c), k)
    {
      VectorFoldByBits(op, Rows(b), k);
      TallyNested(op, Rows(a), Rows(b), Rows(c), Bits53(r), k);
    }
    VariadicEqual(op, a + [r] + c, a + b + c);
  }

  lemma CountOne(r: Vector, k: nat)
    requires k < 53
    ensures Count([r], k) == if r[k] then 1 else 0
  {
    assert [r][..0] == [];
  }

  lemma CountThree(a: seq<Vector>, b: seq<Vector>, c: seq<Vector>, k: nat)
    requires k < 53
    ensures Count(a + b + c, k) == Count(a, k) + Count(b, k) + Count(c, k)
  {
    CountConcat(a, b, k);
    CountConcat(a + b, c, k);
  }

  lemma TallyNested(op: Op, a: seq<Vector>, b: seq<Vector>, c: seq<Vector>, r: Vector, k: nat)
    requires b != [] && k < 53 && r[k] == Tally(op, b, k)
    ensures Tally(op, a + [r] + c, k) == Tally(op, a + b + c, k)
  {
    CountThree(a, [r], c, k);
    CountOne(r, k);
    CountThree(a, b, c, k);
  }

  // ---------------------------------------------------------------- shifts as arithmetic

  lemma LShiftIsProduct(x: int, n: ShiftCount)
    ensures LShift(x, n) == (x * Pow2(n)) % MODULUS
  {
    Pow2Constants();
    BitsOfLShift(x, n);
    VecMul(x, n, 53);
    VecPrefix(x * Pow2(n), 53 + n, 53);
    InRange(ToWord(Signed(x) * Pow2(n)));
    ValOfVec(x * Pow2(n), 53);
  }

  lemma RShiftIsQuotient(x: int, n: ShiftCount)
    ensures RShift(x, n) == (x % MODULUS) / Pow2(n)
  {
    var y := x % MODULUS;
    var q := y / Pow2(n);
    TruncateUnsigned(x);
    BitsOfTruncate(q);
    QuotientSmaller(y, Pow2(n));
    DivModUnique(q, MODULUS, 0, q);
  }

  /** Converting to unsigned before masking changes nothing. */
  lemma TruncateUnsigned(x: int)
    ensures Truncate(Signed(x) % 0x1_0000_0000_0000_0000) == x % MODULUS
  {
    BitsOfTruncate(Signed(x) % 0x1_0000_0000_0000_0000);
    Pow2Constants();
    ModOfMod(Signed(x), 53, 11);
  }

  lemma ARShiftIsFloor(x: int, n: ShiftCount)
    ensures ARShift(x, n) == (Signed(x) / Pow2(n)) % MODULUS
  {
    BitsOfTruncate(Signed(x) / Pow2(n));
  }

  /** Two shifts in a row are one shift; `arshift` finds its sign again in the unsigned number
      the inner call pushed. */
  lemma LShiftsCompose(x: int, a: ShiftCount, b: ShiftCount)
    requires a + b < 64
    ensures LShift(LShift(x, a), b) == LShift(x, a + b)
  {
    VectorLeftCompose(Bits53(x), a, b);
    LShiftValue(x, a + b);
    LShiftValue(x, a);
    LShiftValue(LShift(x, a), b);
  }

  lemma RShiftsCompose(x: int, a: ShiftCount, b: ShiftCount)
    requires a + b < 64
    ensures RShift(RShift(x, a), b) == RShift(x, a + b)
  {
    VectorRightCompose(Bits53(x), a, b);
    RShiftValue(x, a + b);
    RShiftValue(x, a);
    RShiftValue(RShift(x, a), b);
  }

  lemma ARShiftsCompose(x: int, a: ShiftCount, b: ShiftCount)
    requires a + b < 64
    ensures ARShift(ARShift(x, a), b) == ARShift(x, a + b)
  {
    var y := ARShift(x, a);
    ARShiftValue(x, a + b);
    ARShiftValue(x, a);
    ARShiftValue(y, b);
    VectorARightCompose(Bits53(x), a, b);
    assert VectorARight(Bits53(y), b) == VectorARight(Bits53(x), a + b);
  }

  lemma VectorLeftCompose(v: Vector, a: nat, b: nat)
    ensures VectorLeft(VectorLeft(v, a), b) == VectorLeft(v, a + b)
  {
  }

  lemma VectorRightCompose(v: Vector, a: nat, b: nat)
    ensures VectorRight(VectorRight(v, a), b) == VectorRight(v, a + b)
  {
  }

  lemma VectorARightCompose(v: Vector, a: nat, b: nat)
    ensures VectorARight(VectorARight(v, a), b) == VectorARight(v, a + b)
  {
  }

  lemma LShiftValue(x: int, n: ShiftCount)
    ensures LShift(x, n) == Val(VectorLeft(Bits53(x), n))
    ensures Bits53(LShift(x, n)) == VectorLeft(Bits53(x), n)
  {
    BitsOfLShift(x, n);
    InRange(ToWord(Signed(x) * Pow2(n)));
  }

  lemma RShiftValue(x: int, n: ShiftCount)
    ensures RShift(x, n) == Val(VectorRight(Bits53(x), n))
    ensures Bits53(RShift(x, n)) == VectorRight(Bits53(x), n)
  {
    BitsOfRShift(x, n);
    InRange(Truncate(Signed(x) % 0x1_0000_0000_0000_0000) / Pow2(n));
  }

  lemma ARShiftValue(x: int, n: ShiftCount)
    ensures ARShift(x, n) == Val(VectorARight(Bits53(x), n))
    ensures Bits53(ARShift(x, n)) == VectorARight(Bits53(x), n)
  {
    BitsOfARShift(x, n);
    InRange(Signed(x) / Pow2(n));
  }

  // ---------------------------------------------------------------- laws across calls

  lemma CastIsResidue(x: int)
    ensures Cast(x) == x % MODULUS
  {
    BitsOfTruncate(Signed(x));
  }

  lemma CastTwice(x: int)
    ensures Cast(Cast(x)) == Cast(x)
  {
    CastIsResidue(x);
    CastIsResidue(Cast(x));
    InRange(Signed(x));
    DivModUnique(Cast(x), MODULUS, 0, Cast(x));
  }

  lemma NotTwice(x: int)
    ensures BNot(BNot(x)) == Cast(x)
  {
    BitsOfBNot(x);
    BitsOfBNot(BNot(x));
    assert Flip(Flip(Bits53(x))) == Bits53(x);
    BitsOfSigned(x);
    BitsOfTruncate(Signed(x));
    SameBitsSameNumber(Complement(Signed(BNot(x))), Signed(x));
  }

  lemma NotIsMinus(x: int)
    ensures BNot(x) == (-1 - x) % MODULUS
  {
    Pow2Constants();
    BitsOfBNot(x);
    FlipIsMinus(x, 53);
    InRange(Complement(Signed(x)));
    ValOfVec(-1 - x, 53);
  }

  lemma {:induction false} FlipIsMinus(x: int, w: nat)
    ensures Flip(Vec(x, w)) == Vec(-1 - x, w)
    decreases w
  {
    if w > 0 {
      FlipIsMinus(x / 2, w - 1);
      assert (-1 - x) / 2 == -1 - x / 2;
      assert Flip(Vec(x, w)) == [x % 2 == 0] + Flip(Vec(x / 2, w - 1));
    }
  }

  function Nots(args: seq<int>): (r: seq<int>)
    ensures |r| == |args| && forall i :: 0 <= i < |r| ==> r[i] == BNot(args[i])
  {
    seq(|args|, i requires 0 <= i < |args| => BNot(args[i]))
  }

  lemma {:induction false} CountNots(vs: seq<Vector>, ws: seq<Vector>, k: nat)
    requires k < 53 && |vs| == |ws|
    requires forall i :: 0 <= i < |vs| ==> ws[i] == Flip(vs[i])
    ensures Count(ws, k) == |vs| - Count(vs, k)
  {
    if vs != [] {
      var n := |vs| - 1;
      CountNots(vs[..n], ws[..n], k);
    }
  }

  /** De Morgan's laws, each side made of separate library calls. */
  lemma DeMorgan(args: seq<int>)
    requires args != []
    ensures BNot(Variadic(And, args).value) == Variadic(Or, Nots(args)).value
    ensures BNot(Variadic(Or, args).value) == Variadic(And, Nots(args)).value
  {
    DeMorganHalf(And, Or, args);
    DeMorganHalf(Or, And, args);
  }

  lemma DeMorganHalf(op: Op, dual: Op, args: seq<int>)
    requires args != [] && (op, dual) in {(And, Or), (Or, And)}
    ensures BNot(Variadic(op, args).value) == Variadic(dual, Nots(args)).value
  {
    var a, b := Variadic(op, args).value, Variadic(dual, Nots(args)).value;
    BitsOfBNot(a);
    forall i | 0 <= i < |args|
      ensures Rows(Nots(args))[i] == Flip(Rows(args)[i])
    {
      BitsOfBNot(args[i]);
    }
    forall k | 0 <= k < 53
      ensures Bits53(BNot(a))[k] == Bits53(b)[k]
    {
      VariadicByBits(op, args, k);
      VariadicByBits(dual, Nots(args), k);
      CountNots(Rows(args), Rows(Nots(args)), k);
    }
    assert Bits53(BNot(a)) == Bits53(b);
    SameBitsSameNumber(Complement(Signed(a)), Fold(dual, Nots(args)));
  }
}
