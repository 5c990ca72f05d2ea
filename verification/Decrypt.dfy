/** The decoder for scripts frozen into the executable. A byte is shifted by a key that cycles
    through 3..7; a zero byte announces that the next byte stands for itself. */
module Decrypt {

  const SIMCRYPT_OFFSET := 3

  type Byte = b: int | 0 <= b < 256

  /** The key at step `i`: the counter the decoder steps. */
  function Key(i: nat): (k: Byte)
    ensures 3 <= k <= 7
  {
    if i == 0 || Key(i - 1) > SIMCRYPT_OFFSET * 2 then SIMCRYPT_OFFSET else Key(i - 1) + 1
  }

  lemma {:induction false} KeyCycles(i: nat)
    ensures Key(i) == 3 + i % 5
  {
    if i > 0 {
      KeyCycles(i - 1);
    }
  }

  /** Storing the sum or difference of two bytes in an `unsigned char`. */
  function Wrap(x: int): Byte
    requires -256 <= x < 512
  {
    if x < 0 then x + 256 else if x >= 256 then x - 256 else x
  }

  lemma WrapIsMod(x: int)
    requires -256 <= x < 512
    ensures Wrap(x) == x % 256
  {
  }

  // ---------------------------------------------------------------- decoding out of place

  /** Where step `n` starts to read: an escape takes two bytes, any other code one. */
  function Pos(s: seq<Byte>, n: nat): nat {
    if n == 0 then 0 else
    var r := Pos(s, n - 1);
    if r < |s| && s[r] == 0 then r + 2 else r + 1
  }

  /** `s` holds all that `n` steps read. */
  predicate LongEnough(s: seq<Byte>, n: nat) {
    Pos(s, n) <= |s|
  }

  lemma {:induction false} PosGrows(s: seq<Byte>, n: nat, m: nat)
    requires n < m
    ensures Pos(s, n) < Pos(s, n + 1) <= Pos(s, m)
    decreases m
  {
    if n + 1 < m {
      PosGrows(s, n, m - 1);
    }
  }

  /** The byte step `i` produces (0 stands for a read behind the end). */
  function ByteAt(s: seq<Byte>, i: nat): Byte {
    var r := Pos(s, i);
    if r < |s| && s[r] != 0 then Wrap(s[r] + Key(i)) else if r + 1 < |s| then s[r + 1] else 0
  }

  /** The bytes of the first `n` steps. */
  function Decode(s: seq<Byte>, n: nat): (out: seq<Byte>)
    requires LongEnough(s, n)
    ensures |out| == n && forall i :: 0 <= i < n ==> out[i] == ByteAt(s, i)
  {
    seq(n, i requires 0 <= i => ByteAt(s, i))
  }

  /** What step `i` reads at `r`, and where the next one goes on. */
  lemma Turn(input: seq<Byte>, i: nat, r: nat, len: nat)
    requires LongEnough(input, len) && i < len && r == Pos(input, i)
    ensures r < Pos(input, i + 1) <= |input|
    ensures
      if input[r] < 1 then Pos(input, i + 1) == r + 2 && input[r + 1] == ByteAt(input, i)
      else Pos(input, i + 1) == r + 1 && Wrap(input[r] + Key(i)) == ByteAt(input, i)
  {
    PosGrows(input, i, len);
  }

  /** Decoding in place. Bytes are read at `i + offset` and written at `i`, so what is still to
      be read has not been overwritten. */
  method Simdecrypt(s: array<Byte>, len: nat) returns (i: nat, ghost escapes: nat)
    requires LongEnough(s[..], len)
    modifies s
    ensures i == len <= s.Length
    ensures s[..len] == Decode(old(s[..]), len)
    ensures s[len..] == old(s[len..])
    ensures len + escapes == Pos(old(s[..]), len)
  {
    ghost var input := s[..];
    var n := SIMCRYPT_OFFSET;
    var offset := 0;
    i := 0;
    while i < len
      invariant 0 <= i <= len && 0 <= offset && i + offset == Pos(input, i) <= s.Length
      invariant n == Key(i)
      invariant forall j | i <= j < s.Length :: s[j] == input[j]
      invariant forall j {:trigger ByteAt(input, j)} | 0 <= j < i :: s[j] == ByteAt(input, j)
    {
      Turn(input, i, i + offset, len);
      var chr := s[i + offset];
      if chr < 1 {
        offset := offset + 1;
        s[i] := s[i + offset];
      } else {
        s[i] := Wrap(chr + n);
      }
      n := if n > SIMCRYPT_OFFSET * 2 then SIMCRYPT_OFFSET else n + 1;
      i := i + 1;
    }
    escapes := offset;
  }

  /** What decoding does at each step: a zero stands for the byte behind it, any other byte is moved up
      by 3, 4, 5, 6, 7, 3, and so on, around the 256 bytes there are. */
  lemma DecodeMeans(s: seq<Byte>, n: nat, i: nat)
    requires LongEnough(s, n) && i < n
    ensures Pos(s, 0) == 0 && Pos(s, i) < Pos(s, i + 1) <= |s|
    ensures
      var r, next, b := Pos(s, i), Pos(s, i + 1), Decode(s, n)[i];
      if s[r] == 0 then next == r + 2 && b == s[r + 1] else next == r + 1 && b == (s[r] + 3 + i % 5) % 256
  {
    Turn(s, i, Pos(s, i), n);
    KeyCycles(i);
  }

  // ---------------------------------------------------------------- the encoding it implies

  /** Shift back by the key; a byte that would become the escape mark is escaped. */
  function EncodeByte(b: Byte, key: Byte): seq<Byte> {
    var c := Wrap(b - key);
    if c == 0 then [0, b] else [c]
  }

  function Encode(p: seq<Byte>): seq<Byte> {
    if p == [] then [] else Encode(p[..|p| - 1]) + EncodeByte(p[|p| - 1], Key(|p| - 1))
  }

  lemma {:induction false} ReadsBack(p: seq<Byte>, rest: seq<Byte>)
    ensures Pos(Encode(p) + rest, |p|) == |Encode(p)|
    ensures forall i :: 0 <= i < |p| ==> ByteAt(Encode(p) + rest, i) == p[i]
  {
    if p != [] {
      var n := |p| - 1;
      var e, code := Encode(p[..n]), EncodeByte(p[n], Key(n));
      ReadsBack(p[..n], code + rest);
      assert Encode(p) + rest == e + (code + rest);
      ReadsCode(e, p[n], n, rest);
    }
  }

  /** Whatever follows the encoding, |p| steps give `p` back and read exactly the encoding. */
  lemma RoundTrip(p: seq<Byte>, rest: seq<Byte>)
    ensures Pos(Encode(p) + rest, |p|) == |Encode(p)|
    ensures Decode(Encode(p) + rest, |p|) == p
    ensures forall i :: 0 <= i < |p| ==> ByteAt(Encode(p) + rest, i) == p[i]
  {
    ReadsBack(p, rest);
  }

  lemma ReadsCode(e: seq<Byte>, b: Byte, n: nat, rest: seq<Byte>)
    requires Pos(e + (EncodeByte(b, Key(n)) + rest), n) == |e|
    ensures
      var code := EncodeByte(b, Key(n));
      var s := e + (code + rest);
      && ByteAt(s, n) == b
      && Pos(s, n + 1) == |e| + |code|
  {
    var code := EncodeByte(b, Key(n));
    var s := e + (code + rest);
    assert s[|e|] == code[0] && (|code| == 2 ==> s[|e| + 1] == code[1]);
  }

  // ---------------------------------------------------------------- the caller's length

  /** How many plain bytes need an escape. */
  function Escaped(p: seq<Byte>): nat {
    if p == [] then 0
    else Escaped(p[..|p| - 1]) + if p[|p| - 1] == Key(|p| - 1) then 1 else 0
  }

  lemma {:induction false} EncodeLength(p: seq<Byte>)
    ensures |Encode(p)| == |p| + Escaped(p)
    ensures Escaped(p) == 0 <==> forall k :: 0 <= k < |p| ==> p[k] != Key(k)
  {
    if p != [] {
      EncodeLength(p[..|p| - 1]);
    }
  }

  /** Steps beyond the encoding read what follows it. */
  lemma {:induction false} PosBeyond(p: seq<Byte>, rest: seq<Byte>, n: nat)
    ensures Pos(Encode(p) + rest, |p| + n) == |Encode(p)| + Pos(rest, n)
  {
    if n == 0 {
      RoundTrip(p, rest);
    } else {
      PosBeyond(p, rest, n - 1);
      var r := Pos(rest, n - 1);
      assert r < |rest| ==> (Encode(p) + rest)[|Encode(p)| + r] == rest[r];
    }
  }

  lemma {:induction false} PosBetween(s: seq<Byte>, n: nat)
    ensures n <= Pos(s, n) <= 2 * n
    ensures n > 0 && |s| > 0 && s[0] == 0 ==> n < Pos(s, n)
  {
    if n > 0 {
      PosBetween(s, n - 1);
      assert n == 1 ==> Pos(s, 0) == 0;
    }
  }

  /** `LoadFrozenScript` runs the decoder for as many steps as there are encoded bytes, in an
      allocation with `slack` behind them. The decoder stays inside exactly when the slack feeds one
      step for each escaped byte. The ten bytes there are, of which the first is 0, feed any five
      steps, no ten, and those between as their values have it. */
  lemma CallerFits(p: seq<Byte>, slack: seq<Byte>)
    ensures LongEnough(Encode(p) + slack, |Encode(p)|) <==> LongEnough(slack, Escaped(p))
    ensures
      |slack| == 10 && slack[0] == 0 ==>
        && (Escaped(p) <= 5 ==> LongEnough(Encode(p) + slack, |Encode(p)|))
        && (Escaped(p) >= 10 ==> !LongEnough(Encode(p) + slack, |Encode(p)|))
  {
    EncodeLength(p);
    PosBeyond(p, slack, Escaped(p));
    PosBetween(slack, Escaped(p));
  }

  /** The script's length is taken to be the number of encoded bytes. Where the decoder stays inside,
      the script then begins with the plain text, and is the plain text exactly when no plain byte
      equals its key. */
  lemma CallerLength(p: seq<Byte>, slack: seq<Byte>)
    ensures
      LongEnough(slack, Escaped(p)) ==>
        && LongEnough(Encode(p) + slack, |Encode(p)|)
        && var script := Decode(Encode(p) + slack, |Encode(p)|);
           && |script| == |p| + Escaped(p)
           && script[..|p|] == p
           && (script == p <==> forall k :: 0 <= k < |p| ==> p[k] != Key(k))
  {
    CallerFits(p, slack);
    EncodeLength(p);
    RoundTrip(p, slack);
  }

  /** An input that fails: the script of one byte 3, whose encoding is 0, 3. The caller takes it for
      two bytes. */
  lemma CallerLengthens(slack: seq<Byte>)
    requires |slack| == 10 && slack[0] == 0
    ensures Encode([3]) == [0, 3] && LongEnough([0, 3] + slack, 2)
    ensures |Decode([0, 3] + slack, 2)| == 2 && Decode([0, 3] + slack, 2) != [3]
  {
    assert [3][..0] == [];
    CallerFits([3], slack);
    CallerLength([3], slack);
  }

  /** `n` bytes each equal to its key. */
  function Keys(n: nat): (p: seq<Byte>)
    ensures |p| == n
  {
    if n == 0 then [] else Keys(n - 1) + [Key(n - 1)]
  }

  lemma {:induction false} KeysEscaped(n: nat)
    ensures Escaped(Keys(n)) == n
  {
    if n > 0 {
      KeysEscaped(n - 1);
      assert Keys(n)[..n - 1] == Keys(n - 1);
    }
  }

  /** Ten such bytes make the decoder read past the allocation. */
  lemma CallerReadsPast(slack: seq<Byte>)
    requires |slack| == 10 && slack[0] == 0
    ensures !LongEnough(Encode(Keys(10)) + slack, |Encode(Keys(10))|)
  {
    KeysEscaped(10);
    CallerFits(Keys(10), slack);
  }
}
