/** What is allocated for a text buffer: how it follows the sizes of the text and of the gap. */
module Allocation {

  datatype Space = Space(length: int, gap: int, size: int)

  // A text of `n` characters is inserted, deleted, or takes the place of all there was.
  datatype Resize = Put(n: nat) | Free(n: nat) | Renew(n: nat)

  /** A text that does not fit the gap makes the buffer reallocate; afterwards the gap has the
      preferred size. */
  function Resized(s: Space, r: Resize, preferred: nat): Space {
    match r
    case Put(n) =>
      if n > s.gap then Space(s.length + n, preferred, s.length + (n + preferred))
      else Space(s.length + n, s.gap - n, s.size)
    case Free(n) => Space(s.length - n, s.gap + n, s.size)
    case Renew(n) => Space(n, preferred, n + preferred)
  }

  function ResizedAll(s: Space, rs: seq<Resize>, preferred: nat): Space {
    if rs == [] then s else Resized(ResizedAll(s, rs[..|rs| - 1], preferred), rs[|rs| - 1], preferred)
  }

  lemma ResizedOne(s: Space, r: Resize, preferred: nat)
    ensures ResizedAll(s, [r], preferred) == Resized(s, r, preferred)
  {
    assert [r][..0] == [];
  }

  lemma ResizedTwo(s: Space, r: Resize, q: Resize, preferred: nat)
    ensures ResizedAll(s, [r, q], preferred) == Resized(Resized(s, r, preferred), q, preferred)
  {
    assert [r, q][..1] == [r];
    ResizedOne(s, r, preferred);
  }

  lemma {:induction false} ResizedConcat(s: Space, a: seq<Resize>, b: seq<Resize>, preferred: nat)
    ensures ResizedAll(s, a + b, preferred) == ResizedAll(ResizedAll(s, a, preferred), b, preferred)
  {
    if b == [] {
      assert a + b == a;
    } else {
      var n := |b| - 1;
      ResizedConcat(s, a, b[..n], preferred);
      assert (a + b)[..|a| + n] == a + b[..n];
    }
  }

  /** The buffer as constructed. */
  function Fresh(requested: nat, preferred: nat): Space {
    Space(0, preferred, requested + preferred)
  }

  predicate Reallocates(s: Space, r: Resize) {
    r.Renew? || (r.Put? && r.n > s.gap)
  }

  /** Some step of a run reallocates. */
  predicate EverReallocates(s: Space, rs: seq<Resize>, preferred: nat) {
    exists i | 0 <= i < |rs| :: Reallocates(ResizedAll(s, rs[..i], preferred), rs[i])
  }

  /** The size the header gives, gap plus length. */
  predicate AsDocumented(s: Space) {
    s.size == s.gap + s.length
  }

  lemma EverSnoc(s: Space, rs: seq<Resize>, preferred: nat)
    requires rs != []
    ensures
      var front, last := rs[..|rs| - 1], rs[|rs| - 1];
      EverReallocates(s, rs, preferred)
      <==> EverReallocates(s, front, preferred) || Reallocates(ResizedAll(s, front, preferred), last)
  {
    var n := |rs| - 1;
    forall i | 0 <= i < n
      ensures rs[..n][..i] == rs[..i]
    {
    }
    if EverReallocates(s, rs, preferred) {
      var i :| 0 <= i < |rs| && Reallocates(ResizedAll(s, rs[..i], preferred), rs[i]);
      if i < n {
        assert Reallocates(ResizedAll(s, rs[..n][..i], preferred), rs[..n][i]);
      }
    }
    if EverReallocates(s, rs[..n], preferred) {
      var i :| 0 <= i < n && Reallocates(ResizedAll(s, rs[..n][..i], preferred), rs[..n][i]);
      assert Reallocates(ResizedAll(s, rs[..i], preferred), rs[i]);
    }
    if Reallocates(ResizedAll(s, rs[..n], preferred), rs[n]) {
      assert EverReallocates(s, rs, preferred);
    }
  }

  /** Until the buffer reallocates, the requested size stays allocated beyond gap and text. */
  lemma {:induction false} Surplus(requested: nat, preferred: nat, rs: seq<Resize>)
    ensures
      var start := Fresh(requested, preferred);
      var s := ResizedAll(start, rs, preferred);
      s.size - (s.gap + s.length) == if EverReallocates(start, rs, preferred) then 0 else requested
  {
    if rs != [] {
      Surplus(requested, preferred, rs[..|rs| - 1]);
      EverSnoc(Fresh(requested, preferred), rs, preferred);
    }
  }

  /** Over every run from the constructor: the documented size is right exactly when no extra size
      was requested, or some step replaced the whole text or inserted more than the gap held. */
  lemma AllocatedExactly(requested: nat, preferred: nat, rs: seq<Resize>)
    ensures
      var start := Fresh(requested, preferred);
      AsDocumented(ResizedAll(start, rs, preferred))
      <==> requested == 0 || EverReallocates(start, rs, preferred)
  {
    Surplus(requested, preferred, rs);
  }

  /** An input that fails: a buffer of requested size 1, as constructed. */
  lemma AllocatedOtherwise()
    ensures !AsDocumented(Fresh(1, 1024))
    ensures !AsDocumented(ResizedAll(Fresh(1, 1024), [Put(3)], 1024))
    ensures AsDocumented(ResizedAll(Fresh(1, 1024), [Put(1025)], 1024))
  {
    ResizedOne(Fresh(1, 1024), Put(3), 1024);
    ResizedOne(Fresh(1, 1024), Put(1025), 1024);
  }
}
