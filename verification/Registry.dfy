/** Integer references into a Lua table: slot 0 heads a list of free slots that runs through the
    slots themselves. */
module Registry {

  datatype Value = Nil | Boolean(b: bool) | Number(n: int) | Function(f: nat) | Table(t: nat) | Object(o: nat)

  function ToInteger(v: Value): int {
    if v.Number? then v.n else 0
  }

  const REFNIL := -1

  /** The slots are numbered from 0 and all in use up to the last; a free one may hold nil, but
      the length of the table is asked for only when none is free. */
  function Ref(t: seq<Value>, v: Value): (seq<Value>, int)
    requires |t| > 0 && 0 <= ToInteger(t[0]) < |t|
  {
    if v == Nil then (t, REFNIL)
    else
      var ref := ToInteger(t[0]);
      if ref != 0 then (t[0 := t[ref]][ref := v], ref) else (t + [v], |t|)
  }

  function Unref(t: seq<Value>, ref: int): seq<Value>
    requires |t| > 0 && ref < |t|
  {
    if ref >= 0 then t[ref := t[0]][0 := Number(ref)] else t
  }

  // ---------------------------------------------------------------- the free list

  /** What the slot before place `i` of the free list holds. */
  function LinkTo(free: seq<int>, i: nat): Value {
    if i < |free| then Number(free[i]) else Nil
  }

  ghost predicate LinkedAt(t: seq<Value>, free: seq<int>, i: int) {
    0 <= i < |free| && 1 <= free[i] < |t| && t[free[i]] == LinkTo(free, i + 1)
  }

  /** `free` lists the free slots, each once; the others hold something. */
  ghost predicate Chained(t: seq<Value>, free: seq<int>) {
    && |t| > 0 && t[0] == LinkTo(free, 0) && 0 <= ToInteger(t[0]) < |t|
    && (forall i | 0 <= i < |free| :: LinkedAt(t, free, i))
    && (forall i, j | 0 <= i < j < |free| :: free[i] != free[j])
    && (forall k | 1 <= k < |t| && k !in free :: t[k] != Nil)
  }

  ghost function Live(t: seq<Value>, free: seq<int>): (live: set<int>)
    ensures forall k :: k in live <==> 1 <= k < |t| && k !in free
  {
    set k | 1 <= k < |t| && k !in free
  }

  /** A new reference is one that was not live, and it holds the value. */
  lemma RefIsNew(t: seq<Value>, free: seq<int>, v: Value) returns (left: seq<int>)
    requires Chained(t, free) && v != Nil
    ensures
      var (u, r) := Ref(t, v);
      && Chained(u, left) && r > 0
      && r !in Live(t, free) && Live(u, left) == Live(t, free) + {r}
      && u[r] == v && forall k <- Live(t, free) :: u[k] == t[k]
  {
    var (u, r) := Ref(t, v);
    if free == [] {
      left := [];
    } else {
      left := free[1..];
      assert LinkedAt(t, free, 0) && free == [r] + left;
      forall i | 0 <= i < |left|
        ensures LinkedAt(u, left, i)
      {
        assert LinkedAt(t, free, i + 1);
      }
      assert left != [] ==> LinkedAt(t, free, 1) && left[0] == free[1];
      forall k
        ensures k in free <==> k == r || k in left
      {
      }
      assert r !in left;
    }
  }

  /** Releasing a live reference frees it and no other. */
  lemma UnrefReleases(t: seq<Value>, free: seq<int>, r: int)
    requires Chained(t, free) && r in Live(t, free)
    ensures
      var u := Unref(t, r);
      && Chained(u, [r] + free)
      && Live(u, [r] + free) == Live(t, free) - {r}
      && forall k <- Live(t, free) - {r} :: u[k] == t[k]
  {
    var u, now := Unref(t, r), [r] + free;
    forall i | 0 <= i < |now|
      ensures LinkedAt(u, now, i)
    {
      if i > 0 {
        assert LinkedAt(t, free, i - 1) && now[i] == free[i - 1];
      }
    }
  }

  /** After a free reference is released once more the list runs in a circle. */
  lemma {:induction false} RunsAgain(t: seq<Value>, free: seq<int>, r: int, again: seq<int>, i: nat)
    requires Chained(t, free) && 1 <= r < |t| && Chained(Unref(t, r), again)
    requires i < |free| && forall j | 0 <= j < i :: free[j] != r
    ensures i + 1 < |again| && again[i + 1] == free[i]
    decreases i
  {
    assert LinkedAt(t, free, i);
    if i > 0 {
      RunsAgain(t, free, r, again, i - 1);
      assert LinkedAt(t, free, i - 1);
    }
    assert LinkedAt(Unref(t, r), again, i);
  }

  /** Releasing a reference keeps the list sound exactly when the reference is live. */
  lemma UnrefExactly(t: seq<Value>, free: seq<int>, r: int)
    requires Chained(t, free) && 1 <= r < |t|
    ensures (exists again :: Chained(Unref(t, r), again)) <==> r in Live(t, free)
  {
    if r in Live(t, free) {
      UnrefReleases(t, free, r);
    } else {
      forall again
        ensures !Chained(Unref(t, r), again)
      {
        if Chained(Unref(t, r), again) {
          var j := First(free, r);
          RunsAgain(t, free, r, again, j);
        }
      }
    }
  }

  function First(s: seq<int>, x: int): (i: nat)
    requires x in s
    ensures i < |s| && s[i] == x && forall j | 0 <= j < i :: s[j] != x
  {
    if s[0] == x then 0 else 1 + First(s[1..], x)
  }

  /** And released twice, it is handed out twice. */
  lemma ReleasedTwice(t: seq<Value>, free: seq<int>, r: int, v: Value, w: Value)
    requires Chained(t, free) && r in Live(t, free) && v != Nil && w != Nil
    ensures
      var twice := Unref(Unref(t, r), r);
      var (u, first) := Ref(twice, v);
      first == r && u[0] == Number(r) && Ref(u, w).1 == r
  {
  }

  class LuaTable {
    var slots: seq<Value>

    predicate Sound()
      reads this
    {
      |slots| > 0 && 0 <= ToInteger(slots[0]) < |slots|
    }

    constructor ()
      ensures slots == [Nil] && Chained(slots, [])
    {
      slots := [Nil];
    }

    method RawGetI(i: int) returns (v: Value)
      ensures v == if 0 <= i < |slots| then slots[i] else Nil
    {
      if 0 <= i < |slots| {
        v := slots[i];
      } else {
        v := Nil;
      }
    }

    /** `luaL_ref` of the value on top of the stack. */
    method LuaRef(v: Value) returns (ref: int)
      requires Sound()
      modifies this
      ensures (slots, ref) == Ref(old(slots), v)
    {
      if v == Nil {
        return REFNIL;
      }
      var head := slots[0];
      ref := ToInteger(head);
      if ref != 0 {
        slots := slots[0 := slots[ref]];
        slots := slots[ref := v];
      } else {
        ref := |slots| - 1;
        ref := ref + 1;
        slots := slots + [v];
      }
    }

    /** `luaL_unref` */
    method LuaUnref(ref: int)
      requires |slots| > 0 && ref < |slots|
      modifies this
      ensures slots == Unref(old(slots), ref)
    {
      if ref >= 0 {
        slots := slots[ref := slots[0]];
        slots := slots[0 := Number(ref)];
      }
    }
  }
}
