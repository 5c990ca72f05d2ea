/** Who owns the references under which Lua functions and data are kept for FLTK's callbacks.

    `book` is no part of the program: it notes, for every live reference, who took it and for
    what value, and `Ledger` says that this agrees with what the program itself remembers. */
module Callbacks {
  import opened Bits
  import opened Wrappers
  import opened Registry

  datatype Owner = OfWidget(x: nat) | OfMenu(m: nat) | OfIdle | OfTimeout | OfHandler | OfFocus | OfOther

  datatype Entry = Entry(owner: Owner, value: Value)

  // A table made for a callback: its slots 1 and 2 and its field "repeat".
  datatype Pair = Pair(func: Value, data: Value, again: Value)

  // A timeout callback under way: the reference it was called with and the table on its stack.
  datatype Frame = Frame(ref: int, table: nat)

  datatype Store = Store(reg: seq<Value>, book: map<int, Entry>)
  {
    predicate Sound() {
      |reg| > 0 && 0 <= ToInteger(reg[0]) < |reg|
    }

    function Get(r: int): Value {
      if 0 <= r < |reg| then reg[r] else Nil
    }

    predicate Owns(o: Owner, r: int) {
      r in book && book[r].owner == o
    }

    /** Take a reference for an owner. */
    function Take(o: Owner, v: Value): (Store, int)
      requires Sound()
    {
      var (u, r) := Ref(reg, v);
      (Store(u, if v == Nil then book else book[r := Entry(o, v)]), r)
    }

    function Release(r: int): Store
      requires |reg| > 0 && r < |reg|
    {
      Store(Unref(reg, r), book - {r})
    }

    /** Give up the reference held, if any, then take another if there is something to keep. */
    function Swap(o: Owner, held: int, v: Value): (Store, int)
      requires Sound() && held < |reg|
    {
      var s := if held != 0 then Release(held) else this;
      if v == Nil then (s, 0) else s.Take(o, v)
    }

    /** Take another reference, then give up the one held, if any. */
    function Move(o: Owner, held: int, v: Value): (Store, int)
      requires Sound() && held < |reg|
    {
      var (s, r) := Take(o, v);
      (if held != 0 then s.Release(held) else s, r)
    }
  }

  datatype World = World(
    store: Store,
    tables: seq<Pair>,
    callbacks: map<nat, Value>,
    widgets: map<nat, int>,
    menus: map<nat, int>,
    idles: seq<int>,
    pending: multiset<int>,
    running: seq<Frame>,
    handler: int,
    focus: int)
  {
    function UserData(x: nat): int {
      if x in widgets then widgets[x] else 0
    }

    function MenuData(m: nat): int {
      if m in menus then menus[m] else 0
    }

    predicate IsTable(r: int) {
      store.Get(r).Table? && store.Get(r).t < |tables|
    }
  }

  // ---------------------------------------------------------------- steps

  datatype Step =
    | SetWidget(x: nat, func: Value, data: Value)
    | SetMenu(m: nat, func: Value, data: Value)
    | AddIdle(given: Option<Value>, obj: Option<Value>)
    | CallIdle
    | RemoveIdle(ref: int)
    | AddTimeout(given: Option<Value>, obj: Option<Value>)
    | RepeatTimeout(ref: int)
    | CallTimeout(ref: int)
    | FinishTimeout
    | RemoveTimeout(ref: int)
    | AddHandler(func: Value)
    | RemoveHandler
    | AddFocusHandler(func: Value)
    | RemoveFocusHandler
    | OtherRef(v: Value)
    | OtherUnref(ref: int)

  /** A reference that is taken but that no part of the binding remembers: one of another user of
      the registry, or that of a timeout that has run. */
  predicate Spare(w: World, r: int) {
    w.store.Owns(OfOther, r) || (w.store.Owns(OfTimeout, r) && r !in w.pending)
  }

  /** What a caller has to observe: what is removed is of the family or spare, or negative; a repeated
      timeout is not another family's table; and what FLTK calls is there to be called. */
  predicate Allowed(w: World, s: Step) {
    match s
    case RemoveIdle(r) => r < 0 || w.store.Owns(OfIdle, r) || Spare(w, r)
    case RemoveTimeout(r) => r < 0 || w.store.Owns(OfTimeout, r) || w.store.Owns(OfOther, r)
    case RepeatTimeout(r) => w.store.Owns(OfTimeout, r) || !w.store.Get(r).Table?
    case OtherUnref(r) => r < 0 || Spare(w, r)
    case CallIdle => w.idles != []
    case CallTimeout(r) => r in w.pending
    case FinishTimeout => w.running != []
    case _ => true
  }

  function Obj(obj: Option<Value>): Value {
    if obj.Some? then obj.value else Nil
  }

  function ToBoolean(v: Value): bool {
    v != Nil && v != Boolean(false)
  }

  function WithoutFirst(s: seq<int>, r: int): seq<int> {
    if r in s then var i := First(s, r); s[i + 1..] + s[..i] else s
  }

  function DoSetWidget(w: World, x: nat, func: Value, data: Value): World
    requires w.store.Sound() && w.UserData(x) < |w.store.reg|
  {
    var (s, r) := w.store.Swap(OfWidget(x), w.UserData(x), data);
    w.(callbacks := w.callbacks[x := func], store := s, widgets := w.widgets[x := r])
  }

  function DoSetMenu(w: World, m: nat, func: Value, data: Value): World
    requires w.store.Sound() && w.MenuData(m) < |w.store.reg|
  {
    var (s, r) := w.store.Move(OfMenu(m), w.MenuData(m), Table(|w.tables|));
    w.(tables := w.tables + [Pair(func, data, Nil)], store := s, menus := w.menus[m := r])
  }

  function DoAddIdle(w: World, func: Value, data: Value): (World, int)
    requires w.store.Sound()
  {
    var (s, r) := w.store.Take(OfIdle, Table(|w.tables|));
    (w.(tables := w.tables + [Pair(func, data, Nil)], store := s, idles := w.idles + [r]), r)
  }

  /** The ring goes on behind the one taken out. */
  function DoRemoveIdle(w: World, r: int): World
    requires |w.store.reg| > 0 && r < |w.store.reg|
  {
    w.(idles := WithoutFirst(w.idles, r), store := w.store.Release(r))
  }

  function DoAddTimeout(w: World, func: Value, data: Value): (World, int)
    requires w.store.Sound()
  {
    var (s, r) := w.store.Take(OfTimeout, Table(|w.tables|));
    (w.(tables := w.tables + [Pair(func, data, Boolean(false))], store := s, pending := w.pending + multiset{r}), r)
  }

  /** A table made elsewhere is marked too; its fields are not followed. */
  function DoRepeat(w: World, r: int): World {
    var v := w.store.Get(r);
    if v.Table? then
      w.(tables := if v.t < |w.tables| then w.tables[v.t := w.tables[v.t].(again := Boolean(true))] else w.tables,
         pending := w.pending + multiset{r})
    else w
  }

  function DoCallTimeout(w: World, r: int): World {
    w.(pending := w.pending - multiset{r},
       running := if w.IsTable(r) then w.running + [Frame(r, w.store.Get(r).t)] else w.running)
  }

  /** The test as the program makes it, on the table it still has on its stack. */
  function DoFinish(w: World): World
    requires |w.store.reg| > 0 && w.running != []
    requires
      var f := w.running[|w.running| - 1];
      f.table < |w.tables| && (w.tables[f.table].again.Boolean? || f.ref < |w.store.reg|)
  {
    var f := w.running[|w.running| - 1];
    var again := w.tables[f.table].again;
    var s := if !again.Boolean? && !ToBoolean(again) then w.store.Release(f.ref) else w.store;
    w.(running := w.running[..|w.running| - 1], store := s)
  }

  /** FLTK takes 0 to mean every pending timeout. */
  function DoRemoveTimeout(w: World, r: int): World
    requires |w.store.reg| > 0 && r < |w.store.reg|
  {
    w.(pending := if r == 0 then multiset{} else w.pending[r := 0], store := w.store.Release(r))
  }

  function DoAddHandler(w: World, func: Value): (World, int)
    requires w.store.Sound()
  {
    if w.handler == 0 then
      var (s, r) := w.store.Take(OfHandler, func);
      (w.(store := s, handler := r), 1)
    else (w, 0)
  }

  function DoRemoveHandler(w: World): World
    requires |w.store.reg| > 0 && w.handler < |w.store.reg|
  {
    if w.handler != 0 then w.(store := w.store.Release(w.handler), handler := 0) else w
  }

  function DoAddFocus(w: World, func: Value): (World, int)
    requires w.store.Sound()
  {
    if w.focus == 0 then
      var (s, r) := w.store.Take(OfFocus, func);
      (w.(store := s, focus := r), 1)
    else (w, 0)
  }

  function DoRemoveFocus(w: World): World
    requires |w.store.reg| > 0 && w.focus < |w.store.reg|
  {
    if w.focus != 0 then w.(store := w.store.Release(w.focus), focus := 0) else w
  }

  // ---------------------------------------------------------------- the ledger

  ghost predicate Books(s: Store, free: seq<int>) {
    && Chained(s.reg, free)
    && s.book.Keys == Live(s.reg, free)
    && forall r <- s.book :: s.reg[r] == s.book[r].value
  }

  /** What an owner remembers of its reference. */
  predicate Remembered(w: World, r: int)
  {
    && r in w.store.book
    && match w.store.book[r].owner
       case OfWidget(x) => w.UserData(x) == r
       case OfMenu(m) => w.MenuData(m) == r && w.IsTable(r)
       case OfIdle => r in w.idles && w.IsTable(r)
       case OfTimeout => w.IsTable(r) && w.tables[w.store.Get(r).t].again.Boolean?
       case OfHandler => w.handler == r
       case OfFocus => w.focus == r
       case OfOther => true
  }

  /** What an owner remembers is its own. */
  ghost predicate OwnerFair(w: World, o: Owner) {
    match o
    case OfWidget(x) => w.UserData(x) == 0 || w.store.Owns(o, w.UserData(x))
    case OfMenu(m) => w.MenuData(m) == 0 || w.store.Owns(o, w.MenuData(m))
    case OfIdle =>
      && (forall i | 0 <= i < |w.idles| :: w.store.Owns(OfIdle, w.idles[i]))
      && (forall i, j | 0 <= i < j < |w.idles| :: w.idles[i] != w.idles[j])
    case OfTimeout => forall r <- w.pending :: w.store.Owns(OfTimeout, r)
    case OfHandler => w.handler == 0 || w.handler == REFNIL || w.store.Owns(o, w.handler)
    case OfFocus => w.focus == 0 || w.focus == REFNIL || w.store.Owns(o, w.focus)
    case OfOther => true
  }

  ghost predicate FramesFair(w: World) {
    forall i | 0 <= i < |w.running| ::
      w.running[i].table < |w.tables| && w.tables[w.running[i].table].again.Boolean?
  }

  ghost predicate Ledger(w: World, free: seq<int>) {
    && Books(w.store, free)
    && (forall r <- w.store.book :: Remembered(w, r))
    && (forall o :: OwnerFair(w, o))
    && FramesFair(w)
  }

  ghost predicate SameFor(b: map<int, Entry>, c: map<int, Entry>, o: Owner) {
    && (forall r <- b :: b[r].owner != o ==> r in c && c[r] == b[r])
    && (forall r <- c :: c[r].owner != o ==> r in b && c[r] == b[r])
  }

  /** A step that concerns one owner leaves what the others have and remember. */
  ghost predicate Concerns(w: World, u: World, o: Owner) {
    && SameFor(w.store.book, u.store.book, o)
    && |w.tables| <= |u.tables|
    && (forall i | 0 <= i < |w.tables| :: w.tables[i].again.Boolean? ==> u.tables[i].again.Boolean?)
    && (forall y: nat :: OfWidget(y) != o ==> u.UserData(y) == w.UserData(y))
    && (forall y: nat :: OfMenu(y) != o ==> u.MenuData(y) == w.MenuData(y))
    && (o != OfIdle ==> u.idles == w.idles)
    && (o != OfTimeout ==> u.pending == w.pending)
    && (o != OfHandler ==> u.handler == w.handler)
    && (o != OfFocus ==> u.focus == w.focus)
  }

  /** So only that owner is left to be looked at. */
  lemma LedgerByOwner(w: World, free: seq<int>, u: World, left: seq<int>, o: Owner)
    requires Ledger(w, free) && Concerns(w, u, o) && Books(u.store, left)
    requires OwnerFair(u, o) && FramesFair(u)
    requires forall r <- u.store.book :: u.store.book[r].owner == o ==> Remembered(u, r)
    ensures Ledger(u, left)
  {
    forall r | r in u.store.book
      ensures Remembered(u, r)
    {
      if u.store.book[r].owner != o {
        assert Remembered(w, r);
      }
    }
    forall p: Owner
      ensures OwnerFair(u, p)
    {
      if p != o {
        assert OwnerFair(w, p);
      }
    }
  }

  lemma TakeBooks(s: Store, free: seq<int>, o: Owner, v: Value) returns (left: seq<int>)
    requires Books(s, free) && v != Nil
    ensures
      var (u, r) := s.Take(o, v);
      && Books(u, left) && r > 0 && r !in s.book && u.book == s.book[r := Entry(o, v)]
      && SameFor(s.book, u.book, o) && forall k <- s.book :: u.reg[k] == s.reg[k]
  {
    left := RefIsNew(s.reg, free, v);
  }

  lemma ReleaseBooks(s: Store, free: seq<int>, r: int)
    requires Books(s, free) && r in s.book
    ensures 1 <= r < |s.reg|
    ensures
      var u := s.Release(r);
      Books(u, [r] + free) && u.book == s.book - {r} && SameFor(s.book, u.book, s.book[r].owner)
  {
    UnrefReleases(s.reg, free, r);
  }

  /** Giving up the reference held, if any, and taking another if there is something to keep. */
  lemma SwapBooks(s: Store, free: seq<int>, o: Owner, held: int, v: Value) returns (left: seq<int>)
    requires Books(s, free) && (held == 0 || s.Owns(o, held)) && held < |s.reg|
    requires forall r <- s.book :: s.book[r].owner == o ==> r == held
    ensures
      var (s2, r) := s.Swap(o, held, v);
      && Books(s2, left) && SameFor(s.book, s2.book, o)
      && (r == 0 || s2.Owns(o, r))
      && (forall k <- s2.book :: s2.book[k].owner == o ==> k == r)
  {
    left := free;
    var s1 := if held != 0 then s.Release(held) else s;
    if held != 0 {
      ReleaseBooks(s, free, held);
      left := [held] + free;
    }
    if v != Nil {
      left := TakeBooks(s1, left, o, v);
    }
  }

  /** Taking another reference first and then giving up the one held. */
  lemma MoveBooks(s: Store, free: seq<int>, o: Owner, held: int, v: Value) returns (left: seq<int>)
    requires Books(s, free) && (held == 0 || s.Owns(o, held)) && held < |s.reg| && v != Nil
    requires forall r <- s.book :: s.book[r].owner == o ==> r == held
    ensures
      var (s2, r) := s.Move(o, held, v);
      && Books(s2, left) && SameFor(s.book, s2.book, o)
      && s2.Owns(o, r) && s2.Get(r) == v && r != held
      && (forall k <- s2.book :: s2.book[k].owner == o ==> k == r)
  {
    left := TakeBooks(s, free, o, v);
    var (s1, r) := s.Take(o, v);
    if held != 0 {
      ReleaseBooks(s1, left, held);
      left := [held] + left;
    }
  }

  /** A widget, a menu item and a handler own nothing but what they remember. */
  lemma OneOwned(w: World, free: seq<int>, o: Owner, held: int)
    requires Ledger(w, free)
    requires match o
             case OfWidget(x) => held == w.UserData(x)
             case OfMenu(m) => held == w.MenuData(m)
             case OfHandler => held == w.handler
             case OfFocus => held == w.focus
             case _ => false
    ensures forall r <- w.store.book :: w.store.book[r].owner == o ==> r == held
    ensures held == 0 || held == REFNIL || w.store.Owns(o, held)
  {
    forall r | r in w.store.book && w.store.book[r].owner == o
      ensures r == held
    {
      assert Remembered(w, r);
    }
    assert OwnerFair(w, o);
  }

  lemma KeepsSetWidget(w: World, free: seq<int>, x: nat, func: Value, data: Value) returns (left: seq<int>)
    requires Ledger(w, free)
    ensures w.UserData(x) < |w.store.reg| && Ledger(DoSetWidget(w, x, func, data), left)
  {
    var held, o := w.UserData(x), OfWidget(x);
    assert OwnerFair(w, o);
    OneOwned(w, free, o, held);
    left := SwapBooks(w.store, free, o, held, data);
    LedgerByOwner(w, free, DoSetWidget(w, x, func, data), left, o);
  }

  lemma KeepsSetMenu(w: World, free: seq<int>, m: nat, func: Value, data: Value) returns (left: seq<int>)
    requires Ledger(w, free)
    ensures w.MenuData(m) < |w.store.reg| && Ledger(DoSetMenu(w, m, func, data), left)
  {
    var held, o := w.MenuData(m), OfMenu(m);
    assert OwnerFair(w, o);
    OneOwned(w, free, o, held);
    left := MoveBooks(w.store, free, o, held, Table(|w.tables|));
    LedgerByOwner(w, free, DoSetMenu(w, m, func, data), left, o);
  }

  lemma KeepsAddIdle(w: World, free: seq<int>, func: Value, data: Value) returns (left: seq<int>)
    requires Ledger(w, free)
    ensures Ledger(DoAddIdle(w, func, data).0, left)
  {
    assert OwnerFair(w, OfIdle);
    left := TakeBooks(w.store, free, OfIdle, Table(|w.tables|));
    var (u, n) := DoAddIdle(w, func, data);
    forall r | r in u.store.book && u.store.book[r].owner == OfIdle
      ensures Remembered(u, r)
    {
      if r != n {
        assert Remembered(w, r);
      }
    }
    LedgerByOwner(w, free, u, left, OfIdle);
  }

  lemma RingOwned(w: World, free: seq<int>, r: int)
    requires Ledger(w, free)
    ensures r in w.idles ==> w.store.Owns(OfIdle, r)
    ensures r in w.pending ==> w.store.Owns(OfTimeout, r)
    ensures w.store.Owns(OfIdle, r) || w.store.Owns(OfTimeout, r) ==> r >= 1
  {
    assert OwnerFair(w, OfIdle) && OwnerFair(w, OfTimeout);
    if r in w.idles {
      var i := First(w.idles, r);
      assert w.store.Owns(OfIdle, w.idles[i]);
    }
  }

  lemma Turned(s: seq<int>)
    requires s != [] && forall i, j | 0 <= i < j < |s| :: s[i] != s[j]
    ensures
      var t := s[1..] + [s[0]];
      && (forall x :: x in t <==> x in s)
      && (forall i, j | 0 <= i < j < |t| :: t[i] != t[j])
  {
    assert s == [s[0]] + s[1..];
  }

  lemma KeepsCallIdle(w: World, free: seq<int>)
    requires Ledger(w, free) && w.idles != []
    ensures Ledger(w.(idles := w.idles[1..] + [w.idles[0]]), free)
  {
    var u := w.(idles := w.idles[1..] + [w.idles[0]]);
    assert OwnerFair(w, OfIdle);
    Turned(w.idles);
    forall i | 0 <= i < |u.idles|
      ensures u.store.Owns(OfIdle, u.idles[i])
    {
      RingOwned(w, free, u.idles[i]);
    }
    forall r | r in u.store.book && u.store.book[r].owner == OfIdle
      ensures Remembered(u, r)
    {
      assert Remembered(w, r);
    }
    LedgerByOwner(w, free, u, free, OfIdle);
  }

  lemma FirstTakenOut(s: seq<int>, r: int)
    requires r in s && forall i, j | 0 <= i < j < |s| :: s[i] != s[j]
    ensures
      var t := WithoutFirst(s, r);
      && (forall x :: x in t <==> x in s && x != r)
      && (forall i, j | 0 <= i < j < |t| :: t[i] != t[j])
  {
    var i := First(s, r);
    assert s == s[..i] + [r] + s[i + 1..];
  }

  /** A negative reference changes nothing. */
  lemma KeepsNegative(w: World, free: seq<int>, r: int)
    requires Ledger(w, free) && r < 0
    ensures DoRemoveIdle(w, r) == DoRemoveTimeout(w, r) == w.(store := w.store.Release(r)) == w
  {
    RingOwned(w, free, r);
    assert w.store.Release(r).book == w.store.book;
    assert w.pending[r := 0] == w.pending;
  }

  /** A spare reference can be released without harm. */
  lemma KeepsSpare(w: World, free: seq<int>, r: int)
    requires Ledger(w, free) && Spare(w, r)
    ensures r < |w.store.reg| && Ledger(w.(store := w.store.Release(r)), [r] + free)
  {
    var o := w.store.book[r].owner;
    assert OwnerFair(w, o);
    ReleaseBooks(w.store, free, r);
    var u := w.(store := w.store.Release(r));
    forall k | k in u.store.book && u.store.book[k].owner == o
      ensures Remembered(u, k)
    {
      assert Remembered(w, k);
    }
    LedgerByOwner(w, free, u, [r] + free, o);
  }

  lemma SpareElsewhere(w: World, free: seq<int>, r: int)
    requires Ledger(w, free) && r in w.store.book && r < |w.store.reg|
    ensures w.store.book[r].owner != OfIdle ==> DoRemoveIdle(w, r) == w.(store := w.store.Release(r))
    ensures w.store.book[r].owner != OfTimeout ==> DoRemoveTimeout(w, r) == w.(store := w.store.Release(r))
  {
    RingOwned(w, free, r);
    if w.store.book[r].owner != OfTimeout {
      assert w.pending[r := 0] == w.pending;
    }
  }

  lemma KeepsRemoveIdle(w: World, free: seq<int>, r: int) returns (left: seq<int>)
    requires Ledger(w, free) && Allowed(w, RemoveIdle(r))
    ensures r < |w.store.reg| && Ledger(DoRemoveIdle(w, r), left)
  {
    if r < 0 {
      KeepsNegative(w, free, r);
      left := free;
    } else if w.store.Owns(OfIdle, r) {
      left := KeepsRemoveOwnIdle(w, free, r);
    } else {
      KeepsSpare(w, free, r);
      SpareElsewhere(w, free, r);
      left := [r] + free;
    }
  }

  lemma KeepsRemoveOwnIdle(w: World, free: seq<int>, r: int) returns (left: seq<int>)
    requires Ledger(w, free) && w.store.Owns(OfIdle, r)
    ensures r < |w.store.reg| && Ledger(DoRemoveIdle(w, r), left)
  {
    ReleaseBooks(w.store, free, r);
    left := [r] + free;
    IdlesWithout(w, free, r);
    LedgerByOwner(w, free, DoRemoveIdle(w, r), left, OfIdle);
  }

  lemma IdlesWithout(w: World, free: seq<int>, r: int)
    requires Ledger(w, free) && w.store.Owns(OfIdle, r) && r < |w.store.reg|
    ensures
      var u := DoRemoveIdle(w, r);
      OwnerFair(u, OfIdle) && forall k <- u.store.book :: u.store.book[k].owner == OfIdle ==> Remembered(u, k)
  {
    var u := DoRemoveIdle(w, r);
    assert OwnerFair(w, OfIdle) && Remembered(w, r);
    ReleaseBooks(w.store, free, r);
    FirstTakenOut(w.idles, r);
    forall k | k in u.store.book && u.store.book[k].owner == OfIdle
      ensures Remembered(u, k)
    {
      assert Remembered(w, k);
    }
    forall i | 0 <= i < |u.idles|
      ensures u.store.Owns(OfIdle, u.idles[i])
    {
      var j := First(w.idles, u.idles[i]);
    }
  }

  lemma KeepsAddTimeout(w: World, free: seq<int>, func: Value, data: Value) returns (left: seq<int>)
    requires Ledger(w, free)
    ensures Ledger(DoAddTimeout(w, func, data).0, left)
  {
    assert OwnerFair(w, OfTimeout);
    left := TakeBooks(w.store, free, OfTimeout, Table(|w.tables|));
    var (u, n) := DoAddTimeout(w, func, data);
    forall r | r in u.store.book && u.store.book[r].owner == OfTimeout
      ensures Remembered(u, r)
    {
      if r != n {
        assert Remembered(w, r);
      }
    }
    LedgerByOwner(w, free, u, left, OfTimeout);
  }

  lemma KeepsRepeat(w: World, free: seq<int>, r: int)
    requires Ledger(w, free) && (w.store.Owns(OfTimeout, r) || !w.store.Get(r).Table?)
    ensures Ledger(DoRepeat(w, r), free)
  {
    assert OwnerFair(w, OfTimeout);
    var u := DoRepeat(w, r);
    forall k | k in u.store.book && u.store.book[k].owner == OfTimeout
      ensures Remembered(u, k)
    {
      assert Remembered(w, k);
    }
    LedgerByOwner(w, free, u, free, OfTimeout);
  }

  lemma KeepsCallTimeout(w: World, free: seq<int>, r: int)
    requires Ledger(w, free) && r in w.pending
    ensures Ledger(DoCallTimeout(w, r), free) && w.IsTable(r)
  {
    assert OwnerFair(w, OfTimeout) && Remembered(w, r);
    var u := DoCallTimeout(w, r);
    forall k | k in u.store.book && u.store.book[k].owner == OfTimeout
      ensures Remembered(u, k)
    {
      assert Remembered(w, k);
    }
    LedgerByOwner(w, free, u, free, OfTimeout);
  }

  /** The reference of a timeout that has run is not released: "repeat" is always a boolean. */
  lemma KeepsFinish(w: World, free: seq<int>)
    requires Ledger(w, free) && w.running != []
    ensures
      var f := w.running[|w.running| - 1];
      && f.table < |w.tables| && w.tables[f.table].again.Boolean?
      && Ledger(w.(running := w.running[..|w.running| - 1]), free)
  {
    var u := w.(running := w.running[..|w.running| - 1]);
    assert OwnerFair(w, OfOther);
    LedgerByOwner(w, free, u, free, OfOther);
  }

  lemma KeepsRemoveTimeout(w: World, free: seq<int>, r: int) returns (left: seq<int>)
    requires Ledger(w, free) && Allowed(w, RemoveTimeout(r))
    ensures r < |w.store.reg| && Ledger(DoRemoveTimeout(w, r), left)
  {
    if r < 0 {
      KeepsNegative(w, free, r);
      left := free;
    } else if w.store.Owns(OfTimeout, r) {
      left := KeepsRemoveOwnTimeout(w, free, r);
    } else {
      KeepsSpare(w, free, r);
      SpareElsewhere(w, free, r);
      left := [r] + free;
    }
  }

  lemma KeepsRemoveOwnTimeout(w: World, free: seq<int>, r: int) returns (left: seq<int>)
    requires Ledger(w, free) && w.store.Owns(OfTimeout, r)
    ensures r < |w.store.reg| && Ledger(DoRemoveTimeout(w, r), left)
  {
    assert OwnerFair(w, OfTimeout);
    ReleaseBooks(w.store, free, r);
    left := [r] + free;
    var u := DoRemoveTimeout(w, r);
    forall k | k in u.store.book && u.store.book[k].owner == OfTimeout
      ensures Remembered(u, k)
    {
      assert Remembered(w, k);
    }
    LedgerByOwner(w, free, u, left, OfTimeout);
  }

  lemma KeepsAddHandler(w: World, free: seq<int>, func: Value) returns (left: seq<int>)
    requires Ledger(w, free)
    ensures Ledger(DoAddHandler(w, func).0, left)
  {
    left := free;
    OneOwned(w, free, OfHandler, w.handler);
    if w.handler == 0 {
      if func != Nil {
        left := TakeBooks(w.store, free, OfHandler, func);
      }
      LedgerByOwner(w, free, DoAddHandler(w, func).0, left, OfHandler);
    }
  }

  /** Giving up what a slot holds, which is -1 when it was set to nil. */
  lemma DropBooks(s: Store, free: seq<int>, o: Owner, held: int) returns (left: seq<int>)
    requires Books(s, free) && (held == REFNIL || s.Owns(o, held))
    requires forall r <- s.book :: s.book[r].owner == o ==> r == held
    ensures held < |s.reg|
    ensures
      var u := s.Release(held);
      Books(u, left) && SameFor(s.book, u.book, o) && forall r <- u.book :: u.book[r].owner != o
  {
    if held == REFNIL {
      left := free;
      assert s.Release(held).book == s.book;
    } else {
      ReleaseBooks(s, free, held);
      left := [held] + free;
    }
  }

  lemma KeepsRemoveHandler(w: World, free: seq<int>) returns (left: seq<int>)
    requires Ledger(w, free)
    ensures w.handler < |w.store.reg| && Ledger(DoRemoveHandler(w), left)
  {
    left := free;
    OneOwned(w, free, OfHandler, w.handler);
    if w.handler != 0 {
      left := DropBooks(w.store, free, OfHandler, w.handler);
      LedgerByOwner(w, free, DoRemoveHandler(w), left, OfHandler);
    }
  }

  lemma KeepsAddFocus(w: World, free: seq<int>, func: Value) returns (left: seq<int>)
    requires Ledger(w, free)
    ensures Ledger(DoAddFocus(w, func).0, left)
  {
    left := free;
    OneOwned(w, free, OfFocus, w.focus);
    if w.focus == 0 {
      if func != Nil {
        left := TakeBooks(w.store, free, OfFocus, func);
      }
      LedgerByOwner(w, free, DoAddFocus(w, func).0, left, OfFocus);
    }
  }

  lemma KeepsRemoveFocus(w: World, free: seq<int>) returns (left: seq<int>)
    requires Ledger(w, free)
    ensures w.focus < |w.store.reg| && Ledger(DoRemoveFocus(w), left)
  {
    left := free;
    OneOwned(w, free, OfFocus, w.focus);
    if w.focus != 0 {
      left := DropBooks(w.store, free, OfFocus, w.focus);
      LedgerByOwner(w, free, DoRemoveFocus(w), left, OfFocus);
    }
  }

  lemma KeepsOther(w: World, free: seq<int>, v: Value) returns (left: seq<int>)
    requires Ledger(w, free)
    ensures Ledger(w.(store := w.store.Take(OfOther, v).0), left)
  {
    left := free;
    if v != Nil {
      left := TakeBooks(w.store, free, OfOther, v);
    }
    LedgerByOwner(w, free, w.(store := w.store.Take(OfOther, v).0), left, OfOther);
  }

  lemma KeepsOtherUnref(w: World, free: seq<int>, r: int) returns (left: seq<int>)
    requires Ledger(w, free) && Allowed(w, OtherUnref(r))
    ensures r < |w.store.reg| && Ledger(w.(store := w.store.Release(r)), left)
  {
    if r < 0 {
      KeepsNegative(w, free, r);
      left := free;
    } else {
      KeepsSpare(w, free, r);
      left := [r] + free;
    }
  }

  // ---------------------------------------------------------------- runs

  ghost predicate Good(w: World) {
    exists free :: Ledger(w, free)
  }

  lemma Bounds(w: World)
    requires Good(w)
    ensures w.store.Sound() && w.handler < |w.store.reg| && w.focus < |w.store.reg|
    ensures forall x: nat :: w.UserData(x) < |w.store.reg|
    ensures forall m: nat :: w.MenuData(m) < |w.store.reg|
    ensures forall r <- w.store.book :: 1 <= r < |w.store.reg|
    ensures FramesFair(w)
  {
    var free :| Ledger(w, free);
    forall x: nat
      ensures w.UserData(x) < |w.store.reg|
    {
      assert OwnerFair(w, OfWidget(x));
    }
    forall m: nat
      ensures w.MenuData(m) < |w.store.reg|
    {
      assert OwnerFair(w, OfMenu(m));
    }
    assert OwnerFair(w, OfHandler) && OwnerFair(w, OfFocus);
  }

  ghost function Next(w: World, s: Step): World
    requires Good(w) && Allowed(w, s)
  {
    Bounds(w);
    match s
    case SetWidget(x, func, data) => DoSetWidget(w, x, func, data)
    case SetMenu(m, func, data) => DoSetMenu(w, m, func, data)
    case AddIdle(given, obj) => if given.None? then w else DoAddIdle(w, given.value, Obj(obj)).0
    case CallIdle => w.(idles := w.idles[1..] + [w.idles[0]])
    case RemoveIdle(r) => DoRemoveIdle(w, r)
    case AddTimeout(given, obj) => if given.None? then w else DoAddTimeout(w, given.value, Obj(obj)).0
    case RepeatTimeout(r) => DoRepeat(w, r)
    case CallTimeout(r) => DoCallTimeout(w, r)
    case FinishTimeout => DoFinish(w)
    case RemoveTimeout(r) => DoRemoveTimeout(w, r)
    case AddHandler(func) => DoAddHandler(w, func).0
    case RemoveHandler => DoRemoveHandler(w)
    case AddFocusHandler(func) => DoAddFocus(w, func).0
    case RemoveFocusHandler => DoRemoveFocus(w)
    case OtherRef(v) => w.(store := w.store.Take(OfOther, v).0)
    case OtherUnref(r) => w.(store := w.store.Release(r))
  }

  const START := World(Store([Nil], map[]), [], map[], map[], map[], [], multiset{}, [], 0, 0)

  lemma StartIsGood()
    ensures Good(START)
  {
    assert Live([Nil], []) == {};
    assert Ledger(START, []);
  }

  /** Every step keeps the ledger. */
  lemma StepKeeps(w: World, s: Step)
    requires Good(w) && Allowed(w, s)
    ensures Good(Next(w, s))
  {
    var free :| Ledger(w, free);
    var left := free;
    match s
    case SetWidget(x, func, data) => left := KeepsSetWidget(w, free, x, func, data);
    case SetMenu(m, func, data) => left := KeepsSetMenu(w, free, m, func, data);
    case AddIdle(given, obj) => if given.Some? { left := KeepsAddIdle(w, free, given.value, Obj(obj)); }
    case CallIdle => KeepsCallIdle(w, free);
    case RemoveIdle(r) => left := KeepsRemoveIdle(w, free, r);
    case AddTimeout(given, obj) => if given.Some? { left := KeepsAddTimeout(w, free, given.value, Obj(obj)); }
    case RepeatTimeout(r) => KeepsRepeat(w, free, r);
    case CallTimeout(r) => KeepsCallTimeout(w, free, r);
    case FinishTimeout => KeepsFinish(w, free);
    case RemoveTimeout(r) => left := KeepsRemoveTimeout(w, free, r);
    case AddHandler(func) => left := KeepsAddHandler(w, free, func);
    case RemoveHandler => left := KeepsRemoveHandler(w, free);
    case AddFocusHandler(func) => left := KeepsAddFocus(w, free, func);
    case RemoveFocusHandler => left := KeepsRemoveFocus(w, free);
    case OtherRef(v) => left := KeepsOther(w, free, v);
    case OtherUnref(r) => left := KeepsOtherUnref(w, free, r);
    assert Ledger(Next(w, s), left);
  }

  ghost predicate AllowedRun(w: World, steps: seq<Step>)
    requires Good(w)
    decreases steps
  {
    steps == [] ||
    (Allowed(w, steps[0]) && (StepKeeps(w, steps[0]); AllowedRun(Next(w, steps[0]), steps[1..])))
  }

  ghost function After(w: World, steps: seq<Step>): World
    requires Good(w) && AllowedRun(w, steps)
    decreases steps
  {
    if steps == [] then w
    else
      StepKeeps(w, steps[0]);
      After(Next(w, steps[0]), steps[1..])
  }

  /** And so does every run: callbacks that add, repeat or remove while they run are steps of it
      like any other. */
  lemma {:induction false} RunKeeps(w: World, steps: seq<Step>)
    requires Good(w) && AllowedRun(w, steps)
    ensures Good(After(w, steps))
    decreases steps
  {
    if steps != [] {
      StepKeeps(w, steps[0]);
      RunKeeps(Next(w, steps[0]), steps[1..]);
    }
  }

  // ---------------------------------------------------------------- what the ledger says

  /** What the program itself remembers of references. */
  predicate Holds(w: World, o: Owner, r: int) {
    r > 0 &&
    match o
    case OfWidget(x) => w.UserData(x) == r
    case OfMenu(m) => w.MenuData(m) == r
    case OfIdle => r in w.idles
    case OfTimeout => r in w.pending
    case OfHandler => w.handler == r
    case OfFocus => w.focus == r
    case OfOther => false
  }

  /** A reference remembered anywhere is live, for that owner only, and a live one is remembered
      by its owner, except that of a timeout that has run. */
  lemma OneOwner(w: World, o: Owner, p: Owner, r: int)
    requires Good(w)
    ensures Holds(w, o, r) ==> w.store.Owns(o, r) && w.store.Get(r) != Nil
    ensures Holds(w, o, r) && Holds(w, p, r) ==> o == p
    ensures w.store.Owns(o, r) && !o.OfTimeout? && !o.OfOther? ==> Holds(w, o, r)
  {
    var free :| Ledger(w, free);
    assert OwnerFair(w, o) && OwnerFair(w, p);
    if o == OfIdle && r in w.idles {
      var i := First(w.idles, r);
      assert w.store.Owns(OfIdle, w.idles[i]);
    }
    if p == OfIdle && r in w.idles {
      var i := First(w.idles, r);
      assert w.store.Owns(OfIdle, w.idles[i]);
    }
    if r in w.store.book {
      assert Remembered(w, r) && r in Live(w.store.reg, free);
    }
  }

  lemma ZeroSpoils(t: seq<Value>, left: seq<int>)
    requires |t| > 0
    ensures !Chained(Unref(t, 0), left)
  {
    assert left == [] || LinkedAt(Unref(t, 0), left, 0) || !Chained(Unref(t, 0), left);
  }

  /** Whoever remembers a reference that is released is left with one it does not own; and one that
      is free cannot be released. */
  lemma ReleaseSpoils(w: World, r: int, u: World)
    requires Good(w) && 0 <= r < |w.store.reg| && u.store == w.store.Release(r)
    requires r in w.store.book ==> Holds(u, w.store.book[r].owner, r)
    ensures !Good(u)
  {
    if Good(u) {
      var free, left :| Ledger(w, free) && Ledger(u, left);
      if r in w.store.book {
        OneOwner(u, w.store.book[r].owner, OfOther, r);
        assert false;
      } else if r > 0 {
        UnrefExactly(w.store.reg, free, r);
        assert false;
      } else {
        ZeroSpoils(w.store.reg, left);
        assert false;
      }
    }
  }

  /** The ledger outlives the removal of an idle function exactly when the reference given is one of
      an idle function, or spare, or negative. */
  lemma RemoveIdleExactly(w: World, r: int)
    requires Good(w) && r < |w.store.reg|
    ensures |w.store.reg| > 0 && (Good(DoRemoveIdle(w, r)) <==> Allowed(w, RemoveIdle(r)))
  {
    var free :| Ledger(w, free);
    if Allowed(w, RemoveIdle(r)) {
      StepKeeps(w, RemoveIdle(r));
    } else {
      if r in w.store.book {
        SpareElsewhere(w, free, r);
        assert Remembered(w, r);
        Bounds(w);
      }
      ReleaseSpoils(w, r, DoRemoveIdle(w, r));
    }
  }

  /** The same for a timeout, which may still be pending; other parts of the binding must not
      remember the reference. */
  lemma RemoveTimeoutExactly(w: World, r: int)
    requires Good(w) && r < |w.store.reg|
    ensures |w.store.reg| > 0 && (Good(DoRemoveTimeout(w, r)) <==> Allowed(w, RemoveTimeout(r)))
  {
    var free :| Ledger(w, free);
    if Allowed(w, RemoveTimeout(r)) {
      StepKeeps(w, RemoveTimeout(r));
    } else {
      if r in w.store.book {
        SpareElsewhere(w, free, r);
        assert Remembered(w, r);
        Bounds(w);
      }
      ReleaseSpoils(w, r, DoRemoveTimeout(w, r));
    }
  }

  /** Repeating keeps it exactly when the reference is a timeout's, or stands for no table. */
  lemma RepeatExactly(w: World, r: int)
    requires Good(w)
    ensures Good(DoRepeat(w, r)) <==> Allowed(w, RepeatTimeout(r))
  {
    if Allowed(w, RepeatTimeout(r)) {
      StepKeeps(w, RepeatTimeout(r));
    } else if Good(DoRepeat(w, r)) {
      var free :| Ledger(w, free);
      OneOwner(DoRepeat(w, r), OfTimeout, OfOther, r);
      assert false;
    }
  }

  /** What calling back through a reference to a table passes to Lua. */
  function TableCall(w: World, r: int): Option<(Value, Value)> {
    if w.IsTable(r) && w.tables[w.store.Get(r).t].func.Function? then
      var p := w.tables[w.store.Get(r).t];
      Some((p.func, p.data))
    else None
  }

  function WidgetCall(w: World, x: nat): Option<(Value, Value)> {
    if x in w.callbacks && w.callbacks[x].Function? then
      Some((w.callbacks[x], if w.UserData(x) != 0 then w.store.Get(w.UserData(x)) else Nil))
    else None
  }

  /** Pending timeouts and registered idle functions refer to tables that are still there. */
  lemma PendingAndIdleAreTables(w: World, r: int)
    requires Good(w) && (r in w.pending || r in w.idles)
    ensures w.IsTable(r)
  {
    var free :| Ledger(w, free);
    OneOwner(w, if r in w.pending then OfTimeout else OfIdle, OfOther, r);
    assert OwnerFair(w, OfTimeout) && OwnerFair(w, OfIdle);
    if r !in w.pending {
      var i := First(w.idles, r);
      assert w.store.Owns(OfIdle, w.idles[i]);
    }
    assert Remembered(w, r);
  }

  /** The steps that give up a reference of an owner: firing a timeout is none of them. */
  predicate GivesUp(s: Step, o: Owner, r: int) {
    match o
    case OfWidget(x) => s.SetWidget? && s.x == x
    case OfMenu(m) => s.SetMenu? && s.m == m
    case OfHandler => s == RemoveHandler
    case OfFocus => s == RemoveFocusHandler
    case _ => s == RemoveIdle(r) || s == RemoveTimeout(r) || s == OtherUnref(r)
  }

  lemma TakeLeaves(s: Store, free: seq<int>, o: Owner, v: Value, r: int)
    requires Books(s, free) && r in s.book
    ensures r in s.Take(o, v).0.book && s.Take(o, v).0.book[r] == s.book[r]
  {
    if v != Nil {
      var left := RefIsNew(s.reg, free, v);
    }
  }

  lemma SwapLeaves(s: Store, free: seq<int>, o: Owner, held: int, v: Value, r: int)
    requires Books(s, free) && r in s.book && s.book[r].owner != o
    requires held == 0 || s.Owns(o, held)
    ensures held < |s.reg| && r in s.Swap(o, held, v).0.book && s.Swap(o, held, v).0.book[r] == s.book[r]
  {
    if held != 0 {
      ReleaseBooks(s, free, held);
      TakeLeaves(s.Release(held), [held] + free, o, v, r);
    } else {
      TakeLeaves(s, free, o, v, r);
    }
  }

  lemma MoveLeaves(s: Store, free: seq<int>, o: Owner, held: int, v: Value, r: int)
    requires Books(s, free) && r in s.book && s.book[r].owner != o
    requires held == 0 || s.Owns(o, held)
    ensures held < |s.reg| && r in s.Move(o, held, v).0.book && s.Move(o, held, v).0.book[r] == s.book[r]
  {
    TakeLeaves(s, free, o, v, r);
    if held != 0 {
      ReleaseBooks(s, free, held);
    }
  }

  predicate Kept(w: World, u: World, r: int) {
    r in w.store.book && r in u.store.book && u.store.book[r] == w.store.book[r]
  }

  lemma SetEntry(w: World, s: Step, free: seq<int>, o: Owner, r: int)
    requires Ledger(w, free) && Good(w) && w.store.Owns(o, r) && (s.SetWidget? || s.SetMenu?) && !GivesUp(s, o, r)
    ensures Kept(w, Next(w, s), r)
  {
    if s.SetWidget? {
      assert OwnerFair(w, OfWidget(s.x));
      SwapLeaves(w.store, free, OfWidget(s.x), w.UserData(s.x), s.data, r);
    } else {
      assert OwnerFair(w, OfMenu(s.m));
      MoveLeaves(w.store, free, OfMenu(s.m), w.MenuData(s.m), Table(|w.tables|), r);
    }
  }

  lemma AddEntry(w: World, s: Step, free: seq<int>, r: int)
    requires Ledger(w, free) && Good(w) && r in w.store.book
    requires s.AddIdle? || s.AddTimeout? || s.AddHandler? || s.AddFocusHandler? || s.OtherRef?
    ensures Kept(w, Next(w, s), r)
  {
    Bounds(w);
    match s
    case AddIdle(given, obj) => TakeLeaves(w.store, free, OfIdle, Table(|w.tables|), r);
    case AddTimeout(given, obj) => TakeLeaves(w.store, free, OfTimeout, Table(|w.tables|), r);
    case AddHandler(func) => TakeLeaves(w.store, free, OfHandler, func, r);
    case AddFocusHandler(func) => TakeLeaves(w.store, free, OfFocus, func, r);
    case OtherRef(v) => TakeLeaves(w.store, free, OfOther, v, r);
  }

  lemma RemoveEntry(w: World, s: Step, free: seq<int>, o: Owner, r: int)
    requires Ledger(w, free) && Good(w) && Allowed(w, s) && w.store.Owns(o, r) && !GivesUp(s, o, r)
    requires !s.SetWidget? && !s.SetMenu?
    requires !s.AddIdle? && !s.AddTimeout? && !s.AddHandler? && !s.AddFocusHandler? && !s.OtherRef?
    ensures Kept(w, Next(w, s), r)
  {
    Bounds(w);
    match s
    case RemoveHandler => OneOwned(w, free, OfHandler, w.handler);
    case RemoveFocusHandler => OneOwned(w, free, OfFocus, w.focus);
    case FinishTimeout => KeepsFinish(w, free);
    case RemoveIdle(k) => assert Remembered(w, r);
    case RemoveTimeout(k) => assert Remembered(w, r);
    case OtherUnref(k) => assert Remembered(w, r);
    case _ =>
  }

  lemma StepEntry(w: World, s: Step, free: seq<int>, o: Owner, r: int)
    requires Ledger(w, free) && Good(w) && Allowed(w, s) && w.store.Owns(o, r) && !GivesUp(s, o, r)
    ensures Kept(w, Next(w, s), r)
  {
    match s
    case SetWidget(_, _, _) => SetEntry(w, s, free, o, r);
    case SetMenu(_, _, _) => SetEntry(w, s, free, o, r);
    case AddIdle(_, _) => AddEntry(w, s, free, r);
    case AddTimeout(_, _) => AddEntry(w, s, free, r);
    case AddHandler(_) => AddEntry(w, s, free, r);
    case AddFocusHandler(_) => AddEntry(w, s, free, r);
    case OtherRef(_) => AddEntry(w, s, free, r);
    case _ => RemoveEntry(w, s, free, o, r);
  }

  /** No step changes the function or the data in a table that was made. */
  lemma StepTables(w: World, s: Step)
    requires Good(w) && Allowed(w, s)
    ensures
      var u := Next(w, s);
      && |w.tables| <= |u.tables|
      && forall i | 0 <= i < |w.tables| :: u.tables[i].func == w.tables[i].func && u.tables[i].data == w.tables[i].data
  {
  }

  lemma SameValue(w: World, free: seq<int>, u: World, left: seq<int>, r: int)
    requires Books(w.store, free) && Books(u.store, left) && Kept(w, u, r)
    ensures u.store.Get(r) == w.store.Get(r)
  {
    assert r in Live(w.store.reg, free) && r in Live(u.store.reg, left);
  }

  /** All other steps leave the reference and what it stands for alone. */
  lemma StepLeaves(w: World, s: Step, o: Owner, r: int)
    requires Good(w) && Allowed(w, s) && w.store.Owns(o, r) && !GivesUp(s, o, r)
    ensures Next(w, s).store.Owns(o, r)
    ensures Next(w, s).store.Get(r) == w.store.Get(r)
    ensures w.IsTable(r) ==> TableCall(Next(w, s), r) == TableCall(w, r) && Next(w, s).IsTable(r)
  {
    StepKeeps(w, s);
    var u := Next(w, s);
    var free, left :| Ledger(w, free) && Ledger(u, left);
    StepEntry(w, s, free, o, r);
    SameValue(w, free, u, left, r);
    StepTables(w, s);
  }

  ghost predicate Spared(steps: seq<Step>, o: Owner, r: int) {
    forall s <- steps :: !GivesUp(s, o, r)
  }

  /** From its registration to its removal a reference stays its owner's, and calling back through
      it passes the function and the data it was given; a timeout that fires, repeats itself or
      is repeated keeps its reference all the same. */
  lemma {:induction false} RunLeaves(w: World, steps: seq<Step>, o: Owner, r: int)
    requires Good(w) && AllowedRun(w, steps) && w.store.Owns(o, r) && Spared(steps, o, r)
    ensures After(w, steps).store.Owns(o, r) && After(w, steps).store.Get(r) == w.store.Get(r)
    ensures w.IsTable(r) ==> TableCall(After(w, steps), r) == TableCall(w, r)
    decreases steps
  {
    if steps != [] {
      assert steps[0] in steps;
      StepKeeps(w, steps[0]);
      StepLeaves(w, steps[0], o, r);
      RunLeaves(Next(w, steps[0]), steps[1..], o, r);
    }
  }

  lemma StepOtherWidget(w: World, s: Step, x: nat)
    requires Good(w) && Allowed(w, s) && !(s.SetWidget? && s.x == x)
    ensures
      var u := Next(w, s);
      && u.UserData(x) == w.UserData(x)
      && (x in u.callbacks <==> x in w.callbacks) && (x in w.callbacks ==> u.callbacks[x] == w.callbacks[x])
  {
  }

  lemma StepWidgetCall(w: World, s: Step, x: nat)
    requires Good(w) && Allowed(w, s) && !(s.SetWidget? && s.x == x)
    ensures WidgetCall(Next(w, s), x) == WidgetCall(w, x)
  {
    StepOtherWidget(w, s, x);
    if w.UserData(x) != 0 {
      OneOwnerOfWidget(w, x);
      StepLeaves(w, s, OfWidget(x), w.UserData(x));
    }
  }

  /** A widget calls what it was last given, whatever happens to all others. */
  lemma {:induction false} WidgetCallStays(w: World, steps: seq<Step>, x: nat)
    requires Good(w) && AllowedRun(w, steps) && forall s <- steps :: !(s.SetWidget? && s.x == x)
    ensures WidgetCall(After(w, steps), x) == WidgetCall(w, x)
    decreases steps
  {
    if steps != [] {
      assert steps[0] in steps;
      StepKeeps(w, steps[0]);
      StepWidgetCall(w, steps[0], x);
      WidgetCallStays(Next(w, steps[0]), steps[1..], x);
    }
  }

  lemma OneOwnerOfWidget(w: World, x: nat)
    requires Good(w) && w.UserData(x) != 0
    ensures w.store.Owns(OfWidget(x), w.UserData(x))
  {
    var free :| Ledger(w, free);
    assert OwnerFair(w, OfWidget(x));
  }

  /** Right after it was set a widget calls the function it was given with the data it was given. */
  lemma WidgetCallSet(w: World, x: nat, func: Value, data: Value)
    requires Good(w) && func.Function?
    ensures WidgetCall(Next(w, SetWidget(x, func, data)), x) == Some((func, data))
  {
    Bounds(w);
    var free :| Ledger(w, free);
    assert OwnerFair(w, OfWidget(x));
    if data != Nil {
      SwapHolds(w.store, free, OfWidget(x), w.UserData(x), data);
    }
  }

  lemma SwapHolds(s: Store, free: seq<int>, o: Owner, held: int, v: Value)
    requires Books(s, free) && (held == 0 || s.Owns(o, held)) && held < |s.reg| && v != Nil
    ensures
      var (u, r) := s.Swap(o, held, v);
      r > 0 && u.Get(r) == v
  {
    var now := free;
    if held != 0 {
      ReleaseBooks(s, free, held);
      now := [held] + free;
    }
    var left := TakeBooks(if held != 0 then s.Release(held) else s, now, o, v);
  }

  lemma SwapKeys(s: Store, free: seq<int>, o: Owner, held: int, v: Value)
    requires Books(s, free) && (held == 0 || s.Owns(o, held)) && held < |s.reg|
    ensures
      var (s2, r) := s.Swap(o, held, v);
      && s2.book.Keys == s.book.Keys - {held} + (if v == Nil then {} else {r})
      && (v != Nil ==> if held != 0 then r == held else r !in s.book)
  {
    if held != 0 {
      ReleaseBooks(s, free, held);
    } else {
      assert held !in Live(s.reg, free);
      if v != Nil {
        var left := TakeBooks(s, free, o, v);
      }
    }
  }

  /** Replacing a widget's callback releases exactly the reference it had, which the new data, if
      any, then get again. */
  lemma WidgetReplaced(w: World, x: nat, func: Value, data: Value)
    requires Good(w)
    ensures
      var u, held := Next(w, SetWidget(x, func, data)), w.UserData(x);
      && u.store.book.Keys == w.store.book.Keys - {held} + (if data == Nil then {} else {u.UserData(x)})
      && (held != 0 && data != Nil ==> u.UserData(x) == held)
      && (held == 0 && data != Nil ==> u.UserData(x) !in w.store.book)
  {
    Bounds(w);
    var free :| Ledger(w, free);
    assert OwnerFair(w, OfWidget(x));
    SwapKeys(w.store, free, OfWidget(x), w.UserData(x), data);
  }

  lemma MoveKeys(s: Store, free: seq<int>, o: Owner, held: int, v: Value)
    requires Books(s, free) && (held == 0 || s.Owns(o, held)) && held < |s.reg| && v != Nil
    ensures
      var (s2, r) := s.Move(o, held, v);
      r !in s.book && r != held && s2.book.Keys == s.book.Keys - {held} + {r}
  {
    var left := TakeBooks(s, free, o, v);
    var (s1, r) := s.Take(o, v);
    if held != 0 {
      ReleaseBooks(s1, left, held);
    } else {
      assert held !in Live(s.reg, free);
    }
  }

  /** A menu item gets a new reference before it gives up the one it had. */
  lemma MenuReplaced(w: World, m: nat, func: Value, data: Value)
    requires Good(w)
    ensures
      var u, held := Next(w, SetMenu(m, func, data)), w.MenuData(m);
      && u.MenuData(m) !in w.store.book && u.MenuData(m) != held
      && u.store.book.Keys == w.store.book.Keys - {held} + {u.MenuData(m)}
  {
    Bounds(w);
    var free :| Ledger(w, free);
    assert OwnerFair(w, OfMenu(m));
    MoveKeys(w.store, free, OfMenu(m), w.MenuData(m), Table(|w.tables|));
  }

  // ---------------------------------------------------------------- from registration to removal

  ghost function Upon(w: World, s: Step): (u: World)
    requires Good(w) && Allowed(w, s)
    ensures Good(u)
  {
    StepKeeps(w, s);
    Next(w, s)
  }

  /** A widget, however often it is called, calls what it was last given. */
  lemma WidgetToChange(w: World, x: nat, func: Value, data: Value, steps: seq<Step>)
    requires Good(w) && func.Function? && AllowedRun(Upon(w, SetWidget(x, func, data)), steps)
    requires forall s <- steps :: !(s.SetWidget? && s.x == x)
    ensures WidgetCall(After(Upon(w, SetWidget(x, func, data)), steps), x) == Some((func, data))
  {
    WidgetCallSet(w, x, func, data);
    WidgetCallStays(Upon(w, SetWidget(x, func, data)), steps, x);
  }

  /** The steps that keep a function and its data in a new table. */
  predicate Registers(s: Step) {
    s.SetMenu? || (s.AddIdle? && s.given.Some?) || (s.AddTimeout? && s.given.Some?)
  }

  function OwnerOf(s: Step): Owner
    requires Registers(s)
  {
    match s
    case SetMenu(m, _, _) => OfMenu(m)
    case AddIdle(_, _) => OfIdle
    case AddTimeout(_, _) => OfTimeout
  }

  function FuncOf(s: Step): Value
    requires Registers(s)
  {
    if s.SetMenu? then s.func else s.given.value
  }

  function DataOf(s: Step): Value
    requires Registers(s)
  {
    if s.SetMenu? then s.data else Obj(s.obj)
  }

  /** The reference such a step takes. */
  ghost function RefOf(w: World, s: Step): int
    requires Good(w) && Registers(s)
  {
    Bounds(w);
    w.store.Take(OwnerOf(s), Table(|w.tables|)).1
  }

  lemma MenuCallSet(w: World, free: seq<int>, m: nat, func: Value, data: Value)
    requires Good(w) && Ledger(w, free)
    ensures
      var u, r := Next(w, SetMenu(m, func, data)), RefOf(w, SetMenu(m, func, data));
      && u.MenuData(m) == r && u.store.Owns(OfMenu(m), r) && r !in w.store.book
      && (func.Function? ==> TableCall(u, r) == Some((func, data)))
  {
    Bounds(w);
    assert OwnerFair(w, OfMenu(m));
    OneOwned(w, free, OfMenu(m), w.MenuData(m));
    var left := MoveBooks(w.store, free, OfMenu(m), w.MenuData(m), Table(|w.tables|));
    MoveKeys(w.store, free, OfMenu(m), w.MenuData(m), Table(|w.tables|));
  }

  /** Right after its registration, calling through the new reference passes the function and the
      data that were given. */
  lemma CallSet(w: World, s: Step)
    requires Good(w) && Registers(s)
    ensures
      var u, r := Next(w, s), RefOf(w, s);
      && u.store.Owns(OwnerOf(s), r) && r !in w.store.book
      && (FuncOf(s).Function? ==> TableCall(u, r) == Some((FuncOf(s), DataOf(s))))
      && (s.SetMenu? ==> u.MenuData(s.m) == r)
  {
    var free :| Ledger(w, free);
    if s.SetMenu? {
      MenuCallSet(w, free, s.m, s.func, s.data);
    } else {
      Bounds(w);
      var left := TakeBooks(w.store, free, OwnerOf(s), Table(|w.tables|));
    }
  }

  /** From its registration to its removal, over every run in between, a reference remembered by a
      menu item, the idle ring or a timeout calls with the function and the data it was given. */
  lemma CallToRemoval(w: World, s: Step, steps: seq<Step>)
    requires Good(w) && Registers(s) && FuncOf(s).Function?
    requires AllowedRun(Upon(w, s), steps) && Spared(steps, OwnerOf(s), RefOf(w, s))
    ensures
      var u, r := After(Upon(w, s), steps), RefOf(w, s);
      && u.store.Owns(OwnerOf(s), r)
      && TableCall(u, r) == Some((FuncOf(s), DataOf(s)))
      && (!s.AddTimeout? ==> Holds(u, OwnerOf(s), r))
  {
    CallSet(w, s);
    RunLeaves(Upon(w, s), steps, OwnerOf(s), RefOf(w, s));
    RunKeeps(Upon(w, s), steps);
    OneOwner(After(Upon(w, s), steps), OwnerOf(s), OfOther, RefOf(w, s));
  }

  // ---------------------------------------------------------------- what is called, and when

  lemma AddPending(w: World, given: Option<Value>, obj: Option<Value>, r: int)
    requires Good(w) && r in w.store.book
    ensures Next(w, AddTimeout(given, obj)).pending[r] == w.pending[r]
  {
    if given.Some? {
      CallSet(w, AddTimeout(given, obj));
    }
  }

  /** A step schedules a timeout once more when it repeats it, and once less when it fires it. */
  lemma StepPending(w: World, s: Step, r: int)
    requires Good(w) && Allowed(w, s) && w.store.Owns(OfTimeout, r) && !GivesUp(s, OfTimeout, r)
    ensures Next(w, s).pending[r] == w.pending[r] + (if s == RepeatTimeout(r) then 1 else 0)
                                     - (if s == CallTimeout(r) then 1 else 0)
  {
    var free :| Ledger(w, free);
    assert Remembered(w, r);
    if s.AddTimeout? {
      AddPending(w, s.given, s.obj, r);
    }
  }

  /** Over every run up to its removal a timeout is pending as often as it was, and once more for
      each time it is repeated, and once less for each time it fires. */
  lemma {:induction false} PendingCount(w: World, steps: seq<Step>, r: int)
    requires Good(w) && AllowedRun(w, steps) && w.store.Owns(OfTimeout, r) && Spared(steps, OfTimeout, r)
    ensures After(w, steps).pending[r] + multiset(steps)[CallTimeout(r)]
         == w.pending[r] + multiset(steps)[RepeatTimeout(r)]
    decreases steps
  {
    if steps != [] {
      assert steps[0] in steps && steps == [steps[0]] + steps[1..];
      StepPending(w, steps[0], r);
      StepKeeps(w, steps[0]);
      StepLeaves(w, steps[0], OfTimeout, r);
      PendingCount(Next(w, steps[0]), steps[1..], r);
      assert multiset(steps) == multiset{steps[0]} + multiset(steps[1..]);
    }
  }

  /** From its registration to its removal a timeout is pending once, and once more for each time it
      is repeated, and once less for each time it fires. So it may fire as long as it has not. */
  lemma TimeoutToRemoval(w: World, func: Value, obj: Option<Value>, steps: seq<Step>)
    requires Good(w) && AllowedRun(Upon(w, AddTimeout(Some(func), obj)), steps)
    requires Spared(steps, OfTimeout, RefOf(w, AddTimeout(Some(func), obj)))
    ensures
      var u, r := After(Upon(w, AddTimeout(Some(func), obj)), steps), RefOf(w, AddTimeout(Some(func), obj));
      && u.pending[r] + multiset(steps)[CallTimeout(r)] == 1 + multiset(steps)[RepeatTimeout(r)]
      && (CallTimeout(r) !in steps ==> Allowed(u, CallTimeout(r)))
  {
    var s := AddTimeout(Some(func), obj);
    CallSet(w, s);
    NotPending(w, RefOf(w, s));
    PendingCount(Upon(w, s), steps, RefOf(w, s));
  }

  lemma NotPending(w: World, r: int)
    requires Good(w) && r !in w.store.book
    ensures w.pending[r] == 0
  {
    var free :| Ledger(w, free);
    RingOwned(w, free, r);
  }

  lemma OneStep(w: World, s: Step)
    requires Good(w) && Allowed(w, s)
    ensures AllowedRun(w, [s]) && After(w, [s]) == Upon(w, s)
  {
    assert [s][1..] == [];
    assert AllowedRun(Upon(w, s), []) && After(Upon(w, s), []) == Upon(w, s);
  }

  lemma TwoSteps(w: World, s: Step, t: Step)
    requires Good(w) && Allowed(w, s) && Allowed(Upon(w, s), t)
    ensures AllowedRun(w, [s, t]) && After(w, [s, t]) == Upon(Upon(w, s), t)
  {
    assert [s, t][1..] == [t];
    OneStep(Upon(w, s), t);
  }

  /** Wherever a run has got to, a timeout may be added and then fire, and all that was pending still is. */
  lemma AddAndFire(w: World, func: Value, obj: Option<Value>)
    requires Good(w) && func.Function?
    ensures
      var add := AddTimeout(Some(func), obj);
      var fire := CallTimeout(RefOf(w, add));
      && AllowedRun(w, [add, fire]) && After(w, [add, fire]).pending == w.pending
      && TableCall(Upon(w, add), RefOf(w, add)) == Some((func, Obj(obj)))
  {
    var add := AddTimeout(Some(func), obj);
    CallSet(w, add);
    TwoSteps(w, add, CallTimeout(RefOf(w, add)));
  }

  /** A ring after some turns. */
  function Turns(s: seq<int>, n: nat): (t: seq<int>)
    ensures |t| == |s|
    decreases n
  {
    if n == 0 || s == [] then s else Turns(s[1..] + [s[0]], n - 1)
  }

  lemma StepTurns(w: World, s: Step)
    requires Good(w) && Allowed(w, s) && !s.AddIdle? && !s.RemoveIdle?
    ensures Next(w, s).idles == if s == CallIdle then w.idles[1..] + [w.idles[0]] else w.idles
  {
  }

  lemma {:induction false} RingTurns(w: World, steps: seq<Step>)
    requires Good(w) && AllowedRun(w, steps)
    requires forall s <- steps :: !s.AddIdle? && !s.RemoveIdle?
    ensures After(w, steps).idles == Turns(w.idles, multiset(steps)[CallIdle])
    decreases steps
  {
    if steps != [] {
      assert steps[0] in steps && steps == [steps[0]] + steps[1..];
      assert multiset(steps) == multiset{steps[0]} + multiset(steps[1..]);
      StepKeeps(w, steps[0]);
      StepTurns(w, steps[0]);
      RingTurns(Next(w, steps[0]), steps[1..]);
    }
  }

  lemma OneTurn(i: nat, n: nat, m: nat)
    requires i < m && n >= 1
    ensures
      var x := (i + n - 1) % m;
      (i + n) % m == if x + 1 == m then 0 else x + 1
  {
    var x, q := (i + n - 1) % m, (i + n - 1) / m;
    if x + 1 == m {
      DivModUnique(i + n, m, q + 1, 0);
    } else {
      DivModUnique(i + n, m, q, x + 1);
    }
  }

  lemma {:induction false} TurnsAt(s: seq<int>, n: nat, i: nat)
    requires i < |s|
    ensures Turns(s, n)[i] == s[(i + n) % |s|]
    decreases n
  {
    if n == 0 {
      DivModUnique(i, |s|, 0, i);
    } else {
      TurnsAt(s[1..] + [s[0]], n - 1, i);
      OneTurn(i, n, |s|);
    }
  }

  /** As long as no idle function comes or goes, they are called in turn: after `n` calls the next is
      the one at place n modulo their number. */
  lemma IdlesInTurn(w: World, steps: seq<Step>)
    requires Good(w) && AllowedRun(w, steps) && w.idles != []
    requires forall s <- steps :: !s.AddIdle? && !s.RemoveIdle?
    ensures |After(w, steps).idles| == |w.idles|
    ensures After(w, steps).idles[0] == w.idles[multiset(steps)[CallIdle] % |w.idles|]
  {
    RingTurns(w, steps);
    TurnsAt(w.idles, multiset(steps)[CallIdle], 0);
  }

  /** The function the event handler or the focus handler calls. */
  function SlotCall(w: World, ref: int): Option<Value> {
    if w.store.Get(ref).Function? then Some(w.store.Get(ref)) else None
  }

  lemma SlotTaken(w: World, o: Owner, func: Value)
    requires Good(w) && func.Function?
    ensures w.store.Sound()
    ensures
      var (s, r) := w.store.Take(o, func);
      r > 0 && s.Owns(o, r) && s.Get(r) == func
  {
    Bounds(w);
    var free :| Ledger(w, free);
    var left := TakeBooks(w.store, free, o, func);
  }

  /** A handler that finds the slot empty is called until it is removed. */
  lemma HandlerToRemoval(w: World, func: Value, steps: seq<Step>)
    requires Good(w) && func.Function? && w.handler == 0
    requires AllowedRun(Upon(w, AddHandler(func)), steps)
    requires RemoveHandler !in steps
    ensures
      var u := After(Upon(w, AddHandler(func)), steps);
      u.handler == Upon(w, AddHandler(func)).handler && SlotCall(u, u.handler) == Some(func)
  {
    var u := Upon(w, AddHandler(func));
    SlotTaken(w, OfHandler, func);
    RunLeaves(u, steps, OfHandler, u.handler);
    RunKeeps(u, steps);
    OneOwner(After(u, steps), OfHandler, OfOther, u.handler);
  }

  lemma FocusToRemoval(w: World, func: Value, steps: seq<Step>)
    requires Good(w) && func.Function? && w.focus == 0
    requires AllowedRun(Upon(w, AddFocusHandler(func)), steps)
    requires RemoveFocusHandler !in steps
    ensures
      var u := After(Upon(w, AddFocusHandler(func)), steps);
      u.focus == Upon(w, AddFocusHandler(func)).focus && SlotCall(u, u.focus) == Some(func)
  {
    var u := Upon(w, AddFocusHandler(func));
    SlotTaken(w, OfFocus, func);
    RunLeaves(u, steps, OfFocus, u.focus);
    RunKeeps(u, steps);
    OneOwner(After(u, steps), OfFocus, OfOther, u.focus);
  }

  // ---------------------------------------------------------------- the functions of the binding

  class Binding {
    const registry: LuaTable
    ghost var book: map<int, Entry>
    var tables: seq<Pair>
    var callbacks: map<nat, Value>
    var widgets: map<nat, int>
    var menus: map<nat, int>
    var idles: seq<int>
    var pending: multiset<int>
    var running: seq<Frame>
    var handler: int
    var focus: int

    ghost function State(): World
      reads this, registry
    {
      World(Store(registry.slots, book), tables, callbacks, widgets, menus, idles, pending, running, handler, focus)
    }

    constructor ()
      ensures fresh(registry) && State() == START && Good(State())
    {
      registry := new LuaTable();
      book, tables, callbacks, widgets, menus := map[], [], map[], map[], map[];
      idles, pending, running, handler, focus := [], multiset{}, [], 0, 0;
      new;
      StartIsGood();
    }

    method Take(ghost o: Owner, v: Value) returns (ref: int)
      requires State().store.Sound()
      modifies registry, `book
      ensures (State().store, ref) == old(State().store.Take(o, v))
    {
      ref := registry.LuaRef(v);
      book := if v == Nil then book else book[ref := Entry(o, v)];
    }

    method Release(ref: int)
      requires |registry.slots| > 0 && ref < |registry.slots|
      modifies registry, `book
      ensures State().store == old(State().store.Release(ref))
    {
      registry.LuaUnref(ref);
      book := book - {ref};
    }

    method SetWidgetCallback(x: nat, func: Value, data: Value)
      requires Good(State())
      modifies this, registry
      ensures State() == Next(old(State()), SetWidget(x, func, data)) && Good(State())
    {
      StepKeeps(State(), SetWidget(x, func, data));
      Bounds(State());
      var refData;
      callbacks := callbacks[x := func];
      var oldData := if x in widgets then widgets[x] else 0;
      if oldData != 0 {
        Release(oldData);
      }
      if data == Nil {
        refData := 0;
      } else {
        refData := Take(OfWidget(x), data);
      }
      widgets := widgets[x := refData];
    }

    method SetMenuItemCallback(m: nat, func: Value, data: Value)
      requires Good(State())
      modifies this, registry
      ensures State() == Next(old(State()), SetMenu(m, func, data)) && Good(State())
      ensures func.Function? ==> TableCall(State(), State().MenuData(m)) == Some((func, data))
    {
      CallSet(State(), SetMenu(m, func, data));
      StepKeeps(State(), SetMenu(m, func, data));
      Bounds(State());
      var table := Table(|tables|);
      tables := tables + [Pair(func, data, Nil)];
      var refData := Take(OfMenu(m), table);
      var oldData := if m in menus then menus[m] else 0;
      if oldData != 0 {
        Release(oldData);
      }
      menus := menus[m := refData];
    }

    /** What a widget gives to Lua, besides itself. */
    method CallWidget(x: nat) returns (call: Option<(Value, Value)>)
      ensures call == WidgetCall(State(), x)
    {
      call := None;
      if x in callbacks && callbacks[x].Function? {
        var data := if x in widgets then widgets[x] else 0;
        var v := Nil;
        if data != 0 {
          v := registry.RawGetI(data);
        }
        call := Some((callbacks[x], v));
      }
    }

    /** The function the event handler calls with the event's number. */
    method CallHandler() returns (func: Option<Value>)
      ensures func == SlotCall(State(), handler)
    {
      var v := registry.RawGetI(handler);
      func := if v.Function? then Some(v) else None;
    }

    /** The function the focus handler calls with the two widgets. */
    method CallFocusHandler() returns (func: Option<Value>)
      ensures func == SlotCall(State(), focus)
    {
      var v := registry.RawGetI(focus);
      func := if v.Function? then Some(v) else None;
    }

    /** What a menu item, an idle function or a timeout gives to Lua. */
    method Recover(ref: int) returns (call: Option<(Value, Value)>)
      ensures call == TableCall(State(), ref)
    {
      call := None;
      var v := registry.RawGetI(ref);
      if v.Table? && v.t < |tables| {
        var func := tables[v.t].func;
        if func.Function? {
          call := Some((func, tables[v.t].data));
        }
      }
    }

    method AddEventHandler(func: Value) returns (added: int)
      requires Good(State())
      modifies this, registry
      ensures State() == Next(old(State()), AddHandler(func)) && Good(State())
      ensures added == if old(handler) == 0 then 1 else 0
    {
      StepKeeps(State(), AddHandler(func));
      Bounds(State());
      if handler == 0 {
        handler := Take(OfHandler, func);
        return 1;
      }
      return 0;
    }

    method RemoveEventHandler()
      requires Good(State())
      modifies this, registry
      ensures State() == Next(old(State()), RemoveHandler) && Good(State()) && handler == 0
    {
      StepKeeps(State(), RemoveHandler);
      Bounds(State());
      if handler != 0 {
        Release(handler);
        handler := 0;
      }
    }

    method AddFocusChangingHandler(func: Value) returns (added: int)
      requires Good(State())
      modifies this, registry
      ensures State() == Next(old(State()), AddFocusHandler(func)) && Good(State())
      ensures added == if old(focus) == 0 then 1 else 0
    {
      StepKeeps(State(), AddFocusHandler(func));
      Bounds(State());
      if focus == 0 {
        focus := Take(OfFocus, func);
        return 1;
      }
      return 0;
    }

    method RemoveFocusChangingHandler()
      requires Good(State())
      modifies this, registry
      ensures State() == Next(old(State()), RemoveFocusHandler) && Good(State()) && focus == 0
    {
      StepKeeps(State(), RemoveFocusHandler);
      Bounds(State());
      if focus != 0 {
        Release(focus);
        focus := 0;
      }
    }

    method AddIdleFunction(given: Option<Value>, obj: Option<Value>) returns (ref: int)
      requires Good(State())
      modifies this, registry
      ensures State() == Next(old(State()), AddIdle(given, obj)) && Good(State())
      ensures idles == if given.Some? then old(idles) + [ref] else old(idles)
      ensures if given.None? then ref == 0 else State().store.Owns(OfIdle, ref) && ref !in old(book)
      ensures given.Some? && given.value.Function? ==> TableCall(State(), ref) == Some((given.value, Obj(obj)))
    {
      StepKeeps(State(), AddIdle(given, obj));
      Bounds(State());
      if given.Some? {
        CallSet(State(), AddIdle(given, obj));
        var table := Table(|tables|);
        tables := tables + [Pair(given.value, if obj.Some? then obj.value else Nil, Nil)];
        ref := Take(OfIdle, table);
        idles := idles + [ref];
        return;
      }
      ref := 0;
    }

    /** FLTK turns its ring and then calls: what is called may change the ring again. */
    method CallIdleFunction() returns (call: Option<(Value, Value)>)
      requires Good(State()) && idles != []
      modifies this
      ensures State() == Next(old(State()), CallIdle) && Good(State())
      ensures idles == old(idles)[1..] + [old(idles)[0]]
      ensures call == TableCall(old(State()), old(idles)[0])
    {
      StepKeeps(State(), CallIdle);
      var ref := idles[0];
      call := Recover(ref);
      idles := idles[1..] + [ref];
    }

    method RemoveIdleFunction(ref: int)
      requires Good(State()) && ref < |registry.slots|
      modifies this, registry
      ensures |old(registry.slots)| > 0 && State() == DoRemoveIdle(old(State()), ref)
      ensures Good(State()) <==> Allowed(old(State()), RemoveIdle(ref))
    {
      RemoveIdleExactly(State(), ref);
      RemoveFromRing(ref);
      Release(ref);
    }

    method RemoveFromRing(ref: int)
      modifies `idles
      ensures idles == WithoutFirst(old(idles), ref)
      ensures ref !in old(idles) ==> idles == old(idles)
      ensures ref in old(idles) ==>
        exists p | 0 <= p < |old(idles)| ::
          old(idles)[p] == ref && ref !in old(idles)[..p] && idles == old(idles)[p + 1..] + old(idles)[..p]
    {
      var p := 0;
      while p < |idles| && idles[p] != ref
        invariant 0 <= p <= |idles| && ref !in idles[..p]
      {
        p := p + 1;
      }
      if p < |idles| {
        assert First(idles, ref) == p;
        idles := idles[p + 1..] + idles[..p];
      }
    }

    method AddTimer(given: Option<Value>, obj: Option<Value>) returns (ref: int)
      requires Good(State())
      modifies this, registry
      ensures State() == Next(old(State()), AddTimeout(given, obj)) && Good(State())
      ensures pending == if given.Some? then old(pending) + multiset{ref} else old(pending)
      ensures if given.None? then ref == 0 else State().store.Owns(OfTimeout, ref) && ref !in old(book)
      ensures given.Some? && given.value.Function? ==> TableCall(State(), ref) == Some((given.value, Obj(obj)))
    {
      StepKeeps(State(), AddTimeout(given, obj));
      Bounds(State());
      if given.Some? {
        CallSet(State(), AddTimeout(given, obj));
        var table := Table(|tables|);
        tables := tables + [Pair(given.value, if obj.Some? then obj.value else Nil, Boolean(false))];
        ref := Take(OfTimeout, table);
        pending := pending + multiset{ref};
        return;
      }
      ref := 0;
    }

    method RepeatTimer(ref: int)
      requires Good(State())
      modifies this
      ensures State() == DoRepeat(old(State()), ref)
      ensures
        var v := old(State()).store.Get(ref);
        if v.Table? then
          && pending == old(pending) + multiset{ref}
          && (v.t < |old(tables)| ==> tables == old(tables)[v.t := old(tables)[v.t].(again := Boolean(true))])
        else
          pending == old(pending) && tables == old(tables)
      ensures Good(State()) <==> Allowed(old(State()), RepeatTimeout(ref))
    {
      RepeatExactly(State(), ref);
      var v := registry.RawGetI(ref);
      if v.Table? {
        if v.t < |tables| {
          tables := tables[v.t := tables[v.t].(again := Boolean(true))];
        }
        pending := pending + multiset{ref};
      }
    }

    /** FLTK takes the timeout off its list and calls it. */
    method CallTimer(ref: int) returns (call: Option<(Value, Value)>)
      requires Good(State()) && ref in pending
      modifies this
      ensures State() == Next(old(State()), CallTimeout(ref)) && Good(State())
      ensures call == TableCall(old(State()), ref)
      ensures pending == old(pending) - multiset{ref} && tables == old(tables)
      ensures |running| == |old(running)| + 1 && running[..|old(running)|] == old(running)
      ensures
        var frame := running[|old(running)|];
        frame.ref == ref && State().store.Get(ref) == Table(frame.table)
    {
      StepKeeps(State(), CallTimeout(ref));
      PendingAndIdleAreTables(State(), ref);
      pending := pending - multiset{ref};
      call := Recover(ref);
      var v := registry.RawGetI(ref);
      if v.Table? && v.t < |tables| {
        running := running + [Frame(ref, v.t)];
      }
    }

    /** What the trampoline does after the Lua function returned: nothing is ever released here. */
    method FinishTimer()
      requires Good(State()) && running != []
      modifies this, registry
      ensures State() == Next(old(State()), FinishTimeout) && Good(State())
      ensures registry.slots == old(registry.slots) && running == old(running)[..|old(running)| - 1]
      ensures pending == old(pending) && tables == old(tables) && idles == old(idles)
    {
      StepKeeps(State(), FinishTimeout);
      Bounds(State());
      var f := running[|running| - 1];
      ReleaseUnlessAgain(f.ref, tables[f.table].again);
      running := running[..|running| - 1];
    }

    method ReleaseUnlessAgain(ref: int, again: Value)
      requires |registry.slots| > 0 && (again.Boolean? || ref < |registry.slots|)
      modifies registry, `book
      ensures State().store == if !again.Boolean? && !ToBoolean(again) then old(State().store.Release(ref))
                               else old(State().store)
    {
      if !again.Boolean? && !ToBoolean(again) {
        Release(ref);
      }
    }

    method RemoveTimer(ref: int)
      requires Good(State()) && ref < |registry.slots|
      modifies this, registry
      ensures |old(registry.slots)| > 0 && State() == DoRemoveTimeout(old(State()), ref)
      ensures Good(State()) <==> Allowed(old(State()), RemoveTimeout(ref))
      ensures forall r :: pending[r] == if ref == 0 || r == ref then 0 else old(pending)[r]
    {
      RemoveTimeoutExactly(State(), ref);
      pending := if ref == 0 then multiset{} else pending[ref := 0];
      Release(ref);
    }
  }
}
