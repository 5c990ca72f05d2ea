/** Trees of items in the heap, linked both ways.

    A `Layout` numbers the items of a tree in the order of a walk that visits an item before its
    children: the subtree of the item with number `k` takes up the numbers from `k` to `ends[k]`.
    The constructor of a tree gives it a layout, and insertions and removals give it a new one. */
module Tree {

  // By number: the item, where its subtree ends, how many children it has, its parent, its place
  // among the parent's children and, unless it is the first, the sibling before it.
  datatype Layout = Layout(order: seq<Fl_Tree_Item>, number: map<Fl_Tree_Item, int>, ends: seq<int>,
                           count: seq<int>, up: seq<int>, rank: seq<int>, prev: seq<int>)
  {
    ghost predicate Numbered() {
      && |ends| == |count| == |up| == |rank| == |prev| == |order| > 0
      && ends[0] == |order|
      && (forall k | 0 <= k < |order| :: k < ends[k] <= |order|)
      && (forall k | 0 <= k < |order| :: NumberedAt(k))
      && (forall k | 0 <= k < |order| :: order[k] in number && number[order[k]] == k)
      && (forall o <- number :: 0 <= number[o] < |order| && order[number[o]] == o)
    }

    /** The first child comes next, the next sibling where the subtree ends. */
    ghost predicate NumberedAt(k: int) {
      && 0 <= k < |order| == |ends| == |count| == |up| == |rank| == |prev|
      && (if k + 1 < ends[k] then k + 1 < |order| && up[k + 1] == k && rank[k + 1] == 0 && count[k] > 0
          else ends[k] == k + 1 && count[k] == 0)
      && (k > 0 ==> 0 <= up[k] < k && NextSibling(k) && PrevSibling(k))
    }

    ghost predicate NextSibling(k: int) {
      && 0 <= k < |order| == |ends| == |count| == |up| == |rank| && 0 <= up[k] < |order|
      && 0 <= rank[k] < count[up[k]]
      && if ends[k] < ends[up[k]] then
           k < ends[k] < |order| && up[ends[k]] == up[k] && rank[ends[k]] == rank[k] + 1 < count[up[k]]
         else
           ends[k] == ends[up[k]] && count[up[k]] == rank[k] + 1
    }

    ghost predicate PrevSibling(k: int) {
      && 0 <= k < |order| == |ends| == |up| == |rank| == |prev|
      && if rank[k] == 0 then k == up[k] + 1
         else
           var s := prev[k];
           0 <= up[k] < s < k && ends[s] == k && up[s] == up[k] && rank[s] == rank[k] - 1
    }

    /** The pointers to and from the item with this number are those of the numbering. */
    ghost predicate LinkedAt(k: int)
      reads order`children, order`parent
    {
      && 0 <= k < |order| == |count| == |up| == |rank|
      && |order[k].children| == count[k]
      && (k > 0 ==>
            && 0 <= up[k] < |order| && 0 <= rank[k] < |order[up[k]].children|
            && order[k].parent == order[up[k]]
            && order[up[k]].children[rank[k]] == order[k])
    }

    /** The same but for the children of item `q`, which were `kids`. */
    ghost predicate LinkedBut(q: int, kids: seq<Fl_Tree_Item>, k: int)
      reads order`children, order`parent
    {
      && 0 <= k < |order| == |count| == |up| == |rank|
      && (if k == q then |kids| else |order[k].children|) == count[k]
      && (k > 0 ==>
            && 0 <= up[k] < |order| && order[k].parent == order[up[k]]
            && var list := if up[k] == q then kids else order[up[k]].children;
            0 <= rank[k] < |list| && list[rank[k]] == order[k])
    }

    ghost predicate Linked(lo: int, hi: int)
      reads order`children, order`parent
    {
      forall k | 0 <= k < |order| && lo <= k < hi :: LinkedAt(k)
    }

    ghost predicate Mirrored()
      reads order`children, order`parent
    {
      && Numbered()
      && order[0].parent == null
      && Linked(0, |order|)
    }

    ghost function Between(lo: int, hi: int): set<Fl_Tree_Item> {
      set o | o in number && lo <= number[o] < hi
    }

    // ---------------------------------------------------------------- what the numbers imply

    /** Subtrees nest: what begins inside one has its parent there and ends there. */
    lemma {:induction false} Nested(k: int, u: int)
      requires Numbered() && 0 <= k < |order| && k < u < ends[k]
      ensures k <= up[u] && ends[u] <= ends[k]
      decreases u
    {
      assert NumberedAt(u);
      if rank[u] > 0 {
        var s := prev[u];
        if s > k {
          Nested(k, s);
        } else if s < k {
          Nested(s, k);
        }
      }
      if up[u] > k {
        Nested(k, up[u]);
      }
    }

    /** Item `k` is `p` or is found by going up from `p`. */
    ghost predicate Below(k: int, p: int)
      requires Numbered() && 0 <= p < |order|
      decreases p
    {
      p == k || (p > 0 && (assert NumberedAt(p); Below(k, up[p])))
    }

    /** The numbers of a subtree are those of the items from which one gets up to its root. */
    lemma {:induction false} SubtreeIsBelow(k: int, p: int)
      requires Numbered() && 0 <= k < |order| && 0 <= p < |order|
      ensures k <= p < ends[k] <==> Below(k, p)
      decreases p
    {
      assert NumberedAt(p);
      if p != k && p > 0 {
        SubtreeIsBelow(k, up[p]);
        if k < p < ends[k] {
          Nested(k, p);
        }
        if k < up[p] < ends[k] {
          Nested(k, up[p]);
        }
      }
    }

    /** The child of item `k` at place `t`. */
    lemma {:induction false} KidAt(k: int, t: int) returns (p: int)
      requires Numbered() && 0 <= k < |order| && 0 <= t < count[k]
      ensures k < p < |order| && up[p] == k && rank[p] == t
      decreases t
    {
      assert NumberedAt(k);
      if t == 0 {
        p := k + 1;
      } else {
        var s := KidAt(k, t - 1);
        assert NumberedAt(s);
        p := ends[s];
      }
    }

    /** A walk over the children of item `k` has come to child `t`, at number `cur`. */
    ghost predicate AtChild(k: int, t: int, cur: int)
    {
      && 0 <= k < |order| == |count| == |ends| == |up| == |rank|
      && 0 <= t <= count[k]
      && k < cur <= ends[k]
      && if t < count[k] then cur < |order| && up[cur] == k && rank[cur] == t else cur == ends[k]
    }

    lemma FirstChild(k: int)
      requires Numbered() && 0 <= k < |order|
      ensures AtChild(k, 0, k + 1)
    {
      assert NumberedAt(k);
    }

    lemma NextChild(k: int, t: int, cur: int)
      requires Numbered() && AtChild(k, t, cur) && t < count[k]
      ensures k < cur < ends[cur] <= ends[k]
      ensures Between(cur, ends[cur]) <= Between(k + 1, ends[k])
      ensures AtChild(k, t + 1, ends[cur])
    {
      assert NumberedAt(cur);
    }

    /** What lies behind a subtree has its parent outside. */
    lemma LinksBehind(cur: int)
      requires Numbered() && 0 <= cur < |order|
      ensures forall p | ends[cur] <= p < |order| :: !(cur <= up[p] < ends[cur])
    {
      forall p | ends[cur] <= p < |order|
        ensures !(cur <= up[p] < ends[cur])
      {
        assert NumberedAt(p) && NumberedAt(cur);
        if cur < up[p] < ends[cur] {
          Nested(cur, up[p]);
        }
      }
    }

    /** From an item to its parent and its one place among the parent's children. */
    lemma ToParent(k: int)
      requires Mirrored() && 0 < k < |order|
      ensures 0 <= up[k] < k && order[k].parent == order[up[k]]
      ensures order[k] in order[up[k]].children && |order[up[k]].children| == count[up[k]]
      ensures forall t | 0 <= t < |order[up[k]].children| && order[up[k]].children[t] == order[k] :: t == rank[k]
      ensures NextSibling(k) && PrevSibling(k)
    {
      assert NumberedAt(k) && LinkedAt(k) && LinkedAt(up[k]);
      forall t | 0 <= t < |order[up[k]].children| && order[up[k]].children[t] == order[k]
        ensures t == rank[k]
      {
        var p := KidAt(up[k], t);
        assert LinkedAt(p);
      }
    }

    /** The flags of a subtree's items, in order. */
    ghost predicate Has(was: seq<int>, lo: int, hi: int)
      reads order`selected
    {
      && |was| == |order|
      && forall i | 0 <= i < |order| && lo <= i < hi :: order[i].selected == was[i]
    }

    ghost predicate AllClear(lo: int, hi: int)
      reads order`selected
    {
      forall i | 0 <= i < |order| && lo <= i < hi :: order[i].selected == 0
    }

    ghost predicate Alive(lo: int, hi: int)
      reads order`freed
    {
      forall i | 0 <= i < |order| && lo <= i < hi :: !order[i].freed
    }

    ghost predicate Freed(lo: int, hi: int)
      reads order`freed
    {
      forall i | 0 <= i < |order| && lo <= i < hi :: order[i].freed
    }

    ghost predicate AllSet(was: seq<int>, lo: int, hi: int)
      reads order`selected
    {
      && |was| == |order|
      && forall i | 0 <= i < |order| && lo <= i < hi :: order[i].selected == if was[i] == 0 then 1 else was[i]
    }
  }

  // ---------------------------------------------------------------- cutting a subtree out

  function Shift(p: int, a: int, b: int): int {
    if p < b then p else p - (b - a)
  }

  function Back(k: int, a: int, b: int): int {
    if k < a then k else k + (b - a)
  }

  ghost function CutOrder(order: seq<Fl_Tree_Item>, a: int, b: int): (r: seq<Fl_Tree_Item>)
    requires 0 <= a <= b <= |order|
    ensures |r| == |order| - (b - a) && forall k | 0 <= k < |r| :: r[k] == order[Back(k, a, b)]
  {
    order[..a] + order[b..]
  }

  ghost function CutNumber(number: map<Fl_Tree_Item, int>, a: int, b: int): (r: map<Fl_Tree_Item, int>)
    ensures forall o <- r :: o in number && !(a <= number[o] < b) && r[o] == Shift(number[o], a, b)
    ensures forall o <- number :: !(a <= number[o] < b) ==> o in r
  {
    map o | o in number && !(a <= number[o] < b) :: Shift(number[o], a, b)
  }

  function CutShifted(s: seq<int>, a: int, b: int): (r: seq<int>)
    requires 0 <= a <= b <= |s|
    ensures |r| == |s| - (b - a) && forall k | 0 <= k < |r| :: r[k] == Shift(s[Back(k, a, b)], a, b)
  {
    seq(|s| - (b - a), k requires 0 <= k < |s| - (b - a) => Shift(s[Back(k, a, b)], a, b))
  }

  /** Item `q` has one child less. */
  function CutCount(count: seq<int>, q: int, a: int, b: int): (r: seq<int>)
    requires 0 <= a <= b <= |count|
    ensures |r| == |count| - (b - a)
    ensures forall k | 0 <= k < |r| :: r[k] == count[Back(k, a, b)] - if Back(k, a, b) == q then 1 else 0
  {
    seq(|count| - (b - a), k requires 0 <= k < |count| - (b - a) =>
      count[Back(k, a, b)] - if Back(k, a, b) == q then 1 else 0)
  }

  /** Among the children of `q` those behind place `j` move up. */
  function CutRank(rank: seq<int>, up: seq<int>, q: int, j: int, a: int, b: int): (r: seq<int>)
    requires 0 <= a <= b <= |rank| == |up|
    ensures |r| == |rank| - (b - a)
    ensures forall k | 0 <= k < |r| ::
      r[k] == rank[Back(k, a, b)] - if up[Back(k, a, b)] == q && rank[Back(k, a, b)] > j then 1 else 0
  {
    seq(|rank| - (b - a), k requires 0 <= k < |rank| - (b - a) =>
      rank[Back(k, a, b)] - if up[Back(k, a, b)] == q && rank[Back(k, a, b)] > j then 1 else 0)
  }

  /** The sibling behind `a` gets the one before it. */
  function CutPrev(prev: seq<int>, a: int, b: int): (r: seq<int>)
    requires 0 <= a < b <= |prev|
    ensures |r| == |prev| - (b - a)
    ensures forall k | 0 <= k < |r| ::
      r[k] == Shift(if prev[Back(k, a, b)] == a then prev[a] else prev[Back(k, a, b)], a, b)
  {
    seq(|prev| - (b - a), k requires 0 <= k < |prev| - (b - a) =>
      Shift(if prev[Back(k, a, b)] == a then prev[a] else prev[Back(k, a, b)], a, b))
  }

  /** The layout without the subtree of item `a`. */
  ghost function Without(l: Layout, a: int): Layout
    requires l.Numbered() && 0 < a < |l.order|
  {
    var b, q, j := l.ends[a], l.up[a], l.rank[a];
    Layout(CutOrder(l.order, a, b), CutNumber(l.number, a, b), CutShifted(l.ends, a, b), CutCount(l.count, q, a, b),
           CutShifted(l.up, a, b), CutRank(l.rank, l.up, q, j, a, b), CutPrev(l.prev, a, b))
  }

  /** Outside the subtree of `a`: every subtree contains it or misses it, parents and siblings
      lie outside. */
  lemma Outside(l: Layout, a: int, p: int)
    requires l.Numbered() && 0 < a < |l.order| && 0 <= p < |l.order| && !(a <= p < l.ends[a])
    ensures p >= l.ends[a] || l.ends[p] <= a || l.ends[p] >= l.ends[a]
    ensures p > 0 ==> 0 <= l.up[p] < p && !(a <= l.up[p] < l.ends[a])
    ensures p > 0 && l.rank[p] > 0 ==> l.prev[p] == a || !(a <= l.prev[p] < l.ends[a])
  {
    assert l.NumberedAt(p) && l.NumberedAt(a);
    if p < a < l.ends[p] {
      l.Nested(p, a);
    }
    if p > 0 {
      var q := l.up[p];
      if a < q < l.ends[a] {
        l.Nested(a, q);
      }
      if l.rank[p] > 0 && a < l.prev[p] < l.ends[a] {
        l.Nested(a, l.prev[p]);
      }
    }
  }

  /** Siblings at the same place are the same. */
  lemma {:induction false} SamePlace(l: Layout, p: int, s: int)
    requires l.Numbered() && 0 < p < |l.order| && 0 < s < |l.order|
    requires l.up[p] == l.up[s] && l.rank[p] == l.rank[s]
    ensures p == s
    decreases p
  {
    assert l.NumberedAt(p) && l.NumberedAt(s);
    if l.rank[p] > 0 {
      SamePlace(l, l.prev[p], l.prev[s]);
    }
  }

  /** What became of the item with number `p`. */
  ghost predicate CutAt(l: Layout, a: int, m: Layout, p: int)
  {
    && 0 <= p < |l.order| == |l.ends| == |l.count| == |l.up| == |l.rank| == |l.prev| && 0 <= a < |l.ends|
    && var b := l.ends[a];
    var k := Shift(p, a, b);
    && 0 <= k < |m.order| == |m.ends| == |m.count| == |m.up| == |m.rank| == |m.prev|
    && m.order[k] == l.order[p]
    && m.ends[k] == Shift(l.ends[p], a, b)
    && m.count[k] == l.count[p] - (if p == l.up[a] then 1 else 0)
    && m.up[k] == Shift(l.up[p], a, b)
    && m.rank[k] == l.rank[p] - (if l.up[p] == l.up[a] && l.rank[p] > l.rank[a] then 1 else 0)
    && m.prev[k] == Shift(if l.prev[p] == a then l.prev[a] else l.prev[p], a, b)
  }

  lemma WithoutAt(l: Layout, a: int, p: int)
    requires l.Numbered() && 0 < a < |l.order| && 0 <= p < |l.order| && !(a <= p < l.ends[a])
    ensures CutAt(l, a, Without(l, a), p)
  {
    var k := Shift(p, a, l.ends[a]);
    assert Back(k, a, l.ends[a]) == p;
  }

  ghost predicate IsCut(l: Layout, a: int, m: Layout) {
    && l.Numbered() && 0 < a < |l.order|
    && |m.order| == |l.order| - (l.ends[a] - a)
    && (forall p | 0 <= p < |l.order| && !(a <= p < l.ends[a]) :: CutAt(l, a, m, p))
  }

  lemma NotAtCut(l: Layout, a: int, p: int)
    requires l.Numbered() && 0 < a < |l.order| && 0 < p < |l.order| && p != a
    ensures !(l.up[p] == l.up[a] && l.rank[p] == l.rank[a])
  {
    if l.up[p] == l.up[a] && l.rank[p] == l.rank[a] {
      SamePlace(l, p, a);
    }
  }

  lemma FirstCut(l: Layout, a: int, m: Layout, p: int)
    requires IsCut(l, a, m) && 0 <= p < |l.order| && !(a <= p < l.ends[a])
    ensures
      var k := Shift(p, a, l.ends[a]);
      && 0 <= k < |m.order| == |m.ends| == |m.count| == |m.up| == |m.rank|
      && k < m.ends[k] <= |m.order|
      && if k + 1 < m.ends[k] then k + 1 < |m.order| && m.up[k + 1] == k && m.rank[k + 1] == 0 && m.count[k] > 0
         else m.ends[k] == k + 1 && m.count[k] == 0
  {
    var b, q := l.ends[a], l.up[a];
    Outside(l, a, p);
    assert CutAt(l, a, m, p) && l.NumberedAt(p) && l.NumberedAt(a);
    if p + 1 == a {
      if b < l.ends[p] {
        assert CutAt(l, a, m, b) && l.NumberedAt(b);
      }
    } else if p + 1 < l.ends[p] {
      assert CutAt(l, a, m, p + 1);
      if p == q && l.rank[a] == 0 {
        SamePlace(l, p + 1, a);
      }
    }
  }

  lemma NextCut(l: Layout, a: int, m: Layout, p: int)
    requires IsCut(l, a, m) && 0 < p < |l.order| && !(a <= p < l.ends[a])
    ensures m.NextSibling(Shift(p, a, l.ends[a]))
  {
    var b, q, e := l.ends[a], l.up[a], l.ends[p];
    Outside(l, a, p);
    NotAtCut(l, a, p);
    assert CutAt(l, a, m, p) && CutAt(l, a, m, l.up[p]) && l.NumberedAt(p) && l.NumberedAt(a);
    if e == a {
      if l.up[p] == q && b < l.ends[q] {
        assert CutAt(l, a, m, b) && l.NumberedAt(b);
      }
    } else if e < l.ends[l.up[p]] {
      NotAtCut(l, a, e);
      assert CutAt(l, a, m, e);
    }
  }

  lemma PrevCut(l: Layout, a: int, m: Layout, p: int)
    requires IsCut(l, a, m) && 0 < p < |l.order| && !(a <= p < l.ends[a])
    ensures m.PrevSibling(Shift(p, a, l.ends[a]))
  {
    Outside(l, a, p);
    NotAtCut(l, a, p);
    assert CutAt(l, a, m, p) && l.NumberedAt(p) && l.NumberedAt(a);
    if l.rank[p] > 0 {
      var s := l.prev[p];
      assert l.NumberedAt(s);
      if s != a {
        NotAtCut(l, a, s);
        assert CutAt(l, a, m, s);
      } else if l.rank[a] > 0 {
        NotAtCut(l, a, l.prev[a]);
        assert l.NumberedAt(l.prev[a]) && CutAt(l, a, m, l.prev[a]);
      }
    }
  }

  /** What is left after cutting is a tree again. */
  lemma CutOut(l: Layout, a: int) returns (m: Layout)
    requires l.Numbered() && 0 < a < |l.order|
    ensures IsCut(l, a, m) && m.Numbered() && m.order == l.order[..a] + l.order[l.ends[a]..]
  {
    m := Without(l, a);
    var b := l.ends[a];
    forall p | 0 <= p < |l.order| && !(a <= p < b)
      ensures CutAt(l, a, m, p)
    {
      WithoutAt(l, a, p);
    }
    forall k | 0 <= k < |m.order|
      ensures k < m.ends[k] <= |m.order| && m.NumberedAt(k)
    {
      CutNumberedAt(l, a, m, k);
    }
    NumbersWithout(l, a);
    assert CutAt(l, a, m, 0);
  }

  lemma CutNumberedAt(l: Layout, a: int, m: Layout, k: int)
    requires IsCut(l, a, m) && 0 <= k < |m.order|
    ensures m.NumberedAt(k) && k < m.ends[k] <= |m.order|
  {
    var p, b := Back(k, a, l.ends[a]), l.ends[a];
    Outside(l, a, p);
    assert CutAt(l, a, m, p) && l.NumberedAt(p);
    FirstCut(l, a, m, p);
    if k > 0 {
      NextCut(l, a, m, p);
      PrevCut(l, a, m, p);
    }
  }

  lemma NumbersWithout(l: Layout, a: int)
    requires l.Numbered() && 0 < a < |l.order|
    ensures
      var m := Without(l, a);
      && (forall k | 0 <= k < |m.order| :: m.order[k] in m.number && m.number[m.order[k]] == k)
      && (forall o <- m.number :: 0 <= m.number[o] < |m.order| && m.order[m.number[o]] == o)
  {
    var m, b := Without(l, a), l.ends[a];
    forall o | o in m.number
      ensures 0 <= m.number[o] < |m.order| && m.order[m.number[o]] == o
    {
      assert Back(Shift(l.number[o], a, b), a, b) == l.number[o];
    }
  }

  /** The pointers of item `p` after `a` is taken out of its parent's children. */
  lemma CutLinkedAt(l: Layout, a: int, m: Layout, p: int, kids: seq<Fl_Tree_Item>)
    requires IsCut(l, a, m) && 0 <= p < |l.order| && !(a <= p < l.ends[a])
    requires 0 <= l.up[a] < |l.order| && 0 <= l.rank[a] < |kids|
    requires l.order[l.up[a]].children == kids[..l.rank[a]] + kids[l.rank[a] + 1..]
    requires l.LinkedBut(l.up[a], kids, p)
    ensures m.LinkedAt(Shift(p, a, l.ends[a]))
  {
    Outside(l, a, p);
    assert CutAt(l, a, m, p);
    if p > 0 {
      NotAtCut(l, a, p);
      assert CutAt(l, a, m, l.up[p]);
    }
  }

  /** Once the deleted subtree is taken out of its parent's children, the pointers are those of
      the layout without it. */
  lemma LinkedAround(l: Layout, a: int, m: Layout, kids: seq<Fl_Tree_Item>)
    requires IsCut(l, a, m) && m.Numbered() && l.order[0].parent == null
    requires 0 <= l.up[a] < |l.order| && 0 <= l.rank[a] < |kids|
    requires l.order[l.up[a]].children == kids[..l.rank[a]] + kids[l.rank[a] + 1..]
    requires forall p | 0 <= p < |l.order| && !(a <= p < l.ends[a]) :: l.LinkedBut(l.up[a], kids, p)
    ensures m.Mirrored()
  {
    forall k | 0 <= k < |m.order|
      ensures m.LinkedAt(k)
    {
      var p := Back(k, a, l.ends[a]);
      CutLinkedAt(l, a, m, p, kids);
    }
    assert CutAt(l, a, m, 0);
  }

  lemma AliveAround(l: Layout, a: int, m: Layout)
    requires IsCut(l, a, m) && m.order == l.order[..a] + l.order[l.ends[a]..]
    requires l.Alive(0, a) && l.Alive(l.ends[a], |l.order|)
    ensures m.Alive(0, |m.order|)
  {
    forall k | 0 <= k < |m.order|
      ensures !m.order[k].freed
    {
      assert m.order[k] == l.order[Back(k, a, l.ends[a])];
    }
  }

  // ---------------------------------------------------------------- putting an item in

  function Up(p: int, a: int): int {
    if p < a then p else p + 1
  }

  function Down(k: int, a: int): int {
    if k < a then k else k - 1
  }

  /** Where a subtree ends after item `q` got a child at number `a`. */
  function EndUp(p: int, end: int, q: int, a: int): int {
    if end < a || (end == a && !(p <= q < end)) then end else end + 1
  }

  /** What became of the item with number `p` when `x` became child `t` of item `q`. */
  ghost predicate GrownAt(l: Layout, q: int, t: int, a: int, m: Layout, p: int)
  {
    && 0 <= p < |l.order| == |l.ends| == |l.count| == |l.up| == |l.rank| == |l.prev|
    && var k := Up(p, a);
    && 0 <= k < |m.order| == |m.ends| == |m.count| == |m.up| == |m.rank| == |m.prev|
    && m.order[k] == l.order[p]
    && m.ends[k] == EndUp(p, l.ends[p], q, a)
    && m.count[k] == l.count[p] + (if p == q then 1 else 0)
    && m.up[k] == Up(l.up[p], a)
    && m.rank[k] == l.rank[p] + (if l.up[p] == q && l.rank[p] >= t then 1 else 0)
    && m.prev[k] == if p == a && l.up[p] == q then a else Up(l.prev[p], a)
  }

  ghost predicate IsGrown(l: Layout, q: int, t: int, a: int, x: Fl_Tree_Item, m: Layout) {
    && l.Numbered() && l.AtChild(q, t, a)
    && |m.order| == |l.order| + 1
    && |m.order| == |m.ends| == |m.count| == |m.up| == |m.rank| == |m.prev|
    && m.order[a] == x && m.ends[a] == a + 1 && m.count[a] == 0 && m.up[a] == q && m.rank[a] == t
    && (t > 0 ==> 0 <= m.prev[a] < |l.order| && l.up[m.prev[a]] == q && l.rank[m.prev[a]] == t - 1 && 0 < m.prev[a])
    && (forall p | 0 <= p < |l.order| :: GrownAt(l, q, t, a, m, p))
  }

  lemma FirstGrown(l: Layout, q: int, t: int, a: int, x: Fl_Tree_Item, m: Layout, p: int)
    requires IsGrown(l, q, t, a, x, m) && 0 <= p < |l.order|
    ensures
      var k := Up(p, a);
      && 0 <= k < |m.order|
      && k < m.ends[k] <= |m.order|
      && if k + 1 < m.ends[k] then k + 1 < |m.order| && m.up[k + 1] == k && m.rank[k + 1] == 0 && m.count[k] > 0
         else m.ends[k] == k + 1 && m.count[k] == 0
  {
    assert GrownAt(l, q, t, a, m, p) && l.NumberedAt(p) && l.NumberedAt(q);
    if p + 1 < l.ends[p] {
      assert GrownAt(l, q, t, a, m, p + 1);
      if p + 1 == a && q < p < l.ends[q] {
        l.Nested(q, p);
      }
      if p == q && t == 0 {
        SamePlace(l, p + 1, a);
      }
    }
  }

  /** Child `t` of item `q`, if there is one, is at number `a`. */
  lemma ChildAtPlace(l: Layout, q: int, t: int, a: int, p: int)
    requires l.Numbered() && l.AtChild(q, t, a) && 0 < p < |l.order|
    ensures l.up[p] == q && l.rank[p] == t <==> p == a && t < l.count[q]
    ensures p == a && l.up[p] == q ==> t < l.count[q]
  {
    assert l.NumberedAt(p);
    if l.up[p] == q && l.rank[p] == t {
      SamePlace(l, p, a);
    }
  }

  /** Item `q`, another item `p` and the parent of `p`: which contains which. */
  lemma Placed(l: Layout, q: int, p: int)
    requires l.Numbered() && 0 <= q < |l.order| && 0 < p < |l.order|
    ensures 0 <= l.up[p] < p < l.ends[p] <= l.ends[l.up[p]]
    ensures p < q < l.ends[p] ==> l.ends[q] <= l.ends[p]
    ensures q < p < l.ends[q] ==> q <= l.up[p] && l.ends[p] <= l.ends[q]
    ensures q < l.up[p] < l.ends[q] ==> l.ends[l.up[p]] <= l.ends[q]
    ensures l.up[p] < q < l.ends[l.up[p]] ==> l.ends[q] <= l.ends[l.up[p]]
  {
    assert l.NumberedAt(p);
    if p < q < l.ends[p] {
      l.Nested(p, q);
    }
    if q < p < l.ends[q] {
      l.Nested(q, p);
    }
    if q < l.up[p] < l.ends[q] {
      l.Nested(q, l.up[p]);
    }
    if l.up[p] < q < l.ends[l.up[p]] {
      l.Nested(l.up[p], q);
    }
  }

  lemma NextGrown(l: Layout, q: int, t: int, a: int, x: Fl_Tree_Item, m: Layout, p: int)
    requires IsGrown(l, q, t, a, x, m) && 0 < p < |l.order|
    ensures m.NextSibling(Up(p, a))
  {
    var e, u := l.ends[p], l.up[p];
    Placed(l, q, p);
    ChildAtPlace(l, q, t, a, p);
    assert GrownAt(l, q, t, a, m, p) && GrownAt(l, q, t, a, m, u) && l.NumberedAt(p);
    if e < l.ends[u] {
      ChildAtPlace(l, q, t, a, e);
      assert GrownAt(l, q, t, a, m, e);
    } else if a < |l.order| {
      assert l.NumberedAt(a);
    }
  }

  lemma PrevGrown(l: Layout, q: int, t: int, a: int, x: Fl_Tree_Item, m: Layout, p: int)
    requires IsGrown(l, q, t, a, x, m) && 0 < p < |l.order|
    ensures m.PrevSibling(Up(p, a))
  {
    Placed(l, q, p);
    ChildAtPlace(l, q, t, a, p);
    assert GrownAt(l, q, t, a, m, p) && l.NumberedAt(p);
    if l.rank[p] > 0 {
      var s := l.prev[p];
      Placed(l, q, s);
      ChildAtPlace(l, q, t, a, s);
      assert GrownAt(l, q, t, a, m, s);
    }
  }

  lemma NewGrown(l: Layout, q: int, t: int, a: int, x: Fl_Tree_Item, m: Layout)
    requires IsGrown(l, q, t, a, x, m)
    ensures m.NumberedAt(a)
  {
    assert GrownAt(l, q, t, a, m, q) && l.NumberedAt(q);
    if t < l.count[q] {
      assert GrownAt(l, q, t, a, m, a) && l.NumberedAt(a);
    }
    if t > 0 {
      var s := m.prev[a];
      assert GrownAt(l, q, t, a, m, s) && l.NumberedAt(s);
      if t < l.count[q] {
        SamePlace(l, l.ends[s], a);
      }
    }
  }

  ghost function Inserted<T>(s: seq<T>, a: int, x: T): (r: seq<T>)
    requires 0 <= a <= |s|
    ensures |r| == |s| + 1 && r[a] == x
  {
    s[..a] + [x] + s[a..]
  }

  lemma InsertedAt<T>(s: seq<T>, a: int, x: T, p: int)
    requires 0 <= a <= |s| && 0 <= p < |s|
    ensures Inserted(s, a, x)[Up(p, a)] == s[p]
  {
  }

  function GrowEnds(ends: seq<int>, q: int, a: int): (r: seq<int>)
    ensures |r| == |ends| && forall p | 0 <= p < |ends| :: r[p] == EndUp(p, ends[p], q, a)
  {
    seq(|ends|, p requires 0 <= p < |ends| => EndUp(p, ends[p], q, a))
  }

  function GrowUp(up: seq<int>, a: int): (r: seq<int>)
    ensures |r| == |up| && forall p | 0 <= p < |up| :: r[p] == Up(up[p], a)
  {
    seq(|up|, p requires 0 <= p < |up| => Up(up[p], a))
  }

  function GrowRank(rank: seq<int>, up: seq<int>, q: int, t: int): (r: seq<int>)
    requires |rank| == |up|
    ensures |r| == |rank|
    ensures forall p | 0 <= p < |rank| :: r[p] == rank[p] + (if up[p] == q && rank[p] >= t then 1 else 0)
  {
    seq(|rank|, p requires 0 <= p < |rank| => rank[p] + (if up[p] == q && rank[p] >= t then 1 else 0))
  }

  function GrowPrev(prev: seq<int>, up: seq<int>, q: int, a: int): (r: seq<int>)
    requires |prev| == |up|
    ensures |r| == |prev|
    ensures forall p | 0 <= p < |prev| :: r[p] == if p == a && up[p] == q then a else Up(prev[p], a)
  {
    seq(|prev|, p requires 0 <= p < |prev| => if p == a && up[p] == q then a else Up(prev[p], a))
  }

  ghost function GrowNumber(number: map<Fl_Tree_Item, int>, a: int, x: Fl_Tree_Item): (r: map<Fl_Tree_Item, int>)
    requires x !in number
    ensures x in r && r[x] == a
    ensures forall o <- number :: o in r && r[o] == Up(number[o], a)
    ensures forall o <- r :: o == x || o in number
  {
    (map o | o in number :: Up(number[o], a))[x := a]
  }

  ghost function Grown(l: Layout, q: int, t: int, a: int, x: Fl_Tree_Item, before: int): Layout
    requires |l.order| == |l.ends| == |l.count| == |l.up| == |l.rank| == |l.prev|
    requires 0 <= q < a <= |l.order| && x !in l.number
  {
    Layout(Inserted(l.order, a, x), GrowNumber(l.number, a, x),
           Inserted(GrowEnds(l.ends, q, a), a, a + 1), Inserted(l.count[q := l.count[q] + 1], a, 0),
           Inserted(GrowUp(l.up, a), a, q), Inserted(GrowRank(l.rank, l.up, q, t), a, t),
           Inserted(GrowPrev(l.prev, l.up, q, a), a, before))
  }

  lemma GrownFields(l: Layout, q: int, t: int, a: int, x: Fl_Tree_Item, before: int, p: int)
    requires |l.order| == |l.ends| == |l.count| == |l.up| == |l.rank| == |l.prev|
    requires 0 <= q < a <= |l.order| && x !in l.number && 0 <= p < |l.order|
    ensures GrownAt(l, q, t, a, Grown(l, q, t, a, x, before), p)
  {
    InsertedAt(l.order, a, x, p);
    InsertedAt(GrowEnds(l.ends, q, a), a, a + 1, p);
    InsertedAt(l.count[q := l.count[q] + 1], a, 0, p);
    InsertedAt(GrowUp(l.up, a), a, q, p);
    InsertedAt(GrowRank(l.rank, l.up, q, t), a, t, p);
    InsertedAt(GrowPrev(l.prev, l.up, q, a), a, before, p);
  }

  /** The layout after `x` became child `t` of item `q`. */
  lemma Grow(l: Layout, q: int, t: int, x: Fl_Tree_Item) returns (a: int, m: Layout)
    requires l.Numbered() && 0 <= q < |l.order| && 0 <= t <= l.count[q] && x !in l.number
    ensures IsGrown(l, q, t, a, x, m) && m.Numbered() && m.order == l.order[..a] + [x] + l.order[a..]
  {
    var before;
    a, before := PlaceFor(l, q, t);
    m := Grown(l, q, t, a, x, before);
    forall p | 0 <= p < |l.order|
      ensures GrownAt(l, q, t, a, m, p)
    {
      GrownFields(l, q, t, a, x, before, p);
    }
    GrownNumbered(l, q, t, a, x, m);
  }

  lemma PlaceFor(l: Layout, q: int, t: int) returns (a: int, before: int)
    requires l.Numbered() && 0 <= q < |l.order| && 0 <= t <= l.count[q]
    ensures l.AtChild(q, t, a)
    ensures t > 0 ==> 0 < before < |l.order| && l.up[before] == q && l.rank[before] == t - 1
  {
    before := -1;
    if t == 0 {
      l.FirstChild(q);
      a := q + 1;
    } else {
      before := l.KidAt(q, t - 1);
      assert l.NumberedAt(before) && l.NumberedAt(q);
      a := l.ends[before];
    }
  }

  lemma GrownNumbered(l: Layout, q: int, t: int, a: int, x: Fl_Tree_Item, m: Layout)
    requires IsGrown(l, q, t, a, x, m) && x !in l.number && m.number == GrowNumber(l.number, a, x)
    ensures m.Numbered()
  {
    forall k | 0 <= k < |m.order|
      ensures k < m.ends[k] <= |m.order| && m.NumberedAt(k) && m.order[k] in m.number && m.number[m.order[k]] == k
    {
      if k == a {
        NewGrown(l, q, t, a, x, m);
      } else {
        GrownNumberedAt(l, q, t, a, x, m, Down(k, a));
      }
    }
    forall o | o in m.number
      ensures 0 <= m.number[o] < |m.order| && m.order[m.number[o]] == o
    {
      if o != x {
        assert GrownAt(l, q, t, a, m, l.number[o]);
      }
    }
    assert GrownAt(l, q, t, a, m, 0);
  }

  lemma GrownNumberedAt(l: Layout, q: int, t: int, a: int, x: Fl_Tree_Item, m: Layout, p: int)
    requires IsGrown(l, q, t, a, x, m) && 0 <= p < |l.order|
    ensures
      var k := Up(p, a);
      && 0 <= k < |m.order| && m.NumberedAt(k) && k < m.ends[k] <= |m.order|
      && m.order[k] == l.order[p]
  {
    assert GrownAt(l, q, t, a, m, p) && l.NumberedAt(p);
    FirstGrown(l, q, t, a, x, m, p);
    if p > 0 {
      NextGrown(l, q, t, a, x, m, p);
      PrevGrown(l, q, t, a, x, m, p);
    }
  }

  /** The pointers of item `p` after `x` was put among the children of `q`. */
  lemma GrownLinkedAt(l: Layout, q: int, t: int, a: int, x: Fl_Tree_Item, m: Layout, p: int, kids: seq<Fl_Tree_Item>)
    requires IsGrown(l, q, t, a, x, m) && 0 <= p < |l.order|
    requires t <= |kids| && l.order[q].children == kids[..t] + [x] + kids[t..]
    requires l.LinkedBut(q, kids, p)
    ensures m.LinkedAt(Up(p, a))
  {
    assert GrownAt(l, q, t, a, m, p);
    if p > 0 {
      assert GrownAt(l, q, t, a, m, l.up[p]) && l.NumberedAt(p);
    }
  }

  /** Once `x` is put among the children of `q`, the pointers are those of a tree again. */
  lemma GrownAround(l: Layout, q: int, t: int, x: Fl_Tree_Item, kids: seq<Fl_Tree_Item>) returns (a: int, m: Layout)
    requires l.Numbered() && 0 <= q < |l.order| && x !in l.number && l.order[0].parent == null
    requires x.children == [] && x.parent == l.order[q]
    requires 0 <= t <= |kids| && l.order[q].children == kids[..t] + [x] + kids[t..]
    requires forall p | 0 <= p < |l.order| :: l.LinkedBut(q, kids, p)
    ensures l.AtChild(q, t, a) && m.Mirrored() && m.order == l.order[..a] + [x] + l.order[a..]
  {
    assert l.LinkedBut(q, kids, q);
    a, m := Grow(l, q, t, x);
    assert GrownAt(l, q, t, a, m, q) && GrownAt(l, q, t, a, m, 0);
    forall k | 0 <= k < |m.order|
      ensures m.LinkedAt(k)
    {
      if k != a {
        GrownLinkedAt(l, q, t, a, x, m, Down(k, a), kids);
      }
    }
  }

  /** How many of the flags from `lo` to `hi` are set, or are not. */
  function Count(flags: seq<int>, lo: int, hi: int, selected: bool): (n: nat)
    requires 0 <= lo <= hi <= |flags|
    ensures n <= hi - lo
    decreases hi
  {
    if lo == hi then 0
    else Count(flags, lo, hi - 1, selected) + if (flags[hi - 1] != 0) == selected then 1 else 0
  }

  /** The number of places whose flag is set. */
  lemma {:induction false} CountSet(flags: seq<int>, lo: int, hi: int)
    requires 0 <= lo <= hi <= |flags|
    ensures Count(flags, lo, hi, true) == |set i | lo <= i < hi && flags[i] != 0|
    decreases hi
  {
    var places := set i | lo <= i < hi && flags[i] != 0;
    if lo == hi {
      assert places == {};
    } else {
      var front := set i | lo <= i < hi - 1 && flags[i] != 0;
      CountSet(flags, lo, hi - 1);
      assert places == if flags[hi - 1] != 0 then front + {hi - 1} else front;
    }
  }

  /** And of those whose flag is not. */
  lemma {:induction false} CountUnset(flags: seq<int>, lo: int, hi: int)
    requires 0 <= lo <= hi <= |flags|
    ensures Count(flags, lo, hi, false) == |set i | lo <= i < hi && flags[i] == 0|
    decreases hi
  {
    var places := set i | lo <= i < hi && flags[i] == 0;
    if lo == hi {
      assert places == {};
    } else {
      var front := set i | lo <= i < hi - 1 && flags[i] == 0;
      CountUnset(flags, lo, hi - 1);
      assert places == if flags[hi - 1] == 0 then front + {hi - 1} else front;
    }
  }

  lemma {:induction false} CountSplit(flags: seq<int>, lo: int, mid: int, hi: int, selected: bool)
    requires 0 <= lo <= mid <= hi <= |flags|
    ensures Count(flags, lo, hi, selected) == Count(flags, lo, mid, selected) + Count(flags, mid, hi, selected)
    decreases hi
  {
    if mid < hi {
      CountSplit(flags, lo, mid, hi - 1, selected);
    }
  }

  /** What a deselection right after a selection counts: every item. */
  lemma {:induction false} DeselectAfterSelect(was: seq<int>, now: seq<int>, lo: int, hi: int)
    requires 0 <= lo <= hi <= |was| == |now|
    requires forall i | lo <= i < hi :: now[i] == if was[i] == 0 then 1 else was[i]
    ensures Count(now, lo, hi, true) == hi - lo && Count(now, lo, hi, false) == 0
    ensures Count(was, lo, hi, true) + Count(was, lo, hi, false) == hi - lo
    decreases hi
  {
    if lo < hi {
      DeselectAfterSelect(was, now, lo, hi - 1);
    }
  }

  class Fl_Tree_Item {
    var selected: int
    var children: seq<Fl_Tree_Item>
    var parent: Fl_Tree_Item?
    /** Whether the item has been deleted. */
    ghost var freed: bool

    constructor ()
      ensures selected == 0 && children == [] && parent == null && !freed
    {
      selected, children, parent, freed := 0, [], null, false;
    }

    // ---------------------------------------------------------------- selecting

    /** Returns how many items were not selected; `was` are their flags before. */
    method SelectAll(ghost l: Layout, ghost k: int, ghost was: seq<int>) returns (count: int)
      requires l.Mirrored() && 0 <= k < |l.order| && this == l.order[k]
      requires l.Has(was, k, l.ends[k])
      modifies l.Between(k, l.ends[k])`selected
      ensures l.AllSet(was, k, l.ends[k])
      ensures forall i | k <= i < l.ends[k] :: l.order[i].selected == if was[i] == 0 then 1 else was[i]
      ensures count == Count(was, k, l.ends[k], false)
      ensures count == |set i | k <= i < l.ends[k] && was[i] == 0|
      decreases l.ends[k] - k, 1
    {
      count := 0;
      if selected == 0 {
        selected := 1;
        count := count + 1;
      }
      var more := SelectChildren(l, k, was);
      count := count + more;
      assert Count(was, k, k + 1, false) == if was[k] == 0 then 1 else 0;
      CountSplit(was, k, k + 1, l.ends[k], false);
      CountUnset(was, k, l.ends[k]);
    }

    /** The loop of `SelectAll`. */
    method SelectChildren(ghost l: Layout, ghost k: int, ghost was: seq<int>) returns (count: int)
      requires l.Mirrored() && 0 <= k < |l.order| && this == l.order[k]
      requires l.Has(was, k + 1, l.ends[k])
      modifies l.Between(k + 1, l.ends[k])`selected
      ensures l.AllSet(was, k + 1, l.ends[k])
      ensures count == Count(was, k + 1, l.ends[k], false)
      decreases l.ends[k] - k, 0
    {
      l.FirstChild(k);
      assert l.LinkedAt(k);
      count := 0;
      var t := 0;
      ghost var cur := k + 1;
      while t < |children|
        invariant l.Mirrored() && l.AtChild(k, t, cur) && |children| == l.count[k]
        invariant l.AllSet(was, k + 1, cur) && l.Has(was, cur, l.ends[k])
        invariant count == Count(was, k + 1, cur, false)
      {
        l.NextChild(k, t, cur);
        assert l.LinkedAt(cur);
        var changed := children[t].SelectAll(l, cur, was);
        CountSplit(was, k + 1, cur, l.ends[cur], false);
        count := count + changed;
        cur := l.ends[cur];
        t := t + 1;
      }
    }

    /** Returns how many items were selected. */
    method DeselectAll(ghost l: Layout, ghost k: int, ghost was: seq<int>) returns (count: int)
      requires l.Mirrored() && 0 <= k < |l.order| && this == l.order[k]
      requires l.Has(was, k, l.ends[k])
      modifies l.Between(k, l.ends[k])`selected
      ensures l.AllClear(k, l.ends[k])
      ensures forall i | k <= i < l.ends[k] :: l.order[i].selected == 0
      ensures count == Count(was, k, l.ends[k], true)
      ensures count == |set i | k <= i < l.ends[k] && was[i] != 0|
      decreases l.ends[k] - k, 1
    {
      count := 0;
      if selected != 0 {
        selected := 0;
        count := count + 1;
      }
      var more := DeselectChildren(l, k, was);
      count := count + more;
      assert Count(was, k, k + 1, true) == if was[k] != 0 then 1 else 0;
      CountSplit(was, k, k + 1, l.ends[k], true);
      CountSet(was, k, l.ends[k]);
    }

    /** The loop of `DeselectAll`. */
    method DeselectChildren(ghost l: Layout, ghost k: int, ghost was: seq<int>) returns (count: int)
      requires l.Mirrored() && 0 <= k < |l.order| && this == l.order[k]
      requires l.Has(was, k + 1, l.ends[k])
      modifies l.Between(k + 1, l.ends[k])`selected
      ensures l.AllClear(k + 1, l.ends[k])
      ensures count == Count(was, k + 1, l.ends[k], true)
      decreases l.ends[k] - k, 0
    {
      l.FirstChild(k);
      assert l.LinkedAt(k);
      count := 0;
      var t := 0;
      ghost var cur := k + 1;
      while t < |children|
        invariant l.Mirrored() && l.AtChild(k, t, cur) && |children| == l.count[k]
        invariant l.AllClear(k + 1, cur) && l.Has(was, cur, l.ends[k])
        invariant count == Count(was, k + 1, cur, true)
      {
        l.NextChild(k, t, cur);
        assert l.LinkedAt(cur);
        var changed := children[t].DeselectAll(l, cur, was);
        CountSplit(was, k + 1, cur, l.ends[cur], true);
        count := count + changed;
        cur := l.ends[cur];
        t := t + 1;
      }
    }

    // ---------------------------------------------------------------- walking

    method FindChild(item: Fl_Tree_Item) returns (t: int)
      ensures if item in children then 0 <= t < |children| && children[t] == item && item !in children[..t] else t == -1
    {
      t := 0;
      while t < |children|
        invariant 0 <= t <= |children| && item !in children[..t]
      {
        if item == children[t] {
          return;
        }
        t := t + 1;
      }
      t := -1;
    }

    /** The item with the next number. */
    method Next(ghost l: Layout, ghost k: int) returns (next: Fl_Tree_Item?)
      requires l.Mirrored() && 0 <= k < |l.order| && this == l.order[k]
      ensures next == if k + 1 < |l.order| then l.order[k + 1] else null
    {
      var c := this;
      assert l.NumberedAt(k) && l.LinkedAt(k);
      if |c.children| > 0 {
        assert l.LinkedAt(k + 1);
        return c.children[0];
      }
      ghost var n := k;
      while c.parent != null
        invariant 0 <= n < |l.order| && c == l.order[n] && l.ends[n] == k + 1
        decreases n
      {
        l.ToParent(n);
        var p := c.parent;
        var t := p.FindChild(c);
        t := t + 1;
        if t < |p.children| {
          assert l.LinkedAt(k + 1);
          return p.children[t];
        }
        c := p;
        n := l.up[n];
      }
      assert l.LinkedAt(n);
      return null;
    }

    /** The item with the number before. */
    method Prev(ghost l: Layout, ghost k: int) returns (prev: Fl_Tree_Item?)
      requires l.Mirrored() && 0 <= k < |l.order| && this == l.order[k]
      ensures prev == if k > 0 then l.order[k - 1] else null
    {
      assert l.LinkedAt(k);
      var p := parent;
      if p == null {
        return null;
      }
      l.ToParent(k);
      var t := p.FindChild(this);
      t := t - 1;
      if t == -1 {
        return p;
      }
      assert l.LinkedAt(l.prev[k]);
      p := p.children[t];
      p := p.LastBelow(l, l.prev[k]);
      return p;
    }

    /** Down through the last children: the item with the last number of a subtree. */
    method LastBelow(ghost l: Layout, ghost k: int) returns (item: Fl_Tree_Item)
      requires l.Mirrored() && 0 <= k < |l.order| && this == l.order[k]
      ensures item == l.order[l.ends[k] - 1]
    {
      item := this;
      ghost var n := k;
      assert l.LinkedAt(n);
      while |item.children| > 0
        invariant 0 <= n < |l.order| && item == l.order[n] && l.ends[n] == l.ends[k]
        invariant |item.children| == l.count[n]
        decreases |l.order| - n
      {
        ghost var p := l.KidAt(n, l.count[n] - 1);
        assert l.NumberedAt(p) && l.LinkedAt(p);
        item := item.children[|item.children| - 1];
        n := p;
      }
      assert l.NumberedAt(n);
    }

    // ---------------------------------------------------------------- inserting and removing

    /** A new item among the children. */
    method Insert(pos: int, ghost l: Layout, ghost k: int)
      returns (item: Fl_Tree_Item, ghost a: int, ghost m: Layout)
      requires l.Mirrored() && 0 <= k < |l.order| && this == l.order[k] && 0 <= pos <= |children|
      modifies this`children
      ensures fresh(item) && item.selected == 0 && !item.freed && item.parent == this
      ensures children == old(children)[..pos] + [item] + old(children)[pos..]
      ensures l.AtChild(k, pos, a)
      ensures m.Mirrored() && m.order == l.order[..a] + [item] + l.order[a..]
    {
      assert l.LinkedAt(k);
      ghost var kids := children;
      item := new Fl_Tree_Item();
      item.parent := this;
      children := children[..pos] + [item] + children[pos..];
      forall p | 0 <= p < |l.order|
        ensures l.LinkedBut(k, kids, p)
      {
        assert old(l.LinkedAt(p));
      }
      a, m := GrownAround(l, k, pos, item, kids);
    }

    /** Delete the children and all below them, each once. */
    method ClearChildren(ghost l: Layout, ghost k: int)
      requires l.Numbered() && 0 <= k < |l.order| && this == l.order[k]
      requires l.Linked(k, l.ends[k]) && l.Alive(k + 1, l.ends[k])
      modifies this`children, l.Between(k + 1, l.ends[k])`children, l.Between(k + 1, l.ends[k])`freed
      ensures children == [] && l.Freed(k + 1, l.ends[k])
      decreases l.ends[k] - k, 0
    {
      l.FirstChild(k);
      assert l.LinkedAt(k);
      var t := 0;
      ghost var cur := k + 1;
      while t < |children|
        invariant l.AtChild(k, t, cur) && |children| == l.count[k]
        invariant l.Linked(cur, l.ends[k])
        invariant l.Freed(k + 1, cur) && l.Alive(cur, l.ends[k])
      {
        l.NextChild(k, t, cur);
        assert l.LinkedAt(cur);
        l.LinksBehind(cur);
        label Before:
        children[t].Delete(l, cur);
        forall p | l.ends[cur] <= p < l.ends[k]
          ensures l.LinkedAt(p)
        {
          assert old@Before(l.LinkedAt(p));
        }
        cur := l.ends[cur];
        t := t + 1;
      }
      children := [];
    }

    /** The destructor. */
    method Delete(ghost l: Layout, ghost k: int)
      requires l.Numbered() && 0 <= k < |l.order| && this == l.order[k]
      requires l.Linked(k, l.ends[k]) && l.Alive(k, l.ends[k])
      modifies l.Between(k, l.ends[k])`children, l.Between(k, l.ends[k])`freed
      ensures l.Freed(k, l.ends[k])
      decreases l.ends[k] - k, 1
    {
      ClearChildren(l, k);
      freed := true;
    }

    /** Take an immediate child out and delete it with all below it. */
    method RemoveChild(item: Fl_Tree_Item, ghost l: Layout, ghost q: int) returns (r: int, ghost m: Layout)
      requires l.Mirrored() && 0 <= q < |l.order| && this == l.order[q] && l.Alive(0, |l.order|)
      modifies l.Between(0, |l.order|)`children, l.Between(0, |l.order|)`freed
      ensures r == if item in old(children) then 0 else -1
      ensures r == -1 ==> m == l && l.Mirrored() && l.Alive(0, |l.order|)
      ensures r == 0 ==> item in l.number && Removed(l, l.number[item], m)
      ensures r == 0 ==>
        var a := l.number[item];
        && m.order == l.order[..a] + l.order[l.ends[a]..]
        && (forall i | a <= i < l.ends[a] :: l.order[i].freed)
        && (forall i <- m.order :: !i.freed)
    {
      var t := 0;
      m := l;
      assert l.LinkedAt(q);
      while t < |children|
        invariant 0 <= t <= |children| == l.count[q] && item !in children[..t]
        invariant l.Mirrored() && l.Alive(0, |l.order|) && children == old(children)
      {
        if children[t] == item {
          ghost var a := l.KidAt(q, t);
          assert l.LinkedAt(a);
          m := RemoveAt(t, l, q, a);
          return 0, m;
        }
        t := t + 1;
      }
      r := -1;
    }

    method RemoveAt(t: int, ghost l: Layout, ghost q: int, ghost a: int) returns (ghost m: Layout)
      requires l.Mirrored() && 0 <= q < a < |l.order| && this == l.order[q] && l.Alive(0, |l.order|)
      requires 0 <= t < |children| && children[t] == l.order[a] && l.up[a] == q && l.rank[a] == t
      modifies l.Between(0, |l.order|)`children, l.Between(0, |l.order|)`freed
      ensures Removed(l, a, m)
    {
      assert l.NumberedAt(a) && l.LinkedAt(a);
      var item := children[t];
      item.Delete(l, a);
      ghost var kids := children;
      children := children[..t] + children[t + 1..];
      forall p | 0 <= p < |l.order| && !(a <= p < l.ends[a])
        ensures l.LinkedBut(q, kids, p)
      {
        assert old(l.LinkedAt(p));
        Outside(l, a, p);
      }
      m := RemovedAround(l, a, kids);
    }
  }

  /** Select a subtree, then deselect it: the second counts every item, whatever was selected before. */
  method SelectThenDeselect(item: Fl_Tree_Item, ghost l: Layout, ghost k: int, ghost was: seq<int>)
    returns (selected: int, deselected: int)
    requires l.Mirrored() && 0 <= k < |l.order| && item == l.order[k]
    requires l.Has(was, k, l.ends[k])
    modifies l.Between(k, l.ends[k])`selected
    ensures selected == Count(was, k, l.ends[k], false) && deselected == l.ends[k] - k
    ensures l.AllClear(k, l.ends[k])
  {
    selected := item.SelectAll(l, k, was);
    ghost var now := seq(|was|, i requires 0 <= i < |was| => if was[i] == 0 then 1 else was[i]);
    DeselectAfterSelect(was, now, k, l.ends[k]);
    deselected := item.DeselectAll(l, k, now);
  }

  /** The subtree of `a` is deleted, each item of it and no other; `m` numbers what is left. */
  ghost predicate Removed(l: Layout, a: int, m: Layout)
    reads l.order, m.order
  {
    && 0 < a < |l.order| == |l.ends| && a < l.ends[a] <= |l.order|
    && m.Mirrored() && m.order == l.order[..a] + l.order[l.ends[a]..]
    && l.Freed(a, l.ends[a])
    && m.Alive(0, |m.order|)
  }

  lemma RemovedAround(l: Layout, a: int, kids: seq<Fl_Tree_Item>) returns (m: Layout)
    requires l.Numbered() && 0 < a < |l.order| && l.order[0].parent == null
    requires 0 <= l.up[a] < |l.order| && 0 <= l.rank[a] < |kids|
    requires l.order[l.up[a]].children == kids[..l.rank[a]] + kids[l.rank[a] + 1..]
    requires forall p | 0 <= p < |l.order| && !(a <= p < l.ends[a]) :: l.LinkedBut(l.up[a], kids, p)
    requires l.Freed(a, l.ends[a]) && l.Alive(0, a) && l.Alive(l.ends[a], |l.order|)
    ensures Removed(l, a, m)
  {
    m := CutOut(l, a);
    LinkedAround(l, a, m, kids);
    AliveAround(l, a, m);
  }

  class Fl_Tree {
    var root: Fl_Tree_Item?
    ghost var layout: Layout

    ghost predicate Valid()
      reads this, layout.order
    {
      root != null ==> layout.Mirrored() && layout.order[0] == root && layout.Alive(0, |layout.order|)
    }

    /** The items in the order of a walk over the tree. */
    ghost function Order(): seq<Fl_Tree_Item>
      reads this
    {
      if root == null then [] else layout.order
    }

    /** A tree begins with a root. */
    constructor ()
      ensures Valid() && root != null && fresh(root) && Order() == [root]
    {
      var item := new Fl_Tree_Item();
      root := item;
      layout := Layout([item], map[item := 0], [1], [0], [-1], [0], [-1]);
      new;
      assert layout.NumberedAt(0) && layout.LinkedAt(0);
    }

    /** Every tree is built by insertions and removals, and each of them leaves a tree. */
    method Insert(item: Fl_Tree_Item, pos: int, ghost k: int) returns (child: Fl_Tree_Item, ghost a: int)
      requires Valid() && 0 <= k < |Order()| && item == Order()[k] && 0 <= pos <= |item.children|
      modifies this, item
      ensures Valid() && fresh(child) && k < a <= |old(Order())|
      ensures item.children == old(item.children)[..pos] + [child] + old(item.children)[pos..]
      ensures Order() == old(Order())[..a] + [child] + old(Order())[a..]
    {
      ghost var m;
      child, a, m := item.Insert(pos, layout, k);
      layout := m;
    }

    method First() returns (item: Fl_Tree_Item?)
      requires Valid()
      ensures item == if Order() == [] then null else Order()[0]
    {
      item := root;
    }

    method Last() returns (item: Fl_Tree_Item?)
      requires Valid()
      ensures item == if Order() == [] then null else Order()[|Order()| - 1]
    {
      if root == null {
        return null;
      }
      item := root.LastBelow(layout, 0);
    }

    /** The loop the documentation gives for visiting every item. */
    method WalkForward() returns (visited: seq<Fl_Tree_Item>)
      requires Valid()
      ensures visited == Order()
    {
      visited := [];
      var item := First();
      while item != null
        invariant |visited| <= |Order()| && visited == Order()[..|visited|]
        invariant item == if |visited| < |Order()| then Order()[|visited|] else null
        decreases |Order()| - |visited|
      {
        ghost var k := |visited|;
        visited := visited + [item];
        item := item.Next(layout, k);
      }
    }

    /** And the one for visiting them backwards. */
    method WalkBackward() returns (visited: seq<Fl_Tree_Item>)
      requires Valid()
      ensures |visited| == |Order()| && forall i | 0 <= i < |visited| :: visited[i] == Order()[|Order()| - 1 - i]
    {
      visited := [];
      var item := Last();
      while item != null
        invariant |visited| <= |Order()| && forall i | 0 <= i < |visited| :: visited[i] == Order()[|Order()| - 1 - i]
        invariant item == if |visited| < |Order()| then Order()[|Order()| - 1 - |visited|] else null
        decreases |Order()| - |visited|
      {
        ghost var k := |Order()| - 1 - |visited|;
        visited := visited + [item];
        item := item.Prev(layout, k);
      }
    }

    /** Delete all items. */
    method Clear()
      requires Valid()
      modifies this, Order()
      ensures Valid() && root == null
      ensures forall i <- old(Order()) :: i.freed
    {
      if root == null {
        return;
      }
      root.ClearChildren(layout, 0);
      root.freed := true;
      root := null;
    }

    /** A living tree holds the item: this one, or one that shares no item with it. */
    ghost predicate HeldBy(l: Layout, item: Fl_Tree_Item)
      reads this, l.order
    {
      && l.Mirrored() && item in l.number && l.Alive(0, |l.order|)
      && ((root != null && l == layout) || forall i <- l.order :: i !in Order())
    }

    /** Remove an item, wherever it hangs. */
    method Remove(item: Fl_Tree_Item?, ghost l: Layout) returns (r: int, ghost m: Layout)
      requires Valid()
      requires item != null && item.parent != null ==> HeldBy(l, item)
      modifies this, Order(), l.order
      ensures Valid()
      ensures item == null ==> r == 0 && Order() == old(Order())
      ensures item != null && item == old(root) ==>
        r == 0 && Order() == [] && forall i <- old(Order()) :: i.freed
      ensures item != null && item != old(root) && old(item.parent) == null ==> r == -1 && Order() == old(Order())
      ensures item != null && old(item.parent) != null ==>
        && r == 0
        && item in l.number && Removed(l, l.number[item], m)
        && (forall i | l.number[item] <= i < l.ends[l.number[item]] :: l.order[i].freed)
        && (forall i <- m.order :: !i.freed)
        && Order() == if old(root) != null && l == old(layout) then m.order else old(Order())
    {
      r, m := 0, l;
      if item == null {
        return;
      }
      if item == root {
        Clear();
      } else {
        if item.parent == null {
          return -1, m;
        }
        m := RemoveHeld(item, l);
      }
    }

    method RemoveHeld(item: Fl_Tree_Item, ghost l: Layout) returns (ghost m: Layout)
      requires Valid() && item.parent != null && HeldBy(l, item)
      modifies this, l.order
      ensures Valid() && root == old(root)
      ensures Removed(l, l.number[item], m)
      ensures Order() == if root != null && l == old(layout) then m.order else old(Order())
    {
      m := RemoveBelow(item, l, l.number[item]);
      if root != null {
        if l == layout {
          layout := m;
        } else {
          forall k | 0 <= k < |layout.order|
            ensures layout.LinkedAt(k) && !layout.order[k].freed
          {
            assert old(layout.LinkedAt(k)) && old(layout.NumberedAt(k));
            assert layout.order[k] in Order();
            assert k > 0 ==> layout.order[layout.up[k]] in Order();
          }
          assert layout.order[0] in Order();
        }
      }
    }

    /** Remove an item that has a parent. */
    static method RemoveBelow(item: Fl_Tree_Item, ghost l: Layout, ghost k: int) returns (ghost m: Layout)
      requires l.Mirrored() && l.Alive(0, |l.order|) && item.parent != null
      requires 0 <= k < |l.order| && l.order[k] == item
      modifies l.order
      ensures Removed(l, k, m)
    {
      assert l.LinkedAt(k);
      l.ToParent(k);
      var parent := item.parent;
      var r;
      r, m := parent.RemoveChild(item, l, l.up[k]);
    }
  }
}
