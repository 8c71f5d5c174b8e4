/** The binary heap on sequences: the order the sift loops restore, what they keep, what
    they report to the index map, and how far they move. */
module HeapOrder {

  // --- Ordering --------------------------------------------------------------

  /** "a belongs strictly closer to the root than b", as a strict weak order: this is
      what a comparator must provide. */
  ghost predicate StrictWeakOrder<T(!new)>(before: (T, T) -> bool)
  {
    && (forall a :: !before(a, a))
    && (forall a, b, c :: before(a, b) && before(b, c) ==> before(a, c))
    && (forall a, b, c :: before(a, c) ==> before(a, b) || before(b, c))
  }

  /** Max order asks the key comparison the other way round. */
  lemma FlippedOrder<T(!new)>(less: (T, T) -> bool)
    requires StrictWeakOrder(less)
    ensures StrictWeakOrder((a, b) => less(b, a))
  {
    var more := (a, b) => less(b, a);
    forall a, b, c | more(a, c) ensures more(a, b) || more(b, c) {
      assert less(c, a) ==> less(c, b) || less(b, a);
    }
  }

  function Parent(i: nat): nat
    requires i > 0
  {
    (i - 1) / 2
  }

  /** The pair (i, parent of i) is in order. */
  predicate InOrder<T>(before: (T, T) -> bool, s: seq<T>, i: nat)
    requires 0 < i < |s|
  {
    !before(s[i], s[Parent(i)])
  }

  /** Heap order among the nodes whose parent is at `lo` or later. */
  ghost predicate OrderedFrom<T>(before: (T, T) -> bool, s: seq<T>, lo: nat)
  {
    forall i :: 0 < i < |s| && Parent(i) >= lo ==> InOrder(before, s, i)
  }

  ghost predicate HeapOrdered<T>(before: (T, T) -> bool, s: seq<T>)
  {
    OrderedFrom(before, s, 0)
  }

  /** Heap order from `lo` on that may fail only at node i: every pair that does not
      involve i is in order, and so are i's children against i's parent. */
  ghost predicate OrderedAround<T>(before: (T, T) -> bool, s: seq<T>, lo: nat, i: nat)
  {
    && (forall j :: 0 < j < |s| && lo <= Parent(j) && j != i && Parent(j) != i ==> InOrder(before, s, j))
    && (0 < i < |s| && lo <= Parent(i) ==>
          forall j :: 0 < j < |s| && Parent(j) == i ==> !before(s[j], s[Parent(i)]))
  }

  lemma OrderedIsAround<T(!new)>(before: (T, T) -> bool, s: seq<T>, i: nat)
    requires StrictWeakOrder(before) && HeapOrdered(before, s)
    ensures OrderedAround(before, s, 0, i)
  {
    if 0 < i < |s| {
      assert InOrder(before, s, i);
      forall j | 0 < j < |s| && Parent(j) == i ensures !before(s[j], s[Parent(i)]) {
        assert InOrder(before, s, j);
      }
    }
  }

  /** The element at the root comes before none of the others. */
  lemma {:induction false} RootFirst<T(!new)>(before: (T, T) -> bool, s: seq<T>, i: nat)
    requires StrictWeakOrder(before) && HeapOrdered(before, s) && i < |s|
    ensures !before(s[i], s[0])
  {
    if i > 0 {
      RootFirst(before, s, Parent(i));
      assert InOrder(before, s, i);
    }
  }

  // --- Sift up ---------------------------------------------------------------

  /** Carry x from a hole at i towards the root. */
  function SiftUp<T>(before: (T, T) -> bool, s: seq<T>, i: nat, x: T): (r: seq<T>)
    requires i < |s|
    ensures |r| == |s|
    decreases i
  {
    if i > 0 && before(x, s[Parent(i)])
    then SiftUp(before, s[i := s[Parent(i)]], Parent(i), x)
    else s[i := x]
  }

  ghost predicate ChildrenAfter<T>(before: (T, T) -> bool, s: seq<T>, i: nat, x: T)
  {
    forall j :: 0 < j < |s| && Parent(j) == i ==> !before(s[j], x)
  }

  lemma {:induction false} SiftUpOrders<T(!new)>(before: (T, T) -> bool, s: seq<T>, i: nat, x: T)
    requires StrictWeakOrder(before) && i < |s|
    requires OrderedAround(before, s, 0, i) && ChildrenAfter(before, s, i, x)
    ensures HeapOrdered(before, SiftUp(before, s, i, x))
    decreases i
  {
    hide StrictWeakOrder;
    if i > 0 && before(x, s[Parent(i)]) {
      HoleRises(before, s, i, x);
      SiftUpOrders(before, s[i := s[Parent(i)]], Parent(i), x);
    } else {
      var r := s[i := x];
      forall j | 0 < j < |s| ensures InOrder(before, r, j) {
        if j != i && Parent(j) != i { assert InOrder(before, s, j); }
      }
    }
  }

  /** A hole moved up past a parent that x precedes is a hole in the same sense. */
  lemma HoleRises<T(!new)>(before: (T, T) -> bool, s: seq<T>, i: nat, x: T)
    requires StrictWeakOrder(before) && 0 < i < |s| && before(x, s[Parent(i)])
    requires OrderedAround(before, s, 0, i) && ChildrenAfter(before, s, i, x)
    ensures OrderedAround(before, s[i := s[Parent(i)]], 0, Parent(i))
    ensures ChildrenAfter(before, s[i := s[Parent(i)]], Parent(i), x)
  {
    var p := Parent(i);
    var s' := s[i := s[p]];
    forall j | 0 < j < |s| && j != p && Parent(j) != p ensures InOrder(before, s', j) {
      if Parent(j) != i { assert InOrder(before, s, j); }
    }
    if p > 0 { assert InOrder(before, s, p); }
    forall j | 0 < j < |s| && Parent(j) == p ensures !before(s'[j], x) && (p > 0 ==> !before(s'[j], s'[Parent(p)])) {
      if j != i { assert InOrder(before, s, j); }
    }
  }

  lemma {:induction false} SiftUpPermutes<T>(before: (T, T) -> bool, s: seq<T>, i: nat, x: T)
    requires i < |s|
    ensures multiset(SiftUp(before, s, i, x)) == multiset(s[i := x])
    decreases i
  {
    if i > 0 && before(x, s[Parent(i)]) {
      HoleMoves(s, i, Parent(i), x);
      SiftUpPermutes(before, s[i := s[Parent(i)]], Parent(i), x);
    }
  }

  /** Moving an element into the hole and the hole to where it was changes nothing as a
      multiset, once the carried element is put down. */
  lemma HoleMoves<T>(s: seq<T>, i: nat, p: nat, x: T)
    requires i < |s| && p < |s| && i != p
    ensures multiset(s[i := s[p]][p := x]) == multiset(s[i := x])
  {
    assert multiset(s[i := s[p]]) == multiset(s) - multiset{s[i]} + multiset{s[p]};
  }

  lemma SliceConcat<T>(a: seq<T>, b: seq<T>, k: nat)
    requires k <= |a|
    ensures (a + b)[k..] == a[k..] + b
  {
  }

  /** A sift up touches nothing past its starting index and does not read the hole. */
  lemma {:induction false} SiftUpPrefix<T>(before: (T, T) -> bool, s: seq<T>, i: nat, x: T, y: T)
    requires i < |s|
    ensures SiftUp(before, s, i, x) == SiftUp(before, s[..i + 1], i, x) + s[i + 1..]
    ensures SiftUp(before, s[i := y], i, x) == SiftUp(before, s, i, x)
    decreases i
  {
    if i > 0 && before(x, s[Parent(i)]) {
      var p := Parent(i);
      var s' := s[i := s[p]];
      var t' := s[..i + 1][i := s[p]];
      SiftUpPrefix(before, s', p, x, y);
      SiftUpPrefix(before, t', p, x, y);
      assert s'[..p + 1] == t'[..p + 1];
      assert s' == t' + s[i + 1..];
      SliceConcat(t', s[i + 1..], p + 1);
      assert s[i := y][i := s[p]] == s';
    } else {
      assert s[i := x] == s[..i + 1][i := x] + s[i + 1..];
      assert s[i := y][i := x] == s[i := x];
    }
  }

  // --- Sift down -------------------------------------------------------------

  /** The child the hole would move to: the right one only if it strictly precedes. */
  function BestChild<T>(before: (T, T) -> bool, s: seq<T>, i: nat): (c: nat)
    requires 2 * i + 1 < |s|
    ensures c < |s| && c > i && Parent(c) == i
  {
    if 2 * i + 2 < |s| && before(s[2 * i + 2], s[2 * i + 1]) then 2 * i + 2 else 2 * i + 1
  }

  lemma BestChildFirst<T(!new)>(before: (T, T) -> bool, s: seq<T>, i: nat, j: nat)
    requires StrictWeakOrder(before) && 2 * i + 1 < |s| && 0 < j < |s| && Parent(j) == i
    ensures !before(s[j], s[BestChild(before, s, i)])
  {
    assert j == 2 * i + 1 || j == 2 * i + 2;
  }

  /** Carry x from a hole at i towards the leaves. */
  function SiftDown<T>(before: (T, T) -> bool, s: seq<T>, i: nat, x: T): (r: seq<T>)
    requires i < |s|
    ensures |r| == |s|
    decreases |s| - i
  {
    if 2 * i + 1 < |s| && before(s[BestChild(before, s, i)], x)
    then
      var c := BestChild(before, s, i);
      SiftDown(before, s[i := s[c]], c, x)
    else s[i := x]
  }

  lemma {:induction false} SiftDownOrders<T(!new)>(before: (T, T) -> bool, s: seq<T>, lo: nat, i: nat, x: T)
    requires StrictWeakOrder(before) && lo <= i < |s| && OrderedAround(before, s, lo, i)
    requires i > 0 && Parent(i) >= lo ==> !before(x, s[Parent(i)])
    ensures OrderedFrom(before, SiftDown(before, s, i, x), lo)
    decreases |s| - i
  {
    if 2 * i + 1 < |s| && before(s[BestChild(before, s, i)], x) {
      var c := BestChild(before, s, i);
      var s' := s[i := s[c]];
      forall j | 0 < j < |s| && lo <= Parent(j) && j != c && Parent(j) != c ensures InOrder(before, s', j) {
        if j != i && Parent(j) != i {
          assert InOrder(before, s, j);
        } else if j != i {
          BestChildFirst(before, s, i, j);
        }
      }
      forall j | 0 < j < |s| && Parent(j) == c ensures !before(s'[j], s'[i]) {
        assert InOrder(before, s, j);
      }
      SiftDownOrders(before, s', lo, c, x);
    } else {
      var r := s[i := x];
      forall j | 0 < j < |s| && lo <= Parent(j) ensures InOrder(before, r, j) {
        if j != i && Parent(j) != i {
          assert InOrder(before, s, j);
        } else if Parent(j) == i {
          BestChildFirst(before, s, i, j);
        }
      }
    }
  }

  lemma {:induction false} SiftDownPermutes<T>(before: (T, T) -> bool, s: seq<T>, i: nat, x: T)
    requires i < |s|
    ensures multiset(SiftDown(before, s, i, x)) == multiset(s[i := x])
    decreases |s| - i
  {
    if 2 * i + 1 < |s| && before(s[BestChild(before, s, i)], x) {
      var c := BestChild(before, s, i);
      HoleMoves(s, i, c, x);
      SiftDownPermutes(before, s[i := s[c]], c, x);
    }
  }
}
