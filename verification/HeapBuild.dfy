/** Bottom-up construction and its linear bound; draining in priority order. */
module HeapBuild {
  import opened HeapOrder

  // --- How far a hole can descend --------------------------------------------

  /** The number of levels below node i in a heap of n nodes. */
  function Height(i: nat, n: nat): nat
    decreases n
  {
    if n == 0 || 2 * (i + 1) > n then 0 else 1 + Height(i, n / 2)
  }

  /** Later nodes are no higher. */
  lemma {:induction false} HeightMono(i: nat, j: nat, n: nat)
    requires i <= j
    ensures Height(j, n) <= Height(i, n)
    decreases n
  {
    if n > 0 && 2 * (j + 1) <= n { HeightMono(i, j, n / 2); }
  }

  /** A child is at least one level lower. */
  lemma {:induction false} HeightChild(i: nat, n: nat)
    requires 2 * i + 1 < n
    ensures Height(2 * i + 1, n) + 1 == Height(i, n)
    decreases n
  {
    if 2 * (2 * i + 2) <= n {
      HeightChild(i, n / 2);
    } else {
      assert 2 * (i + 1) > n / 2;
    }
  }

  /** The levels a sift down moves its hole. */
  function SiftDownLevels<T>(before: (T, T) -> bool, s: seq<T>, i: nat, x: T): nat
    requires i < |s|
    decreases |s| - i
  {
    if 2 * i + 1 < |s| && before(s[BestChild(before, s, i)], x)
    then
      var c := BestChild(before, s, i);
      1 + SiftDownLevels(before, s[i := s[c]], c, x)
    else 0
  }

  lemma {:induction false} LevelsBounded<T>(before: (T, T) -> bool, s: seq<T>, i: nat, x: T)
    requires i < |s|
    ensures SiftDownLevels(before, s, i, x) <= Height(i, |s|)
    decreases |s| - i
  {
    if 2 * i + 1 < |s| && before(s[BestChild(before, s, i)], x) {
      var c := BestChild(before, s, i);
      LevelsBounded(before, s[i := s[c]], c, x);
      HeightChild(i, |s|);
      HeightMono(2 * i + 1, c, |s|);
    }
  }

  /** The heights of the first k nodes of a heap of n nodes, added up. */
  function TotalHeight(k: nat, n: nat): nat
  {
    if k == 0 then 0 else TotalHeight(k - 1, n) + Height(k - 1, n)
  }

  /** Nodes past the middle are leaves. */
  lemma {:induction false} LeavesAddNothing(k: nat, n: nat)
    requires n / 2 <= k
    ensures TotalHeight(k, n) == TotalHeight(n / 2, n)
  {
    if n / 2 < k { LeavesAddNothing(k - 1, n); }
  }

  lemma {:induction false} HeightsHalve(k: nat, n: nat)
    requires k <= n / 2
    ensures TotalHeight(k, n) == k + TotalHeight(k, n / 2)
  {
    if k > 0 { HeightsHalve(k - 1, n); }
  }

  /** The number of one bits. */
  function Ones(n: nat): nat
  {
    if n == 0 then 0 else n % 2 + Ones(n / 2)
  }

  /** All heights of a heap of n nodes add up to n less its one bits. */
  lemma {:induction false} TotalHeightExact(n: nat)
    ensures Ones(n) <= n && TotalHeight(n, n) == n - Ones(n)
  {
    if n > 0 {
      LeavesAddNothing(n, n);
      HeightsHalve(n / 2, n);
      TotalHeightExact(n / 2);
    }
  }

  // --- Floyd's construction --------------------------------------------------

  /** Sift down every node before k, last first. */
  function HeapifyFrom<T>(before: (T, T) -> bool, s: seq<T>, k: nat): (r: seq<T>)
    requires k <= |s|
    ensures |r| == |s|
    decreases k
  {
    if k == 0 then s else HeapifyFrom(before, SiftDown(before, s, k - 1, s[k - 1]), k - 1)
  }

  function HeapifyLevels<T>(before: (T, T) -> bool, s: seq<T>, k: nat): nat
    requires k <= |s|
    decreases k
  {
    if k == 0 then 0
    else SiftDownLevels(before, s, k - 1, s[k - 1])
         + HeapifyLevels(before, SiftDown(before, s, k - 1, s[k - 1]), k - 1)
  }

  lemma {:induction false} HeapifyOrders<T(!new)>(before: (T, T) -> bool, s: seq<T>, k: nat)
    requires StrictWeakOrder(before) && k <= |s| && OrderedFrom(before, s, k)
    ensures HeapOrdered(before, HeapifyFrom(before, s, k))
    decreases k
  {
    if k > 0 {
      var i := k - 1;
      assert OrderedAround(before, s, i, i);
      SiftDownOrders(before, s, i, i, s[i]);
      HeapifyOrders(before, SiftDown(before, s, i, s[i]), i);
    }
  }

  lemma {:induction false} HeapifyPermutes<T>(before: (T, T) -> bool, s: seq<T>, k: nat)
    requires k <= |s|
    ensures multiset(HeapifyFrom(before, s, k)) == multiset(s)
    decreases k
  {
    if k > 0 {
      SiftDownPermutes(before, s, k - 1, s[k - 1]);
      assert s[k - 1 := s[k - 1]] == s;
      HeapifyPermutes(before, SiftDown(before, s, k - 1, s[k - 1]), k - 1);
    }
  }

  lemma {:induction false} LevelsAddUp<T>(before: (T, T) -> bool, s: seq<T>, k: nat)
    requires k <= |s|
    ensures HeapifyLevels(before, s, k) <= TotalHeight(k, |s|)
    decreases k
  {
    if k > 0 {
      LevelsBounded(before, s, k - 1, s[k - 1]);
      LevelsAddUp(before, SiftDown(before, s, k - 1, s[k - 1]), k - 1);
    }
  }

  /** Heapify from the middle yields a heap of the same elements, and its holes descend
      at most n less the one bits of n levels in all. */
  lemma HeapifyLinear<T(!new)>(before: (T, T) -> bool, s: seq<T>)
    requires StrictWeakOrder(before)
    ensures var r := HeapifyFrom(before, s, |s| / 2);
            && HeapOrdered(before, r) && multiset(r) == multiset(s)
            && HeapifyLevels(before, s, |s| / 2) + Ones(|s|) <= |s|
  {
    HeapifyOrders(before, s, |s| / 2);
    HeapifyPermutes(before, s, |s| / 2);
    LevelsAddUp(before, s, |s| / 2);
    LeavesAddNothing(|s|, |s|);
    TotalHeightExact(|s|);
  }

  // --- Priority order --------------------------------------------------------

  /** No later element belongs strictly before an earlier one. */
  ghost predicate Sorted<T>(before: (T, T) -> bool, s: seq<T>)
  {
    forall i, j :: 0 <= i < j < |s| ==> !before(s[j], s[i])
  }

  predicate Equivalent<T>(before: (T, T) -> bool, a: T, b: T)
  {
    !before(a, b) && !before(b, a)
  }

  /** How many elements of s come strictly before x. */
  function Rank<T>(before: (T, T) -> bool, s: seq<T>, x: T): nat
  {
    if s == [] then 0
    else Rank(before, s[..|s| - 1], x) + (if before(s[|s| - 1], x) then 1 else 0)
  }

  lemma {:induction false} RankConcat<T>(before: (T, T) -> bool, s: seq<T>, t: seq<T>, x: T)
    ensures Rank(before, s + t, x) == Rank(before, s, x) + Rank(before, t, x)
  {
    if t == [] {
      assert s + t == s;
    } else {
      var n := |t| - 1;
      RankConcat(before, s, t[..n], x);
      assert (s + t)[..|s + t| - 1] == s + t[..n];
    }
  }

  lemma {:induction false} RankPermutes<T>(before: (T, T) -> bool, s: seq<T>, t: seq<T>, x: T)
    requires multiset(s) == multiset(t)
    ensures Rank(before, s, x) == Rank(before, t, x)
  {
    if s == [] {
      assert |multiset(t)| == 0;
    } else {
      var n := |s| - 1;
      TakeOut(s, n);
      assert s[n] in multiset(s);
      assert s[n] in multiset(t);
      var k :| 0 <= k < |t| && t[k] == s[n];
      TakeOut(t, k);
      assert s[..n] + s[n + 1..] == s[..n];
      RankPermutes(before, s[..n], t[..k] + t[k + 1..], x);
      RankTakeOut(before, t, k, x);
    }
  }

  lemma TakeOut<T>(t: seq<T>, k: nat)
    requires k < |t|
    ensures multiset(t[..k] + t[k + 1..]) == multiset(t) - multiset{t[k]}
  {
    assert t == t[..k] + ([t[k]] + t[k + 1..]);
  }

  lemma RankOne<T>(before: (T, T) -> bool, y: T, x: T)
    ensures Rank(before, [y], x) == if before(y, x) then 1 else 0
  {
    assert [y][..0] == [];
    assert Rank(before, [y][..0], x) == 0;
  }

  lemma RankTakeOut<T>(before: (T, T) -> bool, t: seq<T>, k: nat, x: T)
    requires k < |t|
    ensures Rank(before, t, x) == Rank(before, t[..k] + t[k + 1..], x) + if before(t[k], x) then 1 else 0
  {
    hide Rank;
    var rest := t[k + 1..];
    assert t == t[..k] + ([t[k]] + rest);
    RankConcat(before, t[..k], rest, x);
    RankConcat(before, t[..k], [t[k]] + rest, x);
    RankConcat(before, [t[k]], rest, x);
    RankOne(before, t[k], x);
  }

  /** If the elements from m on do not precede x, at most m elements do. */
  lemma {:induction false} RankAtMost<T>(before: (T, T) -> bool, s: seq<T>, m: nat, x: T)
    requires m <= |s| && forall j :: m <= j < |s| ==> !before(s[j], x)
    ensures Rank(before, s, x) <= m
  {
    if m < |s| {
      RankAtMost(before, s[..|s| - 1], m, x);
    } else {
      RankAtMostSize(before, s, x);
    }
  }

  lemma {:induction false} RankAtMostSize<T>(before: (T, T) -> bool, s: seq<T>, x: T)
    ensures Rank(before, s, x) <= |s|
  {
    if s != [] { RankAtMostSize(before, s[..|s| - 1], x); }
  }

  /** If the first m elements all precede x, at least m elements do. */
  lemma {:induction false} RankAtLeast<T>(before: (T, T) -> bool, s: seq<T>, m: nat, x: T)
    requires m <= |s| && forall j :: 0 <= j < m ==> before(s[j], x)
    ensures Rank(before, s, x) >= m
  {
    if s != [] {
      var n := |s| - 1;
      RankAtLeast(before, s[..n], if m <= n then m else n, x);
    }
  }

  lemma NotEarlier<T(!new)>(before: (T, T) -> bool, a: seq<T>, b: seq<T>, i: nat)
    requires StrictWeakOrder(before) && Sorted(before, a) && Sorted(before, b)
    requires multiset(a) == multiset(b) && i < |a| && i < |b|
    ensures !before(a[i], b[i])
  {
    if before(a[i], b[i]) {
      RankAtLeast(before, a, i + 1, b[i]);
      RankAtMost(before, b, i, b[i]);
      RankPermutes(before, a, b, b[i]);
    }
  }

  /** Two sorted arrangements of the same elements agree position by position, up to
      elements the order does not tell apart. */
  lemma SortedAgree<T(!new)>(before: (T, T) -> bool, a: seq<T>, b: seq<T>)
    requires StrictWeakOrder(before) && Sorted(before, a) && Sorted(before, b)
    requires multiset(a) == multiset(b)
    ensures |a| == |b| && forall i :: 0 <= i < |a| ==> Equivalent(before, a[i], b[i])
  {
    assert |a| == |multiset(a)| == |multiset(b)| == |b|;
    forall i | 0 <= i < |a| ensures Equivalent(before, a[i], b[i]) {
      NotEarlier(before, a, b, i);
      NotEarlier(before, b, a, i);
    }
  }

  /** `out` has been drained in priority order and nothing left precedes any of it. */
  ghost predicate Drained<T>(before: (T, T) -> bool, out: seq<T>, left: seq<T>)
  {
    && Sorted(before, out)
    && (forall x, y :: x in out && y in left ==> !before(y, x))
  }

  lemma DrainStep<T>(before: (T, T) -> bool, out: seq<T>, s: seq<T>, x: T, left: seq<T>)
    requires Drained(before, out, s) && x in s
    requires forall y :: y in s ==> !before(y, x)
    requires multiset(left) == multiset(s) - multiset{x}
    ensures Drained(before, out + [x], left)
  {
    forall y | y in left ensures y in s {
      assert y in multiset(left) && y in multiset(s);
    }
  }
}
