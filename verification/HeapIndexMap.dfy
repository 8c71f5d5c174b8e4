/** The owner's index map, as maintained through the on-move hook: the last index reported
    for each element. */
module HeapIndexMap {
  import opened Counting
  import opened HeapOrder

  /** Every stored element's last reported index is its slot. */
  ghost predicate Tracked<T>(s: seq<T>, table: map<T, nat>)
  {
    forall j :: 0 <= j < |s| ==> s[j] in table && table[s[j]] == j
  }

  ghost predicate TrackedExcept<T>(s: seq<T>, hole: nat, table: map<T, nat>)
  {
    forall j :: 0 <= j < |s| && j != hole ==> s[j] in table && table[s[j]] == j
  }

  /** The reports of a sift up, in order, applied to the owner's table. */
  function SiftUpTable<T(==)>(before: (T, T) -> bool, s: seq<T>, i: nat, x: T, table: map<T, nat>): map<T, nat>
    requires i < |s|
    decreases i
  {
    if i > 0 && before(x, s[Parent(i)])
    then SiftUpTable(before, s[i := s[Parent(i)]], Parent(i), x, table[s[Parent(i)] := i])
    else table[x := i]
  }

  function SiftDownTable<T(==)>(before: (T, T) -> bool, s: seq<T>, i: nat, x: T, table: map<T, nat>): map<T, nat>
    requires i < |s|
    decreases |s| - i
  {
    if 2 * i + 1 < |s| && before(s[BestChild(before, s, i)], x)
    then
      var c := BestChild(before, s, i);
      SiftDownTable(before, s[i := s[c]], c, x, table[s[c] := i])
    else table[x := i]
  }

  lemma DistinctHole<T>(s: seq<T>, i: nat, p: nat, x: T)
    requires i < |s| && p < |s| && i != p && Distinct(s[i := x])
    ensures Distinct(s[i := s[p]][p := x])
  {
    var a, b := s[i := x], s[i := s[p]][p := x];
    forall j, k | 0 <= j < k < |s| ensures b[j] != b[k] {
      var j' := if j == i then p else if j == p then i else j;
      var k' := if k == i then p else if k == p then i else k;
      assert b[j] == a[j'] && b[k] == a[k'];
    }
  }

  lemma {:induction false} SiftUpTracks<T>(before: (T, T) -> bool, s: seq<T>, i: nat, x: T, table: map<T, nat>)
    requires i < |s| && Distinct(s[i := x]) && TrackedExcept(s, i, table)
    ensures Tracked(SiftUp(before, s, i, x), SiftUpTable(before, s, i, x, table))
    decreases i
  {
    var a := s[i := x];
    if i > 0 && before(x, s[Parent(i)]) {
      var p := Parent(i);
      DistinctHole(s, i, p, x);
      forall j | 0 <= j < |s| && j != i && j != p ensures s[j] != s[p] {
        assert s[j] == a[j] && s[p] == a[p];
      }
      SiftUpTracks(before, s[i := s[p]], p, x, table[s[p] := i]);
    } else {
      forall j | 0 <= j < |s| && j != i ensures s[j] != x {
        assert s[j] == a[j] && x == a[i];
      }
    }
  }

  lemma {:induction false} SiftDownTracks<T>(before: (T, T) -> bool, s: seq<T>, i: nat, x: T, table: map<T, nat>)
    requires i < |s| && Distinct(s[i := x]) && TrackedExcept(s, i, table)
    ensures Tracked(SiftDown(before, s, i, x), SiftDownTable(before, s, i, x, table))
    decreases |s| - i
  {
    var a := s[i := x];
    if 2 * i + 1 < |s| && before(s[BestChild(before, s, i)], x) {
      var c := BestChild(before, s, i);
      DistinctHole(s, i, c, x);
      forall j | 0 <= j < |s| && j != i && j != c ensures s[j] != s[c] {
        assert s[j] == a[j] && s[c] == a[c];
      }
      SiftDownTracks(before, s[i := s[c]], c, x, table[s[c] := i]);
    } else {
      forall j | 0 <= j < |s| && j != i ensures s[j] != x {
        assert s[j] == a[j] && x == a[i];
      }
    }
  }

  /** One report for each slot, as the sweep after a bottom-up pass makes them. */
  function SweepTable<T(==)>(s: seq<T>, n: nat, table: map<T, nat>): map<T, nat>
    requires n <= |s|
  {
    if n == 0 then table else SweepTable(s, n - 1, table)[s[n - 1] := n - 1]
  }

  lemma {:induction false} SweepTracks<T>(s: seq<T>, n: nat, table: map<T, nat>)
    requires n <= |s| && Distinct(s)
    ensures Tracked(s[..n], SweepTable(s, n, table))
  {
    if n > 0 { SweepTracks(s, n - 1, table); }
  }

  /** Sequences that are permutations of each other are distinct together. */
  lemma DistinctByCount<T>(s: seq<T>, x: T)
    requires Distinct(s)
    ensures multiset(s)[x] <= 1
  {
    if s != [] {
      var n := |s| - 1;
      assert s == s[..n] + [s[n]];
      DistinctByCount(s[..n], x);
      assert multiset(s[..n])[s[n]] == 0;
    }
  }

  lemma CountDistinct<T>(s: seq<T>)
    requires forall x :: multiset(s)[x] <= 1
    ensures Distinct(s)
  {
    forall i, j | 0 <= i < j < |s| ensures s[i] != s[j] {
      assert s == s[..j] + s[j..];
      assert multiset(s) == multiset(s[..j]) + multiset(s[j..]);
      assert s[i] in s[..j] && s[j] in s[j..];
      assert multiset(s)[s[i]] == multiset(s[..j])[s[i]] + multiset(s[j..])[s[i]];
    }
  }

  lemma DistinctPermutes<T>(s: seq<T>, r: seq<T>)
    requires Distinct(s) && multiset(s) == multiset(r)
    ensures Distinct(r)
  {
    forall x ensures multiset(r)[x] <= 1 { DistinctByCount(s, x); }
    CountDistinct(r);
  }
}
