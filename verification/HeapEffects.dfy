/** What one sift does to the whole heap: order, contents and index map together. */
module HeapEffects {
  import opened Counting
  import opened HeapOrder
  import opened HeapIndexMap
  import opened HeapBuild

  /** Re-sift x at node i once, in the direction one comparison with the parent decides. */
  function Resift<T>(before: (T, T) -> bool, s: seq<T>, i: nat, x: T): (r: seq<T>)
    requires i < |s|
    ensures |r| == |s|
  {
    if i > 0 && before(x, s[Parent(i)]) then SiftUp(before, s, i, x) else SiftDown(before, s, i, x)
  }

  function ResiftTable<T(==)>(before: (T, T) -> bool, s: seq<T>, i: nat, x: T, table: map<T, nat>): map<T, nat>
    requires i < |s|
  {
    if i > 0 && before(x, s[Parent(i)]) then SiftUpTable(before, s, i, x, table)
    else SiftDownTable(before, s, i, x, table)
  }

  /** One re-sift restores an order that may fail only at i, whichever way x belongs. */
  lemma ResiftOrders<T(!new)>(before: (T, T) -> bool, s: seq<T>, i: nat, x: T)
    requires StrictWeakOrder(before) && i < |s| && OrderedAround(before, s, 0, i)
    ensures HeapOrdered(before, Resift(before, s, i, x))
  {
    if i > 0 && before(x, s[Parent(i)]) {
      forall j | 0 < j < |s| && Parent(j) == i ensures !before(s[j], x) {
        assert !before(s[j], s[Parent(i)]);
      }
      SiftUpOrders(before, s, i, x);
    } else {
      SiftDownOrders(before, s, 0, i, x);
    }
  }

  lemma ResiftPermutes<T>(before: (T, T) -> bool, s: seq<T>, i: nat, x: T)
    requires i < |s|
    ensures multiset(Resift(before, s, i, x)) == multiset(s) - multiset{s[i]} + multiset{x}
  {
    if i > 0 && before(x, s[Parent(i)]) { SiftUpPermutes(before, s, i, x); }
    else { SiftDownPermutes(before, s, i, x); }
  }

  lemma ResiftTracks<T>(before: (T, T) -> bool, s: seq<T>, i: nat, x: T, table: map<T, nat>)
    requires i < |s| && TrackedExcept(s, i, table) && Distinct(Resift(before, s, i, x))
    ensures Tracked(Resift(before, s, i, x), ResiftTable(before, s, i, x, table))
  {
    ResiftPermutes(before, s, i, x);
    assert multiset(s[i := x]) == multiset(s) - multiset{s[i]} + multiset{x};
    DistinctPermutes(Resift(before, s, i, x), s[i := x]);
    if i > 0 && before(x, s[Parent(i)]) { SiftUpTracks(before, s, i, x, table); }
    else { SiftDownTracks(before, s, i, x, table); }
  }

  /** Sifting x up from a fresh slot at the end of s, whatever that slot held. */
  lemma PushOrders<T(!new)>(before: (T, T) -> bool, s: seq<T>, stale: T, x: T)
    requires StrictWeakOrder(before) && HeapOrdered(before, s)
    ensures HeapOrdered(before, SiftUp(before, s + [stale], |s|, x))
  {
    var t := s + [stale];
    forall j | 0 < j < |t| && j != |s| ensures InOrder(before, t, j) {
      assert InOrder(before, s, j);
    }
    SiftUpOrders(before, t, |s|, x);
  }

  lemma PushPermutes<T>(before: (T, T) -> bool, s: seq<T>, stale: T, x: T)
    ensures multiset(SiftUp(before, s + [stale], |s|, x)) == multiset(s) + multiset{x}
  {
    hide SiftUp;
    var t := s + [stale];
    assert t[|s| := x] == s + [x];
    SiftUpPermutes(before, t, |s|, x);
  }

  lemma PushTracks<T>(before: (T, T) -> bool, s: seq<T>, stale: T, x: T, table: map<T, nat>)
    requires Tracked(s, table) && Distinct(SiftUp(before, s + [stale], |s|, x))
    ensures Tracked(SiftUp(before, s + [stale], |s|, x), SiftUpTable(before, s + [stale], |s|, x, table))
  {
    var t := s + [stale];
    PushPermutes(before, s, stale, x);
    assert t[|s| := x] == s + [x];
    DistinctPermutes(SiftUp(before, t, |s|, x), t[|s| := x]);
    SiftUpTracks(before, t, |s|, x, table);
  }

  /** Dropping the last element keeps order and map. */
  lemma DropLast<T>(before: (T, T) -> bool, s: seq<T>, table: map<T, nat>)
    requires s != []
    ensures HeapOrdered(before, s) ==> HeapOrdered(before, s[..|s| - 1])
    ensures Tracked(s, table) ==> Tracked(s[..|s| - 1], table)
    ensures multiset(s[..|s| - 1]) == multiset(s) - multiset{s[|s| - 1]}
  {
    var t := s[..|s| - 1];
    if HeapOrdered(before, s) {
      forall j | 0 < j < |t| ensures InOrder(before, t, j) { assert InOrder(before, s, j); }
    }
    assert s == t + [s[|s| - 1]];
  }

  lemma NothingEffect<T>(before: (T, T) -> bool, table: map<T, nat>)
    ensures HeapOrdered(before, []) && Tracked([], table)
  {
  }

  /** Taking the only element out leaves nothing. */
  lemma PopLastEffect<T>(before: (T, T) -> bool, s: seq<T>, table: map<T, nat>)
    requires |s| == 1
    ensures HeapOrdered(before, []) && Tracked([], table) && multiset(s) - multiset{s[0]} == multiset([])
  {
    assert s == [s[0]];
  }

  /** Removing node i by backfilling it with the last element. */
  lemma BackfillEffect<T(!new)>(before: (T, T) -> bool, s: seq<T>, i: nat, table: map<T, nat>)
    requires StrictWeakOrder(before) && i + 1 < |s|
    ensures var n := |s| - 1;
            var r := Resift(before, s[..n], i, s[n]);
            && (OrderedAround(before, s, 0, i) ==> HeapOrdered(before, r))
            && multiset(r) == multiset(s) - multiset{s[i]}
            && (Tracked(s, table) && Distinct(r) ==> Tracked(r, ResiftTable(before, s[..n], i, s[n], table)))
  {
    hide Resift, ResiftTable, HeapOrdered, OrderedAround, StrictWeakOrder, Distinct;
    BackfillPermutes(before, s, i);
    if OrderedAround(before, s, 0, i) { BackfillOrders(before, s, i); }
    if Tracked(s, table) && Distinct(Resift(before, s[..|s| - 1], i, s[|s| - 1])) {
      DropLast(before, s, table);
      ResiftTracks(before, s[..|s| - 1], i, s[|s| - 1], table);
    }
  }

  lemma BackfillPermutes<T(!new)>(before: (T, T) -> bool, s: seq<T>, i: nat)
    requires i + 1 < |s|
    ensures multiset(Resift(before, s[..|s| - 1], i, s[|s| - 1])) == multiset(s) - multiset{s[i]}
  {
    hide Resift;
    var n := |s| - 1;
    ResiftPermutes(before, s[..n], i, s[n]);
    assert s == s[..n] + [s[n]];
    assert s[..n][i] == s[i];
  }

  lemma BackfillOrders<T(!new)>(before: (T, T) -> bool, s: seq<T>, i: nat)
    requires StrictWeakOrder(before) && i + 1 < |s| && OrderedAround(before, s, 0, i)
    ensures HeapOrdered(before, Resift(before, s[..|s| - 1], i, s[|s| - 1]))
  {
    hide Resift, StrictWeakOrder, HeapOrdered;
    var t := s[..|s| - 1];
    forall j | 0 < j < |t| && j != i && Parent(j) != i ensures InOrder(before, t, j) {
      assert InOrder(before, s, j);
    }
    ResiftOrders(before, t, i, s[|s| - 1]);
  }

  lemma PushEffect<T(!new)>(before: (T, T) -> bool, s: seq<T>, stale: T, x: T, table: map<T, nat>)
    requires StrictWeakOrder(before)
    ensures var r := SiftUp(before, s + [stale], |s|, x);
            && (HeapOrdered(before, s) ==> HeapOrdered(before, r))
            && multiset(r) == multiset(s) + multiset{x}
            && (Tracked(s, table) && Distinct(r) ==> Tracked(r, SiftUpTable(before, s + [stale], |s|, x, table)))
  {
    PushPermutes(before, s, stale, x);
    if HeapOrdered(before, s) { PushOrders(before, s, stale, x); }
    if Tracked(s, table) && Distinct(SiftUp(before, s + [stale], |s|, x)) { PushTracks(before, s, stale, x, table); }
  }

  /** No element of a heap precedes its root. */
  lemma RootPrecedes<T(!new)>(before: (T, T) -> bool, s: seq<T>)
    requires StrictWeakOrder(before) && s != []
    ensures HeapOrdered(before, s) ==> forall x :: x in s ==> !before(x, s[0])
  {
    if HeapOrdered(before, s) {
      forall x | x in s ensures !before(x, s[0]) {
        var i :| 0 <= i < |s| && s[i] == x;
        RootFirst(before, s, i);
      }
    }
  }

  /** Taking the root out of s, the last element carried down from it. */
  lemma PopEffect<T(!new)>(before: (T, T) -> bool, s: seq<T>, table: map<T, nat>)
    requires StrictWeakOrder(before) && |s| > 1
    ensures var n := |s| - 1;
            var r := SiftDown(before, s[..n], 0, s[n]);
            && (HeapOrdered(before, s) ==> HeapOrdered(before, r))
            && multiset(r) == multiset(s) - multiset{s[0]}
            && (Tracked(s, table) && Distinct(r) ==> Tracked(r, SiftDownTable(before, s[..n], 0, s[n], table)))
  {
    BackfillEffect(before, s, 0, table);
    if HeapOrdered(before, s) { OrderedIsAround(before, s, 0); }
  }

  /** Replacing the element at node i and re-sifting it once. */
  lemma UpdateEffect<T(!new)>(before: (T, T) -> bool, s: seq<T>, i: nat, x: T, table: map<T, nat>)
    requires StrictWeakOrder(before) && i < |s|
    ensures var r := Resift(before, s, i, x);
            && (OrderedAround(before, s, 0, i) ==> HeapOrdered(before, r))
            && multiset(r) == multiset(s) - multiset{s[i]} + multiset{x}
            && (Tracked(s, table) && Distinct(r) ==> Tracked(r, ResiftTable(before, s, i, x, table)))
  {
    ResiftPermutes(before, s, i, x);
    if OrderedAround(before, s, 0, i) { ResiftOrders(before, s, i, x); }
    if Tracked(s, table) && Distinct(Resift(before, s, i, x)) { ResiftTracks(before, s, i, x, table); }
  }

  /** Replacing the root is an update of it. */
  lemma ReplaceEffect<T(!new)>(before: (T, T) -> bool, s: seq<T>, x: T, table: map<T, nat>)
    requires StrictWeakOrder(before) && s != []
    ensures var r := SiftDown(before, s, 0, x);
            && (HeapOrdered(before, s) ==> HeapOrdered(before, r))
            && multiset(r) == multiset(s) - multiset{s[0]} + multiset{x}
            && (Tracked(s, table) && Distinct(r) ==> Tracked(r, SiftDownTable(before, s, 0, x, table)))
  {
    hide HeapOrdered, OrderedAround, Tracked, Distinct, StrictWeakOrder, SiftDown, SiftDownTable;
    UpdateEffect(before, s, 0, x, table);
    if HeapOrdered(before, s) { OrderedIsAround(before, s, 0); }
  }

  /** What removing node i leaves, and the index map after it. */
  function Without<T>(before: (T, T) -> bool, s: seq<T>, i: nat): seq<T>
    requires i < |s|
  {
    var n := |s| - 1;
    if i == n then s[..n] else Resift(before, s[..n], i, s[n])
  }

  function WithoutTable<T(==)>(before: (T, T) -> bool, s: seq<T>, i: nat, table: map<T, nat>): map<T, nat>
    requires i < |s|
  {
    var n := |s| - 1;
    if i == n then table else ResiftTable(before, s[..n], i, s[n], table)
  }

  lemma RemoveEffect<T(!new)>(before: (T, T) -> bool, s: seq<T>, i: nat, table: map<T, nat>)
    requires StrictWeakOrder(before) && i < |s|
    ensures var r := Without(before, s, i);
            && (HeapOrdered(before, s) ==> HeapOrdered(before, r))
            && multiset(r) == multiset(s) - multiset{s[i]}
            && (Tracked(s, table) && Distinct(r) ==> Tracked(r, WithoutTable(before, s, i, table)))
  {
    DropLast(before, s, table);
    if i + 1 < |s| {
      BackfillEffect(before, s, i, table);
      if HeapOrdered(before, s) { OrderedIsAround(before, s, i); }
    }
  }

  // --- Appending a run, one sift at a time -----------------------------------

  function PushEach<T>(before: (T, T) -> bool, s: seq<T>, elems: seq<T>): (r: seq<T>)
    ensures |r| == |s| + |elems|
    decreases |elems|
  {
    if elems == [] then s
    else PushEach(before, SiftUp(before, s + [elems[0]], |s|, elems[0]), elems[1..])
  }

  function PushEachTable<T(==)>(before: (T, T) -> bool, s: seq<T>, elems: seq<T>, table: map<T, nat>): map<T, nat>
    decreases |elems|
  {
    if elems == [] then table
    else PushEachTable(before, SiftUp(before, s + [elems[0]], |s|, elems[0]), elems[1..],
                       SiftUpTable(before, s + [elems[0]], |s|, elems[0], table))
  }

  /** What appending a run leaves: a run at least as long as the heap is worth rebuilding it,
      a shorter one sifts each of its elements up. */
  function Appended<T>(before: (T, T) -> bool, s: seq<T>, run: seq<T>): seq<T>
  {
    if |run| >= |s| then HeapifyFrom(before, s + run, |s + run| / 2) else PushEach(before, s, run)
  }

  /** One turn of the loop that sifts a run up: what is left to do leads to the same heap. */
  lemma PushEachStep<T>(before: (T, T) -> bool, was: seq<T>, now: seq<T>, index: nat, n: nat, table: map<T, nat>)
    requires index < n <= |was| == |now|
    requires now[..index + 1] == SiftUp(before, was[..index + 1], index, was[index])
    requires now[index + 1..n] == was[index + 1..n]
    ensures PushEach(before, now[..index + 1], now[index + 1..n]) == PushEach(before, was[..index], was[index..n])
    ensures PushEachTable(before, now[..index + 1], now[index + 1..n],
                          SiftUpTable(before, was[..index + 1], index, was[index], table))
            == PushEachTable(before, was[..index], was[index..n], table)
  {
    hide SiftUp, SiftUpTable;
    assert was[..index + 1] == was[..index] + [was[index]];
    assert was[index..n][1..] == was[index + 1..n];
  }

  /** Moving x from s to the end of out moves nothing else. */
  lemma MovedOut<T>(out: seq<T>, s: seq<T>, x: T, left: seq<T>, start: seq<T>)
    requires multiset(out) + multiset(s) == multiset(start) && x in multiset(s)
    requires multiset(left) == multiset(s) - multiset{x}
    ensures multiset(out + [x]) + multiset(left) == multiset(start)
    ensures Distinct(start) ==> Distinct(left)
  {
    assert multiset(left) + multiset{x} == multiset(s);
    assert multiset(left) <= multiset(s) <= multiset(start);
    if Distinct(start) { DistinctPart(left, start); }
  }

  lemma {:induction false} PushEachPermutes<T>(before: (T, T) -> bool, s: seq<T>, elems: seq<T>)
    ensures multiset(PushEach(before, s, elems)) == multiset(s) + multiset(elems)
    decreases |elems|
  {
    if elems != [] {
      PushPermutes(before, s, elems[0], elems[0]);
      PushEachPermutes(before, SiftUp(before, s + [elems[0]], |s|, elems[0]), elems[1..]);
      assert elems == [elems[0]] + elems[1..];
    }
  }

  lemma {:induction false} PushEachOrders<T(!new)>(before: (T, T) -> bool, s: seq<T>, elems: seq<T>)
    requires StrictWeakOrder(before) && HeapOrdered(before, s)
    ensures HeapOrdered(before, PushEach(before, s, elems))
    decreases |elems|
  {
    if elems != [] {
      PushOrders(before, s, elems[0], elems[0]);
      PushEachOrders(before, SiftUp(before, s + [elems[0]], |s|, elems[0]), elems[1..]);
    }
  }

  /** A part of a multiset without repeats has none either. */
  lemma DistinctPart<T>(part: seq<T>, whole: seq<T>)
    requires Distinct(whole) && multiset(part) <= multiset(whole)
    ensures Distinct(part)
  {
    forall x ensures multiset(part)[x] <= 1 { DistinctByCount(whole, x); }
    CountDistinct(part);
  }

  lemma {:induction false} PushEachTracks<T>(before: (T, T) -> bool, s: seq<T>, elems: seq<T>, table: map<T, nat>)
    requires Tracked(s, table) && Distinct(PushEach(before, s, elems))
    ensures Tracked(PushEach(before, s, elems), PushEachTable(before, s, elems, table))
    decreases |elems|
  {
    if elems != [] {
      var t := SiftUp(before, s + [elems[0]], |s|, elems[0]);
      PushEachPermutes(before, t, elems[1..]);
      DistinctPart(t, PushEach(before, s, elems));
      PushTracks(before, s, elems[0], elems[0], table);
      PushEachTracks(before, t, elems[1..], SiftUpTable(before, s + [elems[0]], |s|, elems[0], table));
    }
  }

  lemma PushEachEffect<T(!new)>(before: (T, T) -> bool, s: seq<T>, elems: seq<T>, table: map<T, nat>)
    requires StrictWeakOrder(before)
    ensures var r := PushEach(before, s, elems);
            && (HeapOrdered(before, s) ==> HeapOrdered(before, r))
            && multiset(r) == multiset(s) + multiset(elems)
            && (Tracked(s, table) && Distinct(r) ==> Tracked(r, PushEachTable(before, s, elems, table)))
  {
    PushEachPermutes(before, s, elems);
    if HeapOrdered(before, s) { PushEachOrders(before, s, elems); }
    if Tracked(s, table) && Distinct(PushEach(before, s, elems)) { PushEachTracks(before, s, elems, table); }
  }
}
