/** Counting distinct indices. */
module Counting {

  ghost predicate Distinct<T>(l: seq<T>)
  {
    forall j, k :: 0 <= j < k < |l| ==> l[j] != l[k]
  }

  /** The indices below n. */
  function Below(n: nat): (s: set<nat>)
    ensures |s| == n && forall i: nat :: i in s <==> i < n
  {
    if n == 0 then {} else Below(n - 1) + {n - 1}
  }

  /** The elements of a list. */
  ghost function Elements<T(!new)>(l: seq<T>): (s: set<T>)
    ensures forall x :: x in s <==> x in l
    ensures Distinct(l) ==> |s| == |l|
  {
    if l == [] then {} else
    var s := Elements(l[..|l| - 1]);
    assert l == l[..|l| - 1] + [l[|l| - 1]];
    s + {l[|l| - 1]}
  }

  lemma SubsetCount<T>(a: set<T>, b: set<T>)
    requires a <= b
    ensures |a| <= |b|
    ensures |a| == |b| ==> a == b
  {
    assert b == a + (b - a);
  }

  /** A list of distinct indices below n is no longer than n, and one as long as n has
      them all. */
  lemma PigeonHole(l: seq<nat>, n: nat)
    requires Distinct(l) && forall k :: 0 <= k < |l| ==> l[k] < n
    ensures |l| <= n
    ensures |l| == n ==> forall i :: 0 <= i < n ==> i in l
  {
    SubsetCount(Elements(l), Below(n));
  }

  /** A set and a list that split the first n indices between them. */
  lemma PartCount(a: set<nat>, l: seq<nat>, n: nat)
    requires Distinct(l) && forall i: nat :: i < n <==> (i in a || i in l)
    requires forall i :: i in l ==> i !in a
    ensures |a| + |l| == n
  {
    var b := Elements(l);
    assert a + b == Below(n);
    assert a !! b;
  }

  /** A set and a disjoint list of indices below n number at most n together, and as many
      as n only if they cover them. */
  lemma CoverCount(a: set<nat>, l: seq<nat>, n: nat)
    requires Distinct(l) && a <= Below(n)
    requires forall k :: 0 <= k < |l| ==> l[k] < n && l[k] !in a
    ensures |a| + |l| <= n
    ensures |a| + |l| == n ==> forall i :: 0 <= i < n ==> i in a || i in l
  {
    var b := Elements(l);
    assert a !! b && a + b <= Below(n);
    SubsetCount(a + b, Below(n));
  }
}
