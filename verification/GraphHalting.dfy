/** When the loops of the self-check end.

    Both kinds of loop follow links, count them in 32 bits and give up once the count has
    passed a bound. A bound of 2^32 - 1 is never passed: there only the end of the chain
    stops the loop, and a cycle has none. */
module GraphHalting {
  import opened Counting
  import opened GraphPools
  import opened GraphCheck

  /** Where n links lead from slot e; outside the pool they lead nowhere. */
  function Follow(next: seq<nat>, e: nat, n: nat): nat
    decreases n
  {
    if n == 0 || e >= |next| then e else Follow(next, next[e], n - 1)
  }

  predicate Usable(next: seq<nat>, good: set<nat>, e: nat)
  {
    e < |next| && e in good
  }

  /** The chain from e comes to its end, or to a slot that does not belong on it. */
  ghost predicate Leaves(next: seq<nat>, good: set<nat>, e: nat)
  {
    exists n: nat :: !Usable(next, good, Follow(next, e, n))
  }

  lemma {:induction false} FollowAdds(next: seq<nat>, e: nat, a: nat, b: nat)
    ensures Follow(next, e, a + b) == Follow(next, Follow(next, e, a), b)
    decreases a
  {
    if a > 0 && e < |next| { FollowAdds(next, next[e], a - 1, b); }
  }

  lemma FollowNext(next: seq<nat>, e: nat, n: nat)
    requires Follow(next, e, n) < |next|
    ensures Follow(next, e, n + 1) == next[Follow(next, e, n)]
  {
    FollowAdds(next, e, n, 1);
    assert Follow(next, next[Follow(next, e, n)], 0) == next[Follow(next, e, n)];
  }

  /** A chain that leaves does so for the first time within as many links as there are
      slots: had it met a slot twice, it would go round for ever. */
  lemma FirstLeave(next: seq<nat>, good: set<nat>, e: nat) returns (n: nat)
    requires Leaves(next, good, e)
    ensures !Usable(next, good, Follow(next, e, n)) && n <= |next|
    ensures forall i :: 0 <= i < n ==> Usable(next, good, Follow(next, e, i))
  {
    n :| !Usable(next, good, Follow(next, e, n));
    n := LeastLeave(next, good, e, n);
    var l := seq(n, (i: nat) => Follow(next, e, i));
    forall j, k | 0 <= j < k < |l| ensures l[j] != l[k] { NoRepeat(next, good, e, n, j, k); }
    forall k | 0 <= k < |l| ensures l[k] < |next| { assert Usable(next, good, Follow(next, e, k)); }
    PigeonHole(l, |next|);
  }

  lemma {:induction false} LeastLeave(next: seq<nat>, good: set<nat>, e: nat, m: nat) returns (n: nat)
    requires !Usable(next, good, Follow(next, e, m))
    ensures !Usable(next, good, Follow(next, e, n))
    ensures forall i :: 0 <= i < n ==> Usable(next, good, Follow(next, e, i))
    decreases m
  {
    if i: nat :| i < m && !Usable(next, good, Follow(next, e, i)) {
      n := LeastLeave(next, good, e, i);
    } else {
      n := m;
    }
  }

  lemma NoRepeat(next: seq<nat>, good: set<nat>, e: nat, n: nat, j: nat, k: nat)
    requires !Usable(next, good, Follow(next, e, n)) && j < k < n
    requires forall i :: 0 <= i < n ==> Usable(next, good, Follow(next, e, i))
    ensures Follow(next, e, j) != Follow(next, e, k)
  {
    FollowAdds(next, e, j, n - k);
    FollowAdds(next, e, k, n - k);
    assert Usable(next, good, Follow(next, e, j + (n - k)));
  }

  // --- The loop --------------------------------------------------------------

  datatype Loop = Running(slot: nat, count: nat) | Done

  /** One turn: stop off the chain or past the bound, else count the slot and go on. A walk
      along a list tests the count after this slot, the free-list count before it. */
  function Turn(next: seq<nat>, good: set<nat>, bound: nat, early: bool, s: Loop): Loop
  {
    match s
    case Done => Done
    case Running(e, c) =>
      if !Usable(next, good, e) || (if early then c else Increment(c)) > bound then Done
      else Running(next[e], Increment(c))
  }

  function Turns(next: seq<nat>, good: set<nat>, bound: nat, early: bool, head: nat, n: nat): Loop
  {
    if n == 0 then Running(head, 0) else Turn(next, good, bound, early, Turns(next, good, bound, early, head, n - 1))
  }

  /** A loop that is still running stands where the links lead, and has not lost count
      within 32 bits. */
  lemma {:induction false} StandsAt(next: seq<nat>, good: set<nat>, bound: nat, early: bool, head: nat, n: nat)
    ensures var s := Turns(next, good, bound, early, head, n);
            s.Running? ==> && s.slot == Follow(next, head, n) && s.count <= UINT32_MAX
                           && (n <= UINT32_MAX ==> s.count == n)
  {
    if n > 0 {
      StandsAt(next, good, bound, early, head, n - 1);
      if Turns(next, good, bound, early, head, n).Running? { FollowNext(next, head, n - 1); }
    }
  }

  lemma {:induction false} RunsOn(next: seq<nat>, good: set<nat>, bound: nat, early: bool, head: nat, n: nat)
    requires bound >= UINT32_MAX && !Leaves(next, good, head)
    ensures Turns(next, good, bound, early, head, n).Running?
  {
    if n > 0 {
      RunsOn(next, good, bound, early, head, n - 1);
      StandsAt(next, good, bound, early, head, n - 1);
      assert Usable(next, good, Follow(next, head, n - 1));
    }
  }

  /** The loop ends if and only if its bound can be passed or its chain leaves. */
  lemma HaltsExactly(next: seq<nat>, good: set<nat>, bound: nat, early: bool, head: nat)
    ensures (exists n :: Turns(next, good, bound, early, head, n).Done?)
            <==> bound < UINT32_MAX || Leaves(next, good, head)
  {
    if bound < UINT32_MAX {
      StandsAt(next, good, bound, early, head, bound + 1);
      assert Turns(next, good, bound, early, head, bound + 2).Done?;
    } else if Leaves(next, good, head) {
      var n: nat :| !Usable(next, good, Follow(next, head, n));
      StandsAt(next, good, bound, early, head, n);
      assert Turns(next, good, bound, early, head, n + 1).Done?;
    } else {
      forall n: nat ensures Turns(next, good, bound, early, head, n).Running? {
        RunsOn(next, good, bound, early, head, n);
      }
    }
  }

  // --- The loops of the self-check -------------------------------------------

  function NextLinks(es: seq<EdgeRec>, side: Side): (r: seq<nat>)
    ensures |r| == |es| && forall i :: 0 <= i < |es| ==> r[i] == LinksOf(es[i], side).next
  {
    seq(|es|, i requires 0 <= i < |es| => LinksOf(es[i], side).next)
  }

  function OwnEdges(es: seq<EdgeRec>, side: Side, v: nat): set<nat>
  {
    set i: nat | i < |es| && es[i].active && Owner(es[i], side) == v
  }

  /** The walk along one list of vertex v ends. */
  ghost predicate ChainHalts(es: seq<EdgeRec>, side: Side, v: nat, ends: Ends)
  {
    ends.degree < UINT32_MAX || Leaves(NextLinks(es, side), OwnEdges(es, side, v), ends.head)
  }

  function NextSlots(slots: seq<Slot>): (r: seq<nat>)
    ensures |r| == |slots| && forall i :: 0 <= i < |slots| ==> r[i] == slots[i].next
  {
    seq(|slots|, i requires 0 <= i < |slots| => slots[i].next)
  }

  function InactiveSlots(slots: seq<Slot>): set<nat>
  {
    set i: nat | i < |slots| && !slots[i].active
  }

  /** The count of a free list ends. */
  ghost predicate SlotsHalt(slots: seq<Slot>, head: nat)
  {
    |slots| < UINT32_MAX || Leaves(NextSlots(slots), InactiveSlots(slots), head)
  }

  /** The second list of a vertex is walked only if the first agrees. */
  ghost predicate VertexHalts(vs: seq<VertexRec>, es: seq<EdgeRec>, v: nat)
    requires v < |vs|
  {
    && ChainHalts(es, Out, v, vs[v].outs)
    && (WalkOk(es, Out, v, vs[v].outs.head, vs[v].outs.degree) ==> ChainHalts(es, In, v, vs[v].ins))
  }

  /** Every vertex that is reached halts: those before it agree. */
  ghost predicate VerticesHalt(vs: seq<VertexRec>, es: seq<EdgeRec>)
  {
    forall v :: 0 <= v < |vs| && vs[v].active && AgreeBefore(vs, es, v) && vs[v].generation != 0 ==> VertexHalts(vs, es, v)
  }

  ghost predicate AgreeBefore(vs: seq<VertexRec>, es: seq<EdgeRec>, n: nat)
  {
    forall u :: 0 <= u < n && u < |vs| && vs[u].active ==> VertexAgrees(vs, es, u)
  }

  ghost predicate FreeHalts(p: Pools)
  {
    && SlotsHalt(VertexSlots(p.vertices), p.vertexFree)
    && (FreeLength(VertexSlots(p.vertices), p.vertexFree, |p.vertices| + 1).Length? ==>
          SlotsHalt(EdgeSlots(p.edges), p.edgeFree))
  }

  /** Every loop that the self-check of these pools reaches ends. */
  ghost predicate Halts(p: Pools)
    requires InRange(p.edges)
  {
    && (p.vertexCount <= |p.vertices| && p.edgeCount <= |p.edges| ==> VerticesHalt(p.vertices, p.edges))
    && (TablesPass(p) ==> FreeHalts(p))
  }

  /** No degree and no high-water mark is 2^32 - 1, so every loop ends. */
  lemma BoundedHalts(p: Pools)
    requires InRange(p.edges) && |p.vertices| < UINT32_MAX && |p.edges| < UINT32_MAX
    requires forall v :: 0 <= v < |p.vertices| && p.vertices[v].active ==>
               p.vertices[v].outs.degree < UINT32_MAX && p.vertices[v].ins.degree < UINT32_MAX
    ensures Halts(p)
  {
  }

  // --- A state on which the self-check never ends ----------------------------

  /** One vertex that claims 2^32 - 1 outgoing edges; the one edge it has links to itself. */
  function Endless(): Pools
  {
    Pools([VertexRec(Ends(0, 0, UINT32_MAX), Ends(0, 0, 1), 1, true)],
          [EdgeRec(0, 0, Links(0, 0), Links(INVALID_INDEX, INVALID_INDEX), 1, true)],
          INVALID_INDEX, INVALID_INDEX, 1, 1)
  }

  lemma {:induction false} EndlessFollow(next: seq<nat>, n: nat)
    requires next == [0]
    ensures Follow(next, 0, n) == 0
  {
    if n > 0 { EndlessFollow(next, n - 1); }
  }

  /** Its links are all in range and its counts plausible, and the first walk never ends. */
  lemma EndlessNeverEnds(n: nat)
    ensures var p := Endless();
            && InRange(p.edges) && !Halts(p)
            && Turns(NextLinks(p.edges, Out), OwnEdges(p.edges, Out, 0), p.vertices[0].outs.degree, false,
                     p.vertices[0].outs.head, n).Running?
  {
    var p := Endless();
    var next, good := NextLinks(p.edges, Out), OwnEdges(p.edges, Out, 0);
    assert next == [0];
    forall i: nat ensures Usable(next, good, Follow(next, 0, i)) { EndlessFollow(next, i); }
    RunsOn(next, good, UINT32_MAX, false, 0, n);
    assert !VertexHalts(p.vertices, p.edges, 0) && AgreeBefore(p.vertices, p.edges, 0);
  }
}
