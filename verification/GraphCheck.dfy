/** What the self-check tests, and exactly which pools pass it. */
module GraphCheck {
  import opened Counting
  import opened GraphPools
  import opened GraphShape
  import opened GraphStructure

  const RANGE32: nat := 0x1_0000_0000

  // --- Walking a chain -------------------------------------------------------

  /** The chain from e has exactly `budget` nodes, all active edges of v. */
  predicate WalkOk(es: seq<EdgeRec>, side: Side, v: nat, e: nat, budget: nat)
    decreases budget
  {
    if e == INVALID_INDEX then budget == 0
    else
      && e < |es| && es[e].active && Owner(es[e], side) == v
      && budget > 0 && WalkOk(es, side, v, LinksOf(es[e], side).next, budget - 1)
  }

  /** The nodes such a walk visits. */
  function Trail(es: seq<EdgeRec>, side: Side, e: nat, budget: nat): seq<nat>
    decreases budget
  {
    if budget == 0 || e >= |es| then []
    else [e] + Trail(es, side, LinksOf(es[e], side).next, budget - 1)
  }

  /** Node k of l is an active edge of v whose next link is the next node of l. */
  predicate Forward(es: seq<EdgeRec>, side: Side, v: nat, l: seq<nat>, k: nat)
    requires k < |l|
  {
    && l[k] < |es| && es[l[k]].active && Owner(es[l[k]], side) == v
    && LinksOf(es[l[k]], side).next == NextIn(l, k)
  }

  ghost predicate ForwardList(es: seq<EdgeRec>, side: Side, v: nat, l: seq<nat>)
  {
    forall k :: 0 <= k < |l| ==> Forward(es, side, v, l, k)
  }

  lemma {:induction false} TrailForward(es: seq<EdgeRec>, side: Side, v: nat, e: nat, budget: nat)
    requires |es| <= INVALID_INDEX && WalkOk(es, side, v, e, budget)
    ensures var l := Trail(es, side, e, budget);
            |l| == budget && First(l) == e && ForwardList(es, side, v, l)
    decreases budget
  {
    if e != INVALID_INDEX {
      var next := LinksOf(es[e], side).next;
      TrailForward(es, side, v, next, budget - 1);
      var l, rest := Trail(es, side, e, budget), Trail(es, side, next, budget - 1);
      forall k | 0 <= k < |l| ensures Forward(es, side, v, l, k) {
        if k > 0 {
          assert Forward(es, side, v, rest, k - 1);
          assert l[k] == rest[k - 1];
        }
      }
    }
  }

  lemma {:induction false} ForwardWalks(es: seq<EdgeRec>, side: Side, v: nat, l: seq<nat>)
    requires |es| <= INVALID_INDEX && ForwardList(es, side, v, l)
    ensures WalkOk(es, side, v, First(l), |l|)
    decreases |l|
  {
    if l != [] {
      assert Forward(es, side, v, l, 0);
      var rest := l[1..];
      forall k | 0 <= k < |rest| ensures Forward(es, side, v, rest, k) {
        assert Forward(es, side, v, l, k + 1);
      }
      ForwardWalks(es, side, v, rest);
    }
  }

  /** A chain that ends cannot revisit a node: the two visits would end together. */
  lemma {:induction false} ForwardApart(es: seq<EdgeRec>, side: Side, v: nat, l: seq<nat>, j: nat, k: nat)
    requires |es| <= INVALID_INDEX && ForwardList(es, side, v, l) && j < k < |l|
    ensures l[j] != l[k]
    decreases |l| - k
  {
    assert Forward(es, side, v, l, j) && Forward(es, side, v, l, k) && Forward(es, side, v, l, j + 1);
    if k + 1 < |l| { ForwardApart(es, side, v, l, j + 1, k + 1); }
  }

  lemma ForwardDistinct(es: seq<EdgeRec>, side: Side, v: nat, l: seq<nat>)
    requires |es| <= INVALID_INDEX && ForwardList(es, side, v, l)
    ensures Distinct(l)
  {
    forall j, k | 0 <= j < k < |l| ensures l[j] != l[k] { ForwardApart(es, side, v, l, j, k); }
  }

  // --- All the lists of one side ---------------------------------------------

  function Flatten(lists: Lists): seq<nat>
  {
    if lists == [] then [] else Flatten(lists[..|lists| - 1]) + lists[|lists| - 1]
  }

  lemma {:induction false} InFlatten(lists: Lists, x: nat)
    ensures x in Flatten(lists) <==> exists v :: 0 <= v < |lists| && x in lists[v]
  {
    if lists != [] {
      var n := |lists| - 1;
      InFlatten(lists[..n], x);
      if v :| 0 <= v < |lists| && x in lists[v] {
        if v < n { assert lists[..n][v] == lists[v]; }
      }
      if v :| 0 <= v < n && x in lists[..n][v] {
        assert x in lists[v];
      }
    }
  }

  ghost predicate Owned(es: seq<EdgeRec>, side: Side, lists: Lists)
  {
    forall v :: 0 <= v < |lists| ==> Distinct(lists[v]) && OwnedBy(es, side, v, lists[v])
  }

  ghost predicate OwnedBy(es: seq<EdgeRec>, side: Side, v: nat, l: seq<nat>)
  {
    forall k :: 0 <= k < |l| ==> l[k] < |es| && es[l[k]].active && Owner(es[l[k]], side) == v
  }

  /** Lists of different vertices share no edge. */
  lemma {:induction false} FlattenDistinct(es: seq<EdgeRec>, side: Side, lists: Lists)
    requires Owned(es, side, lists)
    ensures Distinct(Flatten(lists))
    ensures forall x :: x in Flatten(lists) ==> x in ActiveEdges(es) && Owner(es[x], side) < |lists|
  {
    if lists != [] {
      var n := |lists| - 1;
      assert Owned(es, side, lists[..n]);
      FlattenDistinct(es, side, lists[..n]);
      var a, b := Flatten(lists[..n]), lists[n];
      assert Distinct(b) && OwnedBy(es, side, n, b);
      forall x | x in a + b ensures x in ActiveEdges(es) && Owner(es[x], side) < |lists| {
        if x in b { var k :| 0 <= k < |b| && b[k] == x; }
      }
      DistinctJoin(es, side, a, b, n);
    }
  }

  lemma DistinctJoin(es: seq<EdgeRec>, side: Side, a: seq<nat>, b: seq<nat>, n: nat)
    requires Distinct(a) && Distinct(b) && OwnedBy(es, side, n, b)
    requires forall x :: x in a ==> x in ActiveEdges(es) && Owner(es[x], side) < n
    ensures Distinct(a + b)
  {
    forall j, k | 0 <= j < k < |a + b| ensures (a + b)[j] != (a + b)[k] {
      if j < |a| <= k {
        assert a[j] in a;
        assert b[k - |a|] < |es| && Owner(es[b[k - |a|]], side) == n;
      }
    }
  }

  /** Lists that hold as many edges as are active hold them all, each on its owner's. */
  lemma FullLists(es: seq<EdgeRec>, side: Side, lists: Lists)
    requires Owned(es, side, lists) && |Flatten(lists)| == |ActiveEdges(es)|
    ensures AllSit(es, side, lists, ActiveEdges(es))
  {
    FlattenDistinct(es, side, lists);
    var all := Flatten(lists);
    assert Elements(all) <= ActiveEdges(es);
    SubsetCount(Elements(all), ActiveEdges(es));
    forall e | e in ActiveEdges(es) ensures Sits(es, side, lists, e) {
      assert e in all;
      InFlatten(lists, e);
      var v :| 0 <= v < |lists| && e in lists[v];
      assert OwnedBy(es, side, v, lists[v]);
    }
  }

  /** And conversely. */
  lemma SideCount(vs: seq<VertexRec>, es: seq<EdgeRec>, side: Side, lists: Lists)
    requires SideOk(vs, es, side, lists, ActiveEdges(es))
    ensures Owned(es, side, lists) && |Flatten(lists)| == |ActiveEdges(es)|
  {
    forall v | 0 <= v < |lists| ensures Distinct(lists[v]) && OwnedBy(es, side, v, lists[v]) {
      assert ListOk(v, vs[v], es, side, lists[v]) && Holds(lists[v], ActiveEdges(es));
      forall k | 0 <= k < |lists[v]|
        ensures lists[v][k] < |es| && es[lists[v][k]].active && Owner(es[lists[v][k]], side) == v
      {
        assert NodeOk(es, side, v, lists[v], k);
      }
    }
    FlattenDistinct(es, side, lists);
    var all := Flatten(lists);
    forall e | e in ActiveEdges(es) ensures e in all {
      assert Sits(es, side, lists, e);
      InFlatten(lists, e);
    }
    assert Elements(all) == ActiveEdges(es);
  }

  // --- Links of single edges -------------------------------------------------

  /** The self-check's test of one edge's links on one side, against its neighbours or the
      ends of its owner's list. */
  predicate LinksAgree(vs: seq<VertexRec>, es: seq<EdgeRec>, side: Side, e: nat)
    requires e < |es| && Owner(es[e], side) < |vs|
    requires IsLink(es, LinksOf(es[e], side).prev) && IsLink(es, LinksOf(es[e], side).next)
  {
    var links, ends := LinksOf(es[e], side), EndsOf(vs[Owner(es[e], side)], side);
    && (if links.prev == INVALID_INDEX then ends.head == e else LinksOf(es[links.prev], side).next == e)
    && (if links.next == INVALID_INDEX then ends.tail == e else LinksOf(es[links.next], side).prev == e)
  }

  /** Its test of one vertex: both chains have the recorded length, and head and tail
      are absent together. */
  predicate VertexAgrees(vs: seq<VertexRec>, es: seq<EdgeRec>, v: nat)
    requires v < |vs|
  {
    && vs[v].generation != 0
    && WalkOk(es, Out, v, vs[v].outs.head, vs[v].outs.degree)
    && WalkOk(es, In, v, vs[v].ins.head, vs[v].ins.degree)
    && (vs[v].outs.head == INVALID_INDEX <==> vs[v].outs.tail == INVALID_INDEX)
    && (vs[v].ins.head == INVALID_INDEX <==> vs[v].ins.tail == INVALID_INDEX)
  }

  predicate InRange(es: seq<EdgeRec>)
  {
    forall e :: 0 <= e < |es| && es[e].active ==>
      && IsLink(es, es[e].outs.prev) && IsLink(es, es[e].outs.next)
      && IsLink(es, es[e].ins.prev) && IsLink(es, es[e].ins.next)
  }

  predicate EdgeAgrees(vs: seq<VertexRec>, es: seq<EdgeRec>, e: nat)
    requires e < |es| && es[e].active && InRange(es)
  {
    && es[e].generation != 0
    && es[e].src < |vs| && es[e].dst < |vs| && vs[es[e].src].active && vs[es[e].dst].active
    && LinksAgree(vs, es, Out, e) && LinksAgree(vs, es, In, e)
  }

  /** Degrees of the active vertices among the first n, added with 32-bit wrap-around. */
  function DegreeTotal(vs: seq<VertexRec>, side: Side, n: nat): nat
    requires n <= |vs|
  {
    if n == 0 then 0
    else if !vs[n - 1].active then DegreeTotal(vs, side, n - 1)
    else (DegreeTotal(vs, side, n - 1) + EndsOf(vs[n - 1], side).degree) % RANGE32
  }

  // --- Free lists ------------------------------------------------------------

  datatype Length = Broken | Length(value: nat)

  /** A slot of either pool as its free list sees it. */
  datatype Slot = Slot(active: bool, next: nat)

  function VertexSlots(vs: seq<VertexRec>): (r: seq<Slot>)
    ensures |r| == |vs| && forall i :: 0 <= i < |vs| ==> r[i] == Slot(vs[i].active, vs[i].outs.head)
  {
    seq(|vs|, i requires 0 <= i < |vs| => Slot(vs[i].active, vs[i].outs.head))
  }

  function EdgeSlots(es: seq<EdgeRec>): (r: seq<Slot>)
    ensures |r| == |es| && forall i :: 0 <= i < |es| ==> r[i] == Slot(es[i].active, es[i].outs.next)
  {
    seq(|es|, i requires 0 <= i < |es| => Slot(es[i].active, es[i].outs.next))
  }

  /** Length of the free list from `index`, or Broken when it leaves the pool, meets an
      active slot or does not end within `budget` nodes. */
  function FreeLength(slots: seq<Slot>, index: nat, budget: nat): Length
    decreases budget
  {
    if index == INVALID_INDEX then Length(0)
    else if index >= |slots| || budget == 0 || slots[index].active then Broken
    else
      match FreeLength(slots, slots[index].next, budget - 1)
      case Broken => Broken
      case Length(n) => Length(n + 1)
  }

  function Plus32(a: nat, b: nat): nat { (a + b) % RANGE32 }

  ghost predicate VerticesAgree(vs: seq<VertexRec>, es: seq<EdgeRec>)
  {
    forall v :: 0 <= v < |vs| && vs[v].active ==> VertexAgrees(vs, es, v)
  }

  ghost predicate EdgesAgree(vs: seq<VertexRec>, es: seq<EdgeRec>)
    requires InRange(es)
  {
    forall e :: 0 <= e < |es| && es[e].active ==> EdgeAgrees(vs, es, e)
  }

  /** Everything the self-check tests about the pools. */
  ghost predicate Passes(p: Pools)
    requires InRange(p.edges)
  {
    TablesPass(p) && FreeListsPass(p)
  }

  /** What it tests before the free lists. */
  ghost predicate TablesPass(p: Pools)
    requires InRange(p.edges)
  {
    && p.vertexCount <= |p.vertices| && p.edgeCount <= |p.edges|
    && VerticesAgree(p.vertices, p.edges)
    && |ActiveVertices(p.vertices)| == p.vertexCount
    && DegreeTotal(p.vertices, Out, |p.vertices|) == p.edgeCount
    && DegreeTotal(p.vertices, In, |p.vertices|) == p.edgeCount
    && EdgesAgree(p.vertices, p.edges)
    && |ActiveEdges(p.edges)| == p.edgeCount
  }

  ghost predicate FreeListsPass(p: Pools)
  {
    var fv, fe := FreeLength(VertexSlots(p.vertices), p.vertexFree, |p.vertices| + 1),
                  FreeLength(EdgeSlots(p.edges), p.edgeFree, |p.edges| + 1);
    && fv.Length? && fe.Length?
    && Plus32(p.vertexCount, fv.value) == |p.vertices|
    && Plus32(p.edgeCount, fe.value) == |p.edges|
  }

  // --- From the tests to the lists -------------------------------------------

  /** The lists the walks find. */
  function Trails(vs: seq<VertexRec>, es: seq<EdgeRec>, side: Side): (lists: Lists)
    ensures |lists| == |vs|
  {
    seq(|vs|, v requires 0 <= v < |vs| =>
      if vs[v].active then Trail(es, side, EndsOf(vs[v], side).head, EndsOf(vs[v], side).degree) else [])
  }

  ghost predicate WalksOk(vs: seq<VertexRec>, es: seq<EdgeRec>, side: Side)
  {
    forall v :: 0 <= v < |vs| && vs[v].active ==>
      WalkOk(es, side, v, EndsOf(vs[v], side).head, EndsOf(vs[v], side).degree)
  }

  lemma TrailsForward(vs: seq<VertexRec>, es: seq<EdgeRec>, side: Side)
    requires |es| <= INVALID_INDEX && WalksOk(vs, es, side)
    ensures var lists := Trails(vs, es, side);
            && Owned(es, side, lists)
            && forall v :: 0 <= v < |vs| ==> ForwardList(es, side, v, lists[v])
  {
    var lists := Trails(vs, es, side);
    forall v | 0 <= v < |vs| ensures ForwardList(es, side, v, lists[v]) && Distinct(lists[v]) && OwnedBy(es, side, v, lists[v]) {
      if vs[v].active {
        TrailForward(es, side, v, EndsOf(vs[v], side).head, EndsOf(vs[v], side).degree);
        ForwardDistinct(es, side, v, lists[v]);
        forall k | 0 <= k < |lists[v]|
          ensures lists[v][k] < |es| && es[lists[v][k]].active && Owner(es[lists[v][k]], side) == v
        {
          assert Forward(es, side, v, lists[v], k);
        }
      }
    }
  }

  /** The wrapped sum of degrees is the number of edges the walks find. */
  lemma {:induction false} TotalIsLength(vs: seq<VertexRec>, es: seq<EdgeRec>, side: Side, lists: Lists, n: nat)
    requires n <= |vs| && |lists| == |vs|
    requires forall v :: 0 <= v < |vs| ==> |lists[v]| == if vs[v].active then EndsOf(vs[v], side).degree else 0
    ensures DegreeTotal(vs, side, n) == |Flatten(lists[..n])| % RANGE32
  {
    if n > 0 {
      TotalIsLength(vs, es, side, lists, n - 1);
      assert lists[..n][..n - 1] == lists[..n - 1];
      var a, b := |Flatten(lists[..n - 1])|, |lists[n - 1]|;
      assert |Flatten(lists[..n])| == a + b;
      WrapAdds(a, b);
    }
  }

  lemma WrapAdds(a: nat, b: nat)
    ensures (a % RANGE32 + b) % RANGE32 == (a + b) % RANGE32
  {
  }

  // --- Free lists: from the length to the list -------------------------------

  ghost predicate FreeNode(slots: seq<Slot>, l: seq<nat>, k: nat)
    requires k < |l|
  {
    l[k] < |slots| && !slots[l[k]].active && slots[l[k]].next == NextIn(l, k)
  }

  ghost predicate FreeChain(slots: seq<Slot>, l: seq<nat>)
  {
    forall k :: 0 <= k < |l| ==> FreeNode(slots, l, k)
  }

  function FreeTrail(slots: seq<Slot>, index: nat, budget: nat): seq<nat>
    decreases budget
  {
    if index >= |slots| || budget == 0 then [] else [index] + FreeTrail(slots, slots[index].next, budget - 1)
  }

  lemma {:induction false} LengthChain(slots: seq<Slot>, index: nat, budget: nat)
    requires |slots| <= INVALID_INDEX && FreeLength(slots, index, budget).Length?
    ensures var l := FreeTrail(slots, index, budget);
            FreeChain(slots, l) && First(l) == index && |l| == FreeLength(slots, index, budget).value
    decreases budget
  {
    if index != INVALID_INDEX {
      var next := slots[index].next;
      LengthChain(slots, next, budget - 1);
      var l, rest := FreeTrail(slots, index, budget), FreeTrail(slots, next, budget - 1);
      forall k | 0 <= k < |l| ensures FreeNode(slots, l, k) {
        if k > 0 {
          assert FreeNode(slots, rest, k - 1);
          assert l[k] == rest[k - 1];
        }
      }
    }
  }

  lemma {:induction false} ChainLength(slots: seq<Slot>, l: seq<nat>, budget: nat)
    requires |slots| <= INVALID_INDEX && FreeChain(slots, l) && |l| <= budget
    ensures FreeLength(slots, First(l), budget) == Length(|l|)
    decreases budget
  {
    if l != [] {
      assert FreeNode(slots, l, 0);
      var rest := l[1..];
      forall k | 0 <= k < |rest| ensures FreeNode(slots, rest, k) { assert FreeNode(slots, l, k + 1); }
      ChainLength(slots, rest, budget - 1);
    }
  }

  lemma {:induction false} ChainApart(slots: seq<Slot>, l: seq<nat>, j: nat, k: nat)
    requires |slots| <= INVALID_INDEX && FreeChain(slots, l) && j < k < |l|
    ensures l[j] != l[k]
    decreases |l| - k
  {
    assert FreeNode(slots, l, j) && FreeNode(slots, l, k) && FreeNode(slots, l, j + 1);
    if k + 1 < |l| { ChainApart(slots, l, j + 1, k + 1); }
  }

  /** A free list as long as there are inactive slots covers them all. */
  ghost predicate FreeOk(slots: seq<Slot>, head: nat, l: seq<nat>)
  {
    && head == First(l) && Distinct(l) && FreeChain(slots, l)
    && forall i :: 0 <= i < |slots| && !slots[i].active ==> i in l
  }

  function ActiveSlots(slots: seq<Slot>): set<nat>
  {
    set i: nat | i < |slots| && slots[i].active
  }

  lemma LengthCovers(slots: seq<Slot>, head: nat, count: nat)
    requires |slots| <= INVALID_INDEX && count == |ActiveSlots(slots)|
    requires FreeLength(slots, head, |slots| + 1).Length?
    requires Plus32(count, FreeLength(slots, head, |slots| + 1).value) == |slots|
    ensures var l := FreeTrail(slots, head, |slots| + 1);
            FreeOk(slots, head, l) && count + |l| == |slots|
  {
    hide FreeLength, FreeTrail;
    var l := FreeTrail(slots, head, |slots| + 1);
    LengthChain(slots, head, |slots| + 1);
    forall j, k | 0 <= j < k < |l| ensures l[j] != l[k] { ChainApart(slots, l, j, k); }
    forall k | 0 <= k < |l| ensures l[k] < |slots| && !slots[l[k]].active { assert FreeNode(slots, l, k); }
    CoverCount(ActiveSlots(slots), l, |slots|);
  }

  lemma CoversLength(slots: seq<Slot>, head: nat, l: seq<nat>)
    requires |slots| <= INVALID_INDEX && FreeOk(slots, head, l)
    ensures FreeLength(slots, head, |slots| + 1) == Length(|l|)
    ensures |ActiveSlots(slots)| + |l| == |slots|
  {
    forall k | 0 <= k < |l| ensures l[k] < |slots| && !slots[l[k]].active { assert FreeNode(slots, l, k); }
    PartCount(ActiveSlots(slots), l, |slots|);
    ChainLength(slots, l, |slots| + 1);
  }

  lemma VertexSlotsAgree(vs: seq<VertexRec>, head: nat, l: seq<nat>)
    ensures FreeOk(VertexSlots(vs), head, l) <==> VertexFreeOk(vs, head, l)
    ensures ActiveSlots(VertexSlots(vs)) == ActiveVertices(vs)
  {
    if FreeOk(VertexSlots(vs), head, l) {
      forall k | 0 <= k < |l| ensures l[k] < |vs| && !vs[l[k]].active && vs[l[k]].outs.head == NextIn(l, k) {
        assert FreeNode(VertexSlots(vs), l, k);
      }
    }
  }

  lemma EdgeSlotsAgree(es: seq<EdgeRec>, head: nat, l: seq<nat>)
    ensures FreeOk(EdgeSlots(es), head, l) <==> EdgeFreeOk(es, head, l)
    ensures ActiveSlots(EdgeSlots(es)) == ActiveEdges(es)
  {
    if FreeOk(EdgeSlots(es), head, l) {
      forall k | 0 <= k < |l| ensures l[k] < |es| && !es[l[k]].active && es[l[k]].outs.next == NextIn(l, k) {
        assert FreeNode(EdgeSlots(es), l, k);
      }
    }
  }
}
