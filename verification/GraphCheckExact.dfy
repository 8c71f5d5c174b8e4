/** Which pools pass the self-check.

    The self-check accepts every well-formed graph. It accepts one more family: in-list heads
    whose prev link names a retired slot that still points back at them. Nothing walks the
    in-links of retired slots, so nothing in the self-check can tell; the free list rules the
    same thing out for out-lists, whose links it reuses. */
module GraphCheckExact {
  import opened Counting
  import opened GraphPools
  import opened GraphShape
  import opened GraphStructure
  import opened GraphCheck

  /** The links of node k of l, except that the head's prev may name an inactive slot
      whose own next link points back. */
  ghost predicate AlmostNode(es: seq<EdgeRec>, side: Side, v: nat, l: seq<nat>, k: nat)
    requires k < |l|
  {
    && Forward(es, side, v, l, k)
    && var prev := LinksOf(es[l[k]], side).prev;
       if k > 0 then prev == l[k - 1]
       else prev == INVALID_INDEX
            || (prev < |es| && !es[prev].active && LinksOf(es[prev], side).next == l[0])
  }

  /** All the tests that concern one side. */
  ghost predicate SidePasses(vs: seq<VertexRec>, es: seq<EdgeRec>, side: Side)
  {
    && |es| <= INVALID_INDEX
    && WalksOk(vs, es, side) && AllSit(es, side, Trails(vs, es, side), ActiveEdges(es))
    && (forall e :: e in ActiveEdges(es) ==>
          && IsLink(es, LinksOf(es[e], side).prev) && IsLink(es, LinksOf(es[e], side).next)
          && Owner(es[e], side) < |vs| && LinksAgree(vs, es, side, e))
    && (forall v :: 0 <= v < |vs| && vs[v].active ==>
          (EndsOf(vs[v], side).head == INVALID_INDEX <==> EndsOf(vs[v], side).tail == INVALID_INDEX))
  }

  lemma InteriorPrev(vs: seq<VertexRec>, es: seq<EdgeRec>, side: Side, v: nat, k: nat)
    requires SidePasses(vs, es, side) && v < |vs|
    requires ForwardList(es, side, v, Trails(vs, es, side)[v]) && 0 < k < |Trails(vs, es, side)[v]|
    ensures AlmostNode(es, side, v, Trails(vs, es, side)[v], k)
  {
    var l := Trails(vs, es, side)[v];
    assert Forward(es, side, v, l, k) && Forward(es, side, v, l, k - 1);
    assert l[k - 1] in ActiveEdges(es);
    assert LinksAgree(vs, es, side, l[k - 1]);
  }

  /** The head of a list has no active predecessor: that one's list would hold it later. */
  lemma HeadPrev(vs: seq<VertexRec>, es: seq<EdgeRec>, side: Side, v: nat)
    requires SidePasses(vs, es, side) && v < |vs|
    requires Owned(es, side, Trails(vs, es, side))
    requires forall u :: 0 <= u < |vs| ==> ForwardList(es, side, u, Trails(vs, es, side)[u])
    requires Trails(vs, es, side)[v] != []
    ensures AlmostNode(es, side, v, Trails(vs, es, side)[v], 0)
  {
    var lists := Trails(vs, es, side);
    var l := lists[v];
    assert Forward(es, side, v, l, 0);
    assert l[0] in ActiveEdges(es);
    assert LinksAgree(vs, es, side, l[0]);
    var prev := LinksOf(es[l[0]], side).prev;
    if prev != INVALID_INDEX && es[prev].active {
      assert Sits(es, side, lists, prev);
      var u := Owner(es[prev], side);
      var j :| 0 <= j < |lists[u]| && lists[u][j] == prev;
      NotAHead(es, side, lists, u, v, j);
    }
  }

  lemma NotAHead(es: seq<EdgeRec>, side: Side, lists: Lists, u: nat, v: nat, j: nat)
    requires |es| <= INVALID_INDEX && u < |lists| && v < |lists| && Owned(es, side, lists)
    requires ForwardList(es, side, u, lists[u]) && ForwardList(es, side, v, lists[v])
    requires j < |lists[u]| && lists[v] != [] && lists[u][j] < |es|
    ensures LinksOf(es[lists[u][j]], side).next != lists[v][0]
  {
    assert Forward(es, side, u, lists[u], j) && Forward(es, side, v, lists[v], 0);
    if j + 1 < |lists[u]| {
      assert Forward(es, side, u, lists[u], j + 1);
      assert Distinct(lists[v]);
    }
  }

  lemma EndsFound(vs: seq<VertexRec>, es: seq<EdgeRec>, side: Side, v: nat)
    requires SidePasses(vs, es, side) && v < |vs| && vs[v].active
    requires ForwardList(es, side, v, Trails(vs, es, side)[v])
    ensures EndsOf(vs[v], side) == EndsFor(Trails(vs, es, side)[v])
  {
    var ends := EndsOf(vs[v], side);
    var l := Trails(vs, es, side)[v];
    TrailForward(es, side, v, ends.head, ends.degree);
    if l != [] {
      var last := l[|l| - 1];
      assert Forward(es, side, v, l, |l| - 1);
      assert last in ActiveEdges(es);
      assert LinksAgree(vs, es, side, last);
    }
  }

  ghost predicate AlmostLists(vs: seq<VertexRec>, es: seq<EdgeRec>, side: Side, lists: Lists)
  {
    && |lists| == |vs| && Owned(es, side, lists) && AllSit(es, side, lists, ActiveEdges(es))
    && (forall v :: 0 <= v < |vs| ==> AlmostList(vs[v], es, side, v, lists[v]))
  }

  ghost predicate AlmostList(rec: VertexRec, es: seq<EdgeRec>, side: Side, v: nat, l: seq<nat>)
  {
    && (if rec.active then EndsOf(rec, side) == EndsFor(l) else l == [])
    && forall k :: 0 <= k < |l| ==> AlmostNode(es, side, v, l, k)
  }

  /** What the tests of one side establish. */
  lemma SideFound(vs: seq<VertexRec>, es: seq<EdgeRec>, side: Side)
    requires SidePasses(vs, es, side)
    ensures AlmostLists(vs, es, side, Trails(vs, es, side))
  {
    var lists := Trails(vs, es, side);
    TrailsForward(vs, es, side);
    forall v | 0 <= v < |vs| ensures AlmostList(vs[v], es, side, v, lists[v]) {
      if vs[v].active { EndsFound(vs, es, side, v); }
      forall k | 0 <= k < |lists[v]| ensures AlmostNode(es, side, v, lists[v], k) {
        if k > 0 { InteriorPrev(vs, es, side, v, k); } else { HeadPrev(vs, es, side, v); }
      }
    }
  }

  /** Lists whose heads have no predecessor at all are well linked. */
  lemma AlmostIsOk(vs: seq<VertexRec>, es: seq<EdgeRec>, side: Side, lists: Lists)
    requires AlmostLists(vs, es, side, lists)
    requires forall e :: e in ActiveEdges(es) ==>
               var prev := LinksOf(es[e], side).prev; prev < |es| ==> es[prev].active
    ensures SideOk(vs, es, side, lists, ActiveEdges(es))
  {
    forall v | 0 <= v < |vs| ensures ListOk(v, vs[v], es, side, lists[v]) && Holds(lists[v], ActiveEdges(es)) {
      assert AlmostList(vs[v], es, side, v, lists[v]);
      assert Distinct(lists[v]) && OwnedBy(es, side, v, lists[v]);
      forall k | 0 <= k < |lists[v]| ensures NodeOk(es, side, v, lists[v], k) && lists[v][k] in ActiveEdges(es) {
        assert AlmostNode(es, side, v, lists[v], k);
      }
    }
  }

  // --- The family the self-check cannot see -------------------------------------

  /** Every active edge's in-prev link is absent or names an active edge. */
  ghost predicate InPrevLive(es: seq<EdgeRec>)
  {
    forall e :: e in ActiveEdges(es) ==> es[e].ins.prev < |es| ==> es[es[e].ins.prev].active
  }

  /** Retired slots named by an in-prev link still point back. */
  ghost predicate StaleBack(es: seq<EdgeRec>)
  {
    forall e :: e in ActiveEdges(es) ==>
      es[e].ins.prev < |es| && !es[es[e].ins.prev].active ==> es[es[e].ins.prev].ins.next == e
  }

  /** Edge i with an in-prev link to a retired slot cut. */
  function Mend(es: seq<EdgeRec>, i: nat): EdgeRec
    requires i < |es|
  {
    var e := es[i];
    if e.active && e.ins.prev < |es| && !es[e.ins.prev].active
    then e.(ins := e.ins.(prev := INVALID_INDEX)) else e
  }

  function MendAll(es: seq<EdgeRec>): (r: seq<EdgeRec>)
    ensures |r| == |es| && forall i :: 0 <= i < |es| ==> r[i] == Mend(es, i)
  {
    seq(|es|, i requires 0 <= i < |es| => Mend(es, i))
  }

  function Mended(p: Pools): Pools
  {
    p.(edges := MendAll(p.edges))
  }

  lemma MendKeeps(es: seq<EdgeRec>)
    ensures ActiveEdges(MendAll(es)) == ActiveEdges(es)
    ensures InPrevLive(es) ==> MendAll(es) == es
  {
  }

  lemma MendedAlmost(vs: seq<VertexRec>, es: seq<EdgeRec>, lists: Lists)
    requires AlmostLists(vs, es, In, lists) && |es| <= INVALID_INDEX
    ensures SideOk(vs, MendAll(es), In, lists, ActiveEdges(es))
  {
    var es' := MendAll(es);
    MendKeeps(es);
    forall v | 0 <= v < |vs| ensures ListOk(v, vs[v], es', In, lists[v]) && Holds(lists[v], ActiveEdges(es)) {
      assert AlmostList(vs[v], es, In, v, lists[v]);
      assert Distinct(lists[v]) && OwnedBy(es, In, v, lists[v]);
      forall k | 0 <= k < |lists[v]| ensures NodeOk(es', In, v, lists[v], k) && lists[v][k] in ActiveEdges(es) {
        assert AlmostNode(es, In, v, lists[v], k);
        if k > 0 { assert AlmostNode(es, In, v, lists[v], k - 1); }
      }
    }
    forall e | e in ActiveEdges(es) ensures Sits(es', In, lists, e) { assert Sits(es, In, lists, e); }
  }

  // --- Passing is sound ------------------------------------------------------

  ghost predicate Sized(p: Pools)
  {
    |p.vertices| <= INVALID_INDEX && |p.edges| <= INVALID_INDEX && InRange(p.edges)
  }

  lemma WalksFill(vs: seq<VertexRec>, es: seq<EdgeRec>, side: Side)
    requires |es| <= INVALID_INDEX && WalksOk(vs, es, side)
    requires DegreeTotal(vs, side, |vs|) == |ActiveEdges(es)|
    ensures AllSit(es, side, Trails(vs, es, side), ActiveEdges(es))
  {
    var lists := Trails(vs, es, side);
    TrailsForward(vs, es, side);
    forall v | 0 <= v < |vs| ensures |lists[v]| == if vs[v].active then EndsOf(vs[v], side).degree else 0 {
      if vs[v].active { TrailForward(es, side, v, EndsOf(vs[v], side).head, EndsOf(vs[v], side).degree); }
    }
    TotalIsLength(vs, es, side, lists, |vs|);
    assert lists[..|vs|] == lists;
    FlattenFits(es, side, lists);
    FullLists(es, side, lists);
  }

  lemma FlattenFits(es: seq<EdgeRec>, side: Side, lists: Lists)
    requires Owned(es, side, lists) && |es| <= INVALID_INDEX
    ensures |Flatten(lists)| % RANGE32 == |Flatten(lists)|
  {
    FlattenDistinct(es, side, lists);
    var all := Flatten(lists);
    forall k | 0 <= k < |all| ensures all[k] < |es| { assert all[k] in ActiveEdges(es); }
    PigeonHole(all, |es|);
  }

  lemma PassesSide(p: Pools, side: Side)
    requires Sized(p) && Passes(p)
    ensures SidePasses(p.vertices, p.edges, side)
  {
    forall v | 0 <= v < |p.vertices| && p.vertices[v].active
      ensures WalkOk(p.edges, side, v, EndsOf(p.vertices[v], side).head, EndsOf(p.vertices[v], side).degree)
      ensures EndsOf(p.vertices[v], side).head == INVALID_INDEX <==> EndsOf(p.vertices[v], side).tail == INVALID_INDEX
    {
      assert VertexAgrees(p.vertices, p.edges, v);
    }
    WalksFill(p.vertices, p.edges, side);
    forall e | e in ActiveEdges(p.edges)
      ensures Owner(p.edges[e], side) < |p.vertices|
      ensures IsLink(p.edges, LinksOf(p.edges[e], side).prev) && IsLink(p.edges, LinksOf(p.edges[e], side).next)
      ensures LinksAgree(p.vertices, p.edges, side, e)
    {
      assert EdgeAgrees(p.vertices, p.edges, e);
    }
  }

  /** No out-list head is preceded by a retired slot: that slot is on the free list, whose
      links lead to retired slots only. */
  lemma OutPrevLive(vs: seq<VertexRec>, es: seq<EdgeRec>, lists: Lists, head: nat, l: seq<nat>, e: nat)
    requires AlmostLists(vs, es, Out, lists) && EdgeFreeOk(es, head, l) && |es| <= INVALID_INDEX
    requires e in ActiveEdges(es) && es[e].outs.prev < |es|
    ensures es[es[e].outs.prev].active
  {
    var v, prev := es[e].src, es[e].outs.prev;
    assert Sits(es, Out, lists, e);
    var k :| 0 <= k < |lists[v]| && lists[v][k] == e;
    assert AlmostList(vs[v], es, Out, v, lists[v]);
    assert AlmostNode(es, Out, v, lists[v], k);
    FreeNext(es, head, l, prev);
    if k > 0 { assert AlmostNode(es, Out, v, lists[v], k - 1); }
  }

  lemma FreeNext(es: seq<EdgeRec>, head: nat, l: seq<nat>, q: nat)
    requires EdgeFreeOk(es, head, l) && q < |es|
    ensures !es[q].active ==>
              var next := es[q].outs.next; next == INVALID_INDEX || (next < |es| && !es[next].active)
  {
    if !es[q].active {
      var j :| 0 <= j < |l| && l[j] == q;
      assert es[l[j]].outs.next == NextIn(l, j);
    }
  }

  ghost function ShapeFound(p: Pools): Shape
  {
    Shape(Trails(p.vertices, p.edges, Out), Trails(p.vertices, p.edges, In),
          FreeTrail(VertexSlots(p.vertices), p.vertexFree, |p.vertices| + 1),
          FreeTrail(EdgeSlots(p.edges), p.edgeFree, |p.edges| + 1))
  }

  lemma FreeFound(p: Pools)
    requires Sized(p) && Passes(p)
    ensures var sh := ShapeFound(p);
            && VertexFreeOk(p.vertices, p.vertexFree, sh.freeVertices)
            && EdgeFreeOk(p.edges, p.edgeFree, sh.freeEdges)
            && p.vertexCount + |sh.freeVertices| == |p.vertices|
            && p.edgeCount + |sh.freeEdges| == |p.edges|
  {
    var sh := ShapeFound(p);
    VertexSlotsAgree(p.vertices, p.vertexFree, sh.freeVertices);
    EdgeSlotsAgree(p.edges, p.edgeFree, sh.freeEdges);
    LengthCovers(VertexSlots(p.vertices), p.vertexFree, p.vertexCount);
    LengthCovers(EdgeSlots(p.edges), p.edgeFree, p.edgeCount);
  }

  lemma SidesFound(p: Pools)
    requires Sized(p) && Passes(p)
    ensures Sides(Mended(p), ShapeFound(p))
  {
    var vs, es, sh := p.vertices, p.edges, ShapeFound(p);
    FreeFound(p);
    MendKeeps(es);
    PassesSide(p, Out);
    OutFound(vs, es, p.edgeFree, sh.freeEdges);
    PassesSide(p, In);
    SideFound(vs, es, In);
    MendedAlmost(vs, es, sh.ins);
  }

  lemma OutFound(vs: seq<VertexRec>, es: seq<EdgeRec>, head: nat, l: seq<nat>)
    requires SidePasses(vs, es, Out) && EdgeFreeOk(es, head, l)
    ensures SideOk(vs, MendAll(es), Out, Trails(vs, es, Out), ActiveEdges(es))
  {
    var lists := Trails(vs, es, Out);
    SideFound(vs, es, Out);
    forall e | e in ActiveEdges(es) && es[e].outs.prev < |es| ensures es[es[e].outs.prev].active {
      OutPrevLive(vs, es, lists, head, l, e);
    }
    AlmostIsOk(vs, es, Out, lists);
    SideFrame(vs, es, vs, MendAll(es), Out, lists, ActiveEdges(es));
  }

  lemma MendedRest(p: Pools, sh: Shape)
    requires Sized(p) && Passes(p) && EdgeFreeOk(p.edges, p.edgeFree, sh.freeEdges)
    ensures EdgeFreeOk(Mended(p).edges, p.edgeFree, sh.freeEdges) && Tagged(Mended(p))
    ensures StaleBack(p.edges)
  {
    forall i | 0 <= i < |p.vertices| && p.vertices[i].active ensures p.vertices[i].generation != 0 {
      assert VertexAgrees(p.vertices, p.edges, i);
    }
    forall e | 0 <= e < |p.edges| && p.edges[e].active
      ensures p.edges[e].generation != 0
      ensures p.edges[e].ins.prev < |p.edges| ==> p.edges[p.edges[e].ins.prev].ins.next == e
    {
      assert EdgeAgrees(p.vertices, p.edges, e);
    }
  }

  lemma Sound(p: Pools)
    requires Sized(p) && Passes(p)
    ensures Formed(Mended(p), ShapeFound(p)) && StaleBack(p.edges)
  {
    FreeFound(p);
    SidesFound(p);
    MendedRest(p, ShapeFound(p));
  }

  // --- Passing is complete ---------------------------------------------------

  /** A well-linked list is walked in exactly its length, whatever its prev links. */
  lemma ListWalks(rec: VertexRec, es: seq<EdgeRec>, es0: seq<EdgeRec>, side: Side, v: nat, l: seq<nat>)
    requires ListOk(v, rec, es, side, l) && Holds(l, ActiveEdges(es)) && rec.active
    requires |es0| == |es| <= INVALID_INDEX
    requires forall i :: 0 <= i < |es| ==>
               && es0[i].active == es[i].active && Owner(es0[i], side) == Owner(es[i], side)
               && LinksOf(es0[i], side).next == LinksOf(es[i], side).next
    ensures WalkOk(es0, side, v, EndsOf(rec, side).head, EndsOf(rec, side).degree)
    ensures EndsOf(rec, side).head == INVALID_INDEX <==> EndsOf(rec, side).tail == INVALID_INDEX
  {
    forall k | 0 <= k < |l| ensures Forward(es0, side, v, l, k) { assert NodeOk(es, side, v, l, k); }
    ForwardWalks(es0, side, v, l);
    if l != [] { assert NodeOk(es, side, v, l, |l| - 1) && NodeOk(es, side, v, l, 0); }
  }

  lemma SideTotal(vs: seq<VertexRec>, es: seq<EdgeRec>, side: Side, lists: Lists)
    requires SideOk(vs, es, side, lists, ActiveEdges(es)) && |es| <= INVALID_INDEX
    ensures DegreeTotal(vs, side, |vs|) == |ActiveEdges(es)|
  {
    SideCount(vs, es, side, lists);
    forall v | 0 <= v < |vs| ensures |lists[v]| == if vs[v].active then EndsOf(vs[v], side).degree else 0 {
      assert ListOk(v, vs[v], es, side, lists[v]);
    }
    TotalIsLength(vs, es, side, lists, |vs|);
    assert lists[..|vs|] == lists;
    FlattenFits(es, side, lists);
  }

  /** An edge of a well-linked list agrees with its neighbours and its list's ends. */
  lemma NodeAgrees(vs: seq<VertexRec>, es: seq<EdgeRec>, side: Side, lists: Lists, e: nat)
    requires SideOk(vs, es, side, lists, ActiveEdges(es)) && |es| <= INVALID_INDEX && e in ActiveEdges(es)
    ensures Owner(es[e], side) < |vs| && vs[Owner(es[e], side)].active
    ensures IsLink(es, LinksOf(es[e], side).prev) && IsLink(es, LinksOf(es[e], side).next)
    ensures LinksAgree(vs, es, side, e)
    ensures LinksOf(es[e], side).prev < |es| ==> es[LinksOf(es[e], side).prev].active
    ensures LinksOf(es[e], side).next < |es| ==> es[LinksOf(es[e], side).next].active
  {
    assert Sits(es, side, lists, e);
    var v := Owner(es[e], side);
    var l := lists[v];
    var k :| 0 <= k < |l| && l[k] == e;
    assert ListOk(v, vs[v], es, side, l) && Holds(l, ActiveEdges(es));
    Neighbours(es, side, v, vs[v], l, k);
    if k > 0 { assert NodeOk(es, side, v, l, k - 1); }
    if k + 1 < |l| { assert NodeOk(es, side, v, l, k + 1); }
  }

  /** Mending cuts only links the self-check follows to a retired slot that points back. */
  lemma EdgePasses(vs: seq<VertexRec>, es: seq<EdgeRec>, outs: Lists, ins: Lists, e: nat)
    requires |es| <= INVALID_INDEX && InRange(es) && StaleBack(es) && e in ActiveEdges(es)
    requires SideOk(vs, MendAll(es), Out, outs, ActiveEdges(MendAll(es)))
    requires SideOk(vs, MendAll(es), In, ins, ActiveEdges(MendAll(es)))
    requires es[e].generation != 0
    ensures EdgeAgrees(vs, es, e)
  {
    hide SideOk, LinksAgree, StaleBack, InRange;
    MendKeeps(es);
    NodeAgrees(vs, MendAll(es), Out, outs, e);
    NodeAgrees(vs, MendAll(es), In, ins, e);
    EdgeUnmended(vs, es, e);
  }

  lemma EdgeUnmended(vs: seq<VertexRec>, es: seq<EdgeRec>, e: nat)
    requires |es| <= INVALID_INDEX && InRange(es) && StaleBack(es) && e in ActiveEdges(es)
    requires es[e].src < |vs| && es[e].dst < |vs|
    requires var r := MendAll(es)[e];
             && IsLink(es, r.outs.prev) && IsLink(es, r.outs.next) && IsLink(es, r.ins.prev) && IsLink(es, r.ins.next)
             && (r.ins.next < |es| ==> es[r.ins.next].active)
    requires LinksAgree(vs, MendAll(es), Out, e) && LinksAgree(vs, MendAll(es), In, e)
    ensures LinksAgree(vs, es, Out, e) && LinksAgree(vs, es, In, e)
  {
  }

  /** Mending touches neither next links nor endpoints nor the free list. */
  ghost predicate SameForward(es: seq<EdgeRec>, es0: seq<EdgeRec>)
  {
    && |es0| == |es|
    && forall i :: 0 <= i < |es| ==>
         && es0[i].active == es[i].active && es0[i].src == es[i].src && es0[i].dst == es[i].dst
         && es0[i].outs.next == es[i].outs.next && es0[i].ins.next == es[i].ins.next
  }

  lemma MendForward(es: seq<EdgeRec>)
    ensures SameForward(MendAll(es), es)
    ensures EdgeSlots(MendAll(es)) == EdgeSlots(es)
  {
  }

  lemma VertexPasses(vs: seq<VertexRec>, es: seq<EdgeRec>, es0: seq<EdgeRec>, v: nat, outs: seq<nat>, ins: seq<nat>)
    requires SameForward(es, es0) && |es| <= INVALID_INDEX && v in ActiveVertices(vs) && vs[v].generation != 0
    requires ListOk(v, vs[v], es, Out, outs) && Holds(outs, ActiveEdges(es))
    requires ListOk(v, vs[v], es, In, ins) && Holds(ins, ActiveEdges(es))
    ensures VertexAgrees(vs, es0, v)
  {
    ListWalks(vs[v], es, es0, Out, v, outs);
    ListWalks(vs[v], es, es0, In, v, ins);
  }

  lemma VerticesPass(p: Pools, sh: Shape, v: nat)
    requires Sized(p) && Sides(Mended(p), sh) && Tagged(Mended(p)) && v in ActiveVertices(p.vertices)
    ensures VertexAgrees(p.vertices, p.edges, v)
  {
    var es := Mended(p).edges;
    MendForward(p.edges);
    assert ListOk(v, p.vertices[v], es, Out, sh.outs[v]) && Holds(sh.outs[v], ActiveEdges(es));
    assert ListOk(v, p.vertices[v], es, In, sh.ins[v]) && Holds(sh.ins[v], ActiveEdges(es));
    assert Mended(p).vertices[v].generation != 0;
    VertexPasses(p.vertices, es, p.edges, v, sh.outs[v], sh.ins[v]);
  }

  lemma TotalsPass(p: Pools, sh: Shape)
    requires Sized(p) && Formed(Mended(p), sh)
    ensures DegreeTotal(p.vertices, Out, |p.vertices|) == p.edgeCount
    ensures DegreeTotal(p.vertices, In, |p.vertices|) == p.edgeCount
    ensures |ActiveVertices(p.vertices)| == p.vertexCount && |ActiveEdges(p.edges)| == p.edgeCount
  {
    MendKeeps(p.edges);
    CountsExact(Mended(p), sh);
    SideTotal(p.vertices, Mended(p).edges, Out, sh.outs);
    SideTotal(p.vertices, Mended(p).edges, In, sh.ins);
  }

  lemma Complete(p: Pools, sh: Shape)
    requires Sized(p) && Formed(Mended(p), sh) && StaleBack(p.edges)
    ensures Passes(p)
  {
    forall v | 0 <= v < |p.vertices| && p.vertices[v].active ensures VertexAgrees(p.vertices, p.edges, v) {
      VerticesPass(p, sh, v);
    }
    TotalsPass(p, sh);
    forall e | 0 <= e < |p.edges| && p.edges[e].active ensures EdgeAgrees(p.vertices, p.edges, e) {
      assert Mended(p).edges[e].active && Mended(p).edges[e].generation == p.edges[e].generation;
      EdgePasses(p.vertices, p.edges, sh.outs, sh.ins, e);
    }
    FreePasses(p, sh);
  }

  lemma SlotsPass(slots: seq<Slot>, head: nat, l: seq<nat>, count: nat)
    requires |slots| <= INVALID_INDEX && FreeOk(slots, head, l) && count + |l| == |slots|
    ensures var f := FreeLength(slots, head, |slots| + 1);
            f.Length? && Plus32(count, f.value) == |slots|
  {
    CoversLength(slots, head, l);
  }

  lemma FreePasses(p: Pools, sh: Shape)
    requires Sized(p)
    requires VertexFreeOk(p.vertices, p.vertexFree, sh.freeVertices)
    requires EdgeFreeOk(MendAll(p.edges), p.edgeFree, sh.freeEdges)
    requires p.vertexCount + |sh.freeVertices| == |p.vertices|
    requires p.edgeCount + |sh.freeEdges| == |p.edges|
    ensures FreeListsPass(p)
  {
    hide VertexFreeOk, EdgeFreeOk, InRange, FreeLength;
    VertexFreePasses(p.vertices, p.vertexFree, sh.freeVertices, p.vertexCount);
    EdgeFreePasses(MendAll(p.edges), p.edgeFree, sh.freeEdges, p.edgeCount);
    MendForward(p.edges);
  }

  lemma VertexFreePasses(vs: seq<VertexRec>, head: nat, l: seq<nat>, count: nat)
    requires |vs| <= INVALID_INDEX && VertexFreeOk(vs, head, l) && count + |l| == |vs|
    ensures var f := FreeLength(VertexSlots(vs), head, |vs| + 1);
            f.Length? && Plus32(count, f.value) == |vs|
  {
    assert FreeOk(VertexSlots(vs), head, l) by { VertexSlotsAgree(vs, head, l); }
    SlotsPass(VertexSlots(vs), head, l, count);
  }

  lemma EdgeFreePasses(es: seq<EdgeRec>, head: nat, l: seq<nat>, count: nat)
    requires |es| <= INVALID_INDEX && EdgeFreeOk(es, head, l) && count + |l| == |es|
    ensures var f := FreeLength(EdgeSlots(es), head, |es| + 1);
            f.Length? && Plus32(count, f.value) == |es|
  {
    assert FreeOk(EdgeSlots(es), head, l) by { EdgeSlotsAgree(es, head, l); }
    SlotsPass(EdgeSlots(es), head, l, count);
  }

  // --- Exactly ---------------------------------------------------------------

  ghost predicate WellFormed(p: Pools)
  {
    exists sh :: Formed(p, sh)
  }

  /** The self-check accepts exactly the pools that are well formed once in-prev links to
      retired slots are cut, provided those slots point back. */
  lemma PassesExactly(p: Pools)
    requires Sized(p)
    ensures Passes(p) <==> WellFormed(Mended(p)) && StaleBack(p.edges)
  {
    if Passes(p) { Sound(p); }
    if WellFormed(Mended(p)) && StaleBack(p.edges) {
      var sh :| Formed(Mended(p), sh);
      Complete(p, sh);
    }
  }

  /** So the pools are well formed exactly when they pass and no in-prev link names a
      retired slot. */
  lemma WellFormedExactly(p: Pools)
    requires Sized(p)
    ensures WellFormed(p) <==> Passes(p) && InPrevLive(p.edges)
  {
    PassesExactly(p);
    MendKeeps(p.edges);
    if WellFormed(p) {
      var sh :| Formed(p, sh);
      forall e | e in ActiveEdges(p.edges) && p.edges[e].ins.prev < |p.edges|
        ensures p.edges[p.edges[e].ins.prev].active
      {
        NodeAgrees(p.vertices, p.edges, In, sh.ins, e);
      }
    }
  }

  // --- A graph the self-check accepts although a prev link is wrong --------------

  /** One vertex with a self-loop in slot 1; slot 0 is retired, still points at slot 1
      through its in-next link, and slot 1's in-prev link names it. */
  function Deceptive(): Pools
  {
    Pools([VertexRec(Ends(1, 1, 1), Ends(1, 1, 1), 1, true)],
          [EdgeRec(0, 0, Links(INVALID_INDEX, INVALID_INDEX), Links(1, INVALID_INDEX), 2, false),
           EdgeRec(0, 0, Links(INVALID_INDEX, INVALID_INDEX), Links(INVALID_INDEX, 0), 1, true)],
          INVALID_INDEX, 0, 1, 1)
  }

  lemma DeceptivePasses()
    ensures Sized(Deceptive()) && Passes(Deceptive()) && !WellFormed(Deceptive())
  {
    var p := Deceptive();
    var sh := Shape([[1]], [[1]], [], [0]);
    var q := Mended(p);
    assert q.edges == [p.edges[0], p.edges[1].(ins := Links(INVALID_INDEX, INVALID_INDEX))];
    assert ActiveEdges(q.edges) == {1};
    assert NodeOk(q.edges, Out, 0, [1], 0) && NodeOk(q.edges, In, 0, [1], 0);
    assert ListOk(0, q.vertices[0], q.edges, Out, [1]) && ListOk(0, q.vertices[0], q.edges, In, [1]);
    assert Sits(q.edges, Out, [[1]], 1) && Sits(q.edges, In, [[1]], 1);
    assert Formed(q, sh);
    PassesExactly(p);
    assert 1 in ActiveEdges(p.edges) && p.edges[1].ins.prev == 0 && !p.edges[0].active;
    WellFormedExactly(p);
  }
}
