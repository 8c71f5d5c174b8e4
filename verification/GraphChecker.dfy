/** The self-check itself: loops over the pools that stop at the first failed test. */
module GraphChecker {
  import opened GraphPools
  import opened GraphStructure
  import opened GraphCheck
  import opened GraphCheckExact
  import opened GraphHalting

  /** Walks one chain against its recorded degree, counting in 32 bits. */
  method WalkChain(es: seq<EdgeRec>, side: Side, v: nat, ends: Ends) returns (ok: bool)
    requires |es| <= UINT32_MAX && ChainHalts(es, side, v, ends)
    ensures ok <==> WalkOk(es, side, v, ends.head, ends.degree)
  {
    hide Leaves;
    ghost var next, good, last := NextLinks(es, side), OwnEdges(es, side, v), 0;
    if ends.degree >= UINT32_MAX { last := FirstLeave(next, good, ends.head); }
    var e: nat, walked: nat := ends.head, 0;
    while e != INVALID_INDEX
      invariant walked <= ends.degree
      invariant WalkOk(es, side, v, e, ends.degree - walked) <==> WalkOk(es, side, v, ends.head, ends.degree)
      invariant ends.degree >= UINT32_MAX ==> walked <= last && e == Follow(next, ends.head, walked)
      decreases if ends.degree < UINT32_MAX then ends.degree - walked else last - walked
    {
      if e >= |es| || !es[e].active { return false; }
      if Owner(es[e], side) != v { return false; }
      ghost var was := walked;
      assert ends.degree >= UINT32_MAX ==> walked < last;
      walked := Increment(walked);
      if walked > ends.degree { return false; }
      if ends.degree >= UINT32_MAX { FollowNext(next, ends.head, was); }
      e := LinksOf(es[e], side).next;
    }
    ok := walked == ends.degree;
  }

  method CheckVertex(vs: seq<VertexRec>, es: seq<EdgeRec>, v: nat) returns (ok: bool)
    requires v < |vs| && |es| <= UINT32_MAX && (vs[v].generation != 0 ==> VertexHalts(vs, es, v))
    ensures ok <==> VertexAgrees(vs, es, v)
  {
    if vs[v].generation == 0 { return false; }
    var outOk := WalkChain(es, Out, v, vs[v].outs);
    if !outOk { return false; }
    var inOk := WalkChain(es, In, v, vs[v].ins);
    if !inOk { return false; }
    if (vs[v].outs.head == INVALID_INDEX) != (vs[v].outs.tail == INVALID_INDEX) { return false; }
    if (vs[v].ins.head == INVALID_INDEX) != (vs[v].ins.tail == INVALID_INDEX) { return false; }
    ok := true;
  }

  method CheckLinks(vs: seq<VertexRec>, es: seq<EdgeRec>, side: Side, e: nat) returns (ok: bool)
    requires e < |es| && Owner(es[e], side) < |vs|
    requires IsLink(es, LinksOf(es[e], side).prev) && IsLink(es, LinksOf(es[e], side).next)
    ensures ok <==> LinksAgree(vs, es, side, e)
  {
    var links, ends := LinksOf(es[e], side), EndsOf(vs[Owner(es[e], side)], side);
    if links.prev == INVALID_INDEX {
      if ends.head != e { return false; }
    } else if LinksOf(es[links.prev], side).next != e {
      return false;
    }
    if links.next == INVALID_INDEX {
      if ends.tail != e { return false; }
    } else if LinksOf(es[links.next], side).prev != e {
      return false;
    }
    ok := true;
  }

  method CheckEdge(vs: seq<VertexRec>, es: seq<EdgeRec>, e: nat) returns (ok: bool)
    requires e < |es| && es[e].active && InRange(es)
    ensures ok <==> EdgeAgrees(vs, es, e)
  {
    if es[e].generation == 0 { return false; }
    if es[e].src >= |vs| || es[e].dst >= |vs| { return false; }
    if !vs[es[e].src].active || !vs[es[e].dst].active { return false; }
    ok := CheckLinks(vs, es, Out, e);
    if !ok { return false; }
    ok := CheckLinks(vs, es, In, e);
  }

  lemma OneMoreVertex(vs: seq<VertexRec>, i: nat)
    requires i < |vs|
    ensures |ActiveVertices(vs[..i + 1])| == |ActiveVertices(vs[..i])| + if vs[i].active then 1 else 0
  {
    var a, b := ActiveVertices(vs[..i]), ActiveVertices(vs[..i + 1]);
    assert b == if vs[i].active then a + {i} else a;
  }

  lemma OneMoreEdge(es: seq<EdgeRec>, i: nat)
    requires i < |es|
    ensures |ActiveEdges(es[..i + 1])| == |ActiveEdges(es[..i])| + if es[i].active then 1 else 0
  {
    var a, b := ActiveEdges(es[..i]), ActiveEdges(es[..i + 1]);
    assert b == if es[i].active then a + {i} else a;
  }

  method CheckVertices(vs: seq<VertexRec>, es: seq<EdgeRec>) returns (ok: bool, active: nat, outTotal: nat, inTotal: nat)
    requires |es| <= UINT32_MAX && VerticesHalt(vs, es)
    ensures ok <==> VerticesAgree(vs, es)
    ensures ok ==> active == |ActiveVertices(vs)|
    ensures ok ==> outTotal == DegreeTotal(vs, Out, |vs|) && inTotal == DegreeTotal(vs, In, |vs|)
  {
    active, outTotal, inTotal := 0, 0, 0;
    for i := 0 to |vs|
      invariant active == |ActiveVertices(vs[..i])|
      invariant outTotal == DegreeTotal(vs, Out, i) && inTotal == DegreeTotal(vs, In, i)
      invariant forall v :: 0 <= v < i && vs[v].active ==> VertexAgrees(vs, es, v)
    {
      OneMoreVertex(vs, i);
      assert AgreeBefore(vs, es, i);
      if vs[i].active {
        active := active + 1;
        outTotal := Plus32(outTotal, vs[i].outs.degree);
        inTotal := Plus32(inTotal, vs[i].ins.degree);
        ok := CheckVertex(vs, es, i);
        if !ok { return; }
      }
    }
    assert vs[..|vs|] == vs;
    ok := true;
  }

  method CheckEdges(vs: seq<VertexRec>, es: seq<EdgeRec>) returns (ok: bool, active: nat)
    requires InRange(es)
    ensures ok <==> EdgesAgree(vs, es)
    ensures ok ==> active == |ActiveEdges(es)|
  {
    active := 0;
    for i := 0 to |es|
      invariant active == |ActiveEdges(es[..i])|
      invariant forall e :: 0 <= e < i && es[e].active ==> EdgeAgrees(vs, es, e)
    {
      OneMoreEdge(es, i);
      if es[i].active {
        active := active + 1;
        ok := CheckEdge(vs, es, i);
        if !ok { return; }
      }
    }
    assert es[..|es|] == es;
    ok := true;
  }

  /** Counts a free list without trusting it, in 32 bits. */
  method CountFree(slots: seq<Slot>, head: nat) returns (length: Length)
    requires |slots| <= UINT32_MAX && SlotsHalt(slots, head)
    ensures length == FreeLength(slots, head, |slots| + 1)
  {
    hide Leaves;
    ghost var next, good, last := NextSlots(slots), InactiveSlots(slots), 0;
    if |slots| == UINT32_MAX { last := FirstLeave(next, good, head); }
    var index: nat, seen: nat := head, 0;
    ghost var goal := FreeLength(slots, head, |slots| + 1);
    while index != INVALID_INDEX
      invariant seen <= |slots| + 1
      invariant var rest := FreeLength(slots, index, |slots| + 1 - seen);
                goal == if rest.Length? then Length(seen + rest.value) else Broken
      invariant |slots| == UINT32_MAX ==> seen <= last && index == Follow(next, head, seen)
      decreases |slots| + 1 - seen
    {
      if index >= |slots| || seen > |slots| { return Broken; }
      if slots[index].active { return Broken; }
      assert |slots| == UINT32_MAX ==> seen < last;
      if |slots| == UINT32_MAX { FollowNext(next, head, seen); }
      index := slots[index].next;
      seen := Increment(seen);
    }
    length := Length(seen);
  }

  /** The self-check. It accepts exactly the well-formed pools and those that differ from a
      well-formed one only by in-prev links of list heads that name retired slots pointing
      back. It ends on cyclic lists too, unless a loop it reaches counts up to a bound of
      2^32 - 1 along a cycle. */
  method IsValid(p: Pools, vertexCapacity: nat, edgeCapacity: nat, weighted: bool, weightCapacity: nat)
    returns (ok: bool)
    requires vertexCapacity <= UINT32_MAX && edgeCapacity <= UINT32_MAX && InRange(p.edges)
    requires (&& |p.vertices| <= vertexCapacity && |p.edges| <= edgeCapacity
              && (weighted && edgeCapacity > 0 ==> weightCapacity >= edgeCapacity)) ==> Halts(p)
    ensures ok <==>
              && |p.vertices| <= vertexCapacity && |p.edges| <= edgeCapacity
              && (weighted && edgeCapacity > 0 ==> weightCapacity >= edgeCapacity)
              && WellFormed(Mended(p)) && StaleBack(p.edges)
    ensures InPrevLive(p.edges) ==>
              (ok <==>
                && |p.vertices| <= vertexCapacity && |p.edges| <= edgeCapacity
                && (weighted && edgeCapacity > 0 ==> weightCapacity >= edgeCapacity)
                && WellFormed(p))
  {
    hide Halts, WellFormed, StaleBack, InPrevLive, Passes;
    if |p.vertices| > vertexCapacity || |p.edges| > edgeCapacity { return false; }
    if weighted && edgeCapacity > 0 && weightCapacity < edgeCapacity { return false; }
    PassesExactly(p);
    WellFormedExactly(p);
    ok := PoolsPass(p);
  }

  method PoolsPass(p: Pools) returns (ok: bool)
    requires InRange(p.edges) && |p.vertices| <= UINT32_MAX && |p.edges| <= UINT32_MAX && Halts(p)
    ensures ok <==> Passes(p)
  {
    hide FreeHalts, VerticesHalt, FreeListsPass;
    if p.vertexCount > |p.vertices| || p.edgeCount > |p.edges| { return false; }
    var verticesOk, activeVertices, outTotal, inTotal := CheckVertices(p.vertices, p.edges);
    if !verticesOk || activeVertices != p.vertexCount { return false; }
    if outTotal != p.edgeCount || inTotal != p.edgeCount { return false; }
    var edgesOk, activeEdges := CheckEdges(p.vertices, p.edges);
    if !edgesOk || activeEdges != p.edgeCount { return false; }
    ok := FreePass(p);
  }

  method FreePass(p: Pools) returns (ok: bool)
    requires |p.vertices| <= UINT32_MAX && |p.edges| <= UINT32_MAX && FreeHalts(p)
    ensures ok <==> FreeListsPass(p)
  {
    hide SlotsHalt;
    var freeVertices := CountFree(VertexSlots(p.vertices), p.vertexFree);
    if freeVertices.Broken? { return false; }
    var freeEdges := CountFree(EdgeSlots(p.edges), p.edgeFree);
    if freeEdges.Broken? { return false; }
    if Plus32(p.vertexCount, freeVertices.value) != |p.vertices| { return false; }
    if Plus32(p.edgeCount, freeEdges.value) != |p.edges| { return false; }
    ok := true;
  }
}
