/** The mutations of the topology as functions of the pools, each with the shape it leaves
    behind. The structural invariant is kept by every one of them. */
module GraphSteps {
  import opened GraphPools
  import opened GraphShape
  import opened GraphStructure
  import opened GraphLinking

  function RecordsOf(p: Pools): Records
  {
    Records(p.vertices, p.edges)
  }

  /** What surgery on both sides leaves alone, for every record. */
  ghost predicate KeepsSlots(r: Records, r': Records)
  {
    && |r'.vertices| == |r.vertices| && |r'.edges| == |r.edges|
    && (forall v :: 0 <= v < |r.vertices| ==>
          && r'.vertices[v].active == r.vertices[v].active
          && r'.vertices[v].generation == r.vertices[v].generation
          && (!r.vertices[v].active ==> r'.vertices[v] == r.vertices[v]))
    && (forall i :: 0 <= i < |r.edges| ==>
          && r'.edges[i].src == r.edges[i].src && r'.edges[i].dst == r.edges[i].dst
          && r'.edges[i].active == r.edges[i].active && r'.edges[i].generation == r.edges[i].generation
          && (!r.edges[i].active ==> r'.edges[i] == r.edges[i]))
  }

  lemma BothSides(r: Records, r1: Records, r2: Records)
    requires KeepsRest(r, r1, Out) && KeepsRest(r1, r2, In)
    ensures KeepsSlots(r, r2)
  {
  }

  lemma VertexFreeKept(r: Records, r': Records, head: nat, l: seq<nat>)
    requires KeepsSlots(r, r') && VertexFreeOk(r.vertices, head, l)
    ensures VertexFreeOk(r'.vertices, head, l)
  {
  }

  lemma EdgeFreeKept(r: Records, r': Records, head: nat, l: seq<nat>)
    requires KeepsSlots(r, r') && EdgeFreeOk(r.edges, head, l)
    ensures EdgeFreeOk(r'.edges, head, l)
  {
  }

  lemma ActiveKept(r: Records, r': Records)
    requires KeepsSlots(r, r')
    ensures ActiveVertices(r'.vertices) == ActiveVertices(r.vertices)
    ensures ActiveEdges(r'.edges) == ActiveEdges(r.edges)
  {
  }

  lemma SideActiveKept(r: Records, r': Records, side: Side)
    requires KeepsRest(r, r', side)
    ensures ActiveEdges(r'.edges) == ActiveEdges(r.edges)
  {
  }

  // --- Adding a vertex -------------------------------------------------------

  /** A recycled slot keeps the generation its last retirement left; a slot beyond the
      high-water mark starts at 1. */
  function AddVertex(p: Pools): Pools
    requires p.vertexFree == INVALID_INDEX || p.vertexFree < |p.vertices|
  {
    if p.vertexFree != INVALID_INDEX then
      var i := p.vertexFree;
      p.(vertices := p.vertices[i := VertexRec(NoEnds, NoEnds, p.vertices[i].generation, true)],
         vertexFree := p.vertices[i].outs.head, vertexCount := p.vertexCount + 1)
    else
      p.(vertices := p.vertices + [VertexRec(NoEnds, NoEnds, 1, true)], vertexCount := p.vertexCount + 1)
  }

  function AddedVertex(p: Pools): nat
  {
    if p.vertexFree != INVALID_INDEX then p.vertexFree else |p.vertices|
  }

  function AddVertexShape(p: Pools, sh: Shape): Shape
    requires sh.freeVertices != [] || p.vertexFree == INVALID_INDEX
  {
    if p.vertexFree != INVALID_INDEX then sh.(freeVertices := sh.freeVertices[1..])
    else sh.(outs := sh.outs + [[]], ins := sh.ins + [[]])
  }

  /** Room for one more slot, recycled or new. */
  predicate HasVertexSlot(p: Pools)
  {
    p.vertexFree != INVALID_INDEX || |p.vertices| < MAX_CAPACITY
  }

  lemma AddVertexSide(vs: seq<VertexRec>, vs': seq<VertexRec>, es: seq<EdgeRec>, side: Side,
                      lists: Lists, lists': Lists, members: set<nat>, i: nat)
    requires SideOk(vs, es, side, lists, members)
    requires i < |vs'| && vs'[i].active && EndsOf(vs'[i], side) == NoEnds
    requires (i < |vs| && !vs[i].active && |vs'| == |vs| && lists' == lists)
             || (i == |vs| && |vs'| == |vs| + 1 && lists' == lists + [[]])
    requires forall v :: 0 <= v < |vs| && v != i ==> vs'[v] == vs[v]
    ensures SideOk(vs', es, side, lists', members)
  {
    forall v | 0 <= v < |vs'| ensures ListOk(v, vs'[v], es, side, lists'[v]) && Holds(lists'[v], members) {
      if v < |vs| { assert ListOk(v, vs[v], es, side, lists[v]) && Holds(lists[v], members); }
    }
    forall e | e in members ensures Sits(es, side, lists', e) { assert Sits(es, side, lists, e); }
  }

  lemma AddVertexOk(p: Pools, sh: Shape)
    requires Structure(p, sh) && HasVertexSlot(p)
    requires p.vertexFree != INVALID_INDEX ==> p.vertexFree < |p.vertices| && p.vertices[p.vertexFree].generation != 0
    ensures p.vertexFree == INVALID_INDEX || p.vertexFree < |p.vertices|
    ensures sh.freeVertices != [] || p.vertexFree == INVALID_INDEX
    ensures Structure(AddVertex(p), AddVertexShape(p, sh))
  {
    var i := AddedVertex(p);
    var p', sh' := AddVertex(p), AddVertexShape(p, sh);
    AddVertexSide(p.vertices, p'.vertices, p.edges, Out, sh.outs, sh'.outs, ActiveEdges(p.edges), i);
    AddVertexSide(p.vertices, p'.vertices, p.edges, In, sh.ins, sh'.ins, ActiveEdges(p.edges), i);
    AddVertexFree(p, sh);
  }

  lemma AddVertexFree(p: Pools, sh: Shape)
    requires VertexFreeOk(p.vertices, p.vertexFree, sh.freeVertices) && |p.vertices| <= MAX_CAPACITY
    requires HasVertexSlot(p)
    ensures p.vertexFree == INVALID_INDEX || p.vertexFree < |p.vertices|
    ensures sh.freeVertices != [] || p.vertexFree == INVALID_INDEX
    ensures VertexFreeOk(AddVertex(p).vertices, AddVertex(p).vertexFree, AddVertexShape(p, sh).freeVertices)
    ensures |AddVertexShape(p, sh).freeVertices| == if p.vertexFree == INVALID_INDEX then |sh.freeVertices| else |sh.freeVertices| - 1
  {
    var l := sh.freeVertices;
    if p.vertexFree != INVALID_INDEX {
      var l' := l[1..];
      var vs' := AddVertex(p).vertices;
      forall k | 0 <= k < |l'|
        ensures l'[k] < |vs'| && !vs'[l'[k]].active && vs'[l'[k]].outs.head == NextIn(l', k)
      {
        assert l'[k] == l[k + 1];
      }
      forall j | 0 <= j < |vs'| && !vs'[j].active ensures j in l' {
        assert j in l && j != l[0];
      }
    }
  }

  // --- Adding an edge --------------------------------------------------------

  predicate HasEdgeSlot(p: Pools)
  {
    p.edgeFree != INVALID_INDEX || |p.edges| < MAX_CAPACITY
  }

  function AddedEdge(p: Pools): nat
  {
    if p.edgeFree != INVALID_INDEX then p.edgeFree else |p.edges|
  }

  const NoLinks := Links(INVALID_INDEX, INVALID_INDEX)

  /** The pools with an edge slot taken and its record filled in, not yet linked. */
  function TakeEdge(p: Pools, src: nat, dst: nat): Pools
    requires p.edgeFree == INVALID_INDEX || p.edgeFree < |p.edges|
  {
    if p.edgeFree != INVALID_INDEX then
      var i := p.edgeFree;
      p.(edges := p.edges[i := p.edges[i].(src := src, dst := dst, active := true)],
         edgeFree := p.edges[i].outs.next)
    else
      p.(edges := p.edges + [EdgeRec(src, dst, NoLinks, NoLinks, 1, true)])
  }

  function TakeEdgeFree(p: Pools, sh: Shape): seq<nat>
    requires sh.freeEdges != [] || p.edgeFree == INVALID_INDEX
  {
    if p.edgeFree != INVALID_INDEX then sh.freeEdges[1..] else sh.freeEdges
  }

  lemma TakeEdgeOk(p: Pools, sh: Shape, src: nat, dst: nat)
    requires EdgeFreeOk(p.edges, p.edgeFree, sh.freeEdges) && |p.edges| <= MAX_CAPACITY && HasEdgeSlot(p)
    ensures p.edgeFree == INVALID_INDEX || p.edgeFree < |p.edges|
    ensures sh.freeEdges != [] || p.edgeFree == INVALID_INDEX
    ensures var q, e := TakeEdge(p, src, dst), AddedEdge(p);
            && |q.edges| <= MAX_CAPACITY && e < |q.edges| && e !in ActiveEdges(p.edges)
            && ActiveEdges(q.edges) == ActiveEdges(p.edges) + {e}
            && (forall i :: 0 <= i < |p.edges| && i != e ==> q.edges[i] == p.edges[i])
            && EdgeFreeOk(q.edges, q.edgeFree, TakeEdgeFree(p, sh))
            && |q.edges| - |TakeEdgeFree(p, sh)| == |p.edges| - |sh.freeEdges| + 1
  {
    if p.edgeFree != INVALID_INDEX {
      TakeFree(p.edges, TakeEdge(p, src, dst).edges, p.edgeFree, sh.freeEdges);
    } else {
      TakeNew(p.edges, EdgeRec(src, dst, NoLinks, NoLinks, 1, true), sh.freeEdges);
    }
    Taken(p.edges, TakeEdge(p, src, dst).edges, AddedEdge(p));
  }

  lemma Taken(es: seq<EdgeRec>, es': seq<EdgeRec>, e: nat)
    requires e < |es'| && es'[e].active && |es| <= |es'| <= |es| + 1 && (e < |es| ==> |es'| == |es| && !es[e].active)
    requires forall i :: 0 <= i < |es| && i != e ==> es'[i] == es[i]
    ensures e !in ActiveEdges(es) && ActiveEdges(es') == ActiveEdges(es) + {e}
  {
  }

  /** The head of the free list is taken: the rest is the free list. */
  lemma TakeFree(es: seq<EdgeRec>, es': seq<EdgeRec>, head: nat, l: seq<nat>)
    requires EdgeFreeOk(es, head, l) && head != INVALID_INDEX && |es'| == |es|
    requires head < |es| ==> es'[head].active && forall i :: 0 <= i < |es| && i != head ==> es'[i] == es[i]
    ensures l != [] && head < |es| && !es[head].active && EdgeFreeOk(es', es[head].outs.next, l[1..])
  {
    var l' := l[1..];
    forall k | 0 <= k < |l'|
      ensures l'[k] < |es'| && !es'[l'[k]].active && es'[l'[k]].outs.next == NextIn(l', k)
    {
      assert l'[k] == l[k + 1];
    }
    forall j | 0 <= j < |es'| && !es'[j].active ensures j in l' {
      assert j in l && j != l[0];
    }
  }

  lemma TakeNew(es: seq<EdgeRec>, rec: EdgeRec, l: seq<nat>)
    requires EdgeFreeOk(es, INVALID_INDEX, l) && rec.active
    ensures EdgeFreeOk(es + [rec], INVALID_INDEX, l)
  {
  }

  /** Both sides of linking edge e, whose record is filled in and active. */
  lemma LinkBoth(r: Records, outs: Lists, ins: Lists, members: set<nat>, e: nat)
    requires SideIs(r, Out, outs, members) && SideIs(r, In, ins, members) && |r.edges| <= MAX_CAPACITY
    requires e in ActiveEdges(r.edges) && e !in members && ActiveEdges(r.edges) == members + {e}
    requires r.edges[e].src < |r.vertices| && r.vertices[r.edges[e].src].active
    requires r.edges[e].dst < |r.vertices| && r.vertices[r.edges[e].dst].active
    ensures CanAppend(r, Out, e) && CanAppend(Append(r, Out, e), In, e)
    ensures var r2 := Append(Append(r, Out, e), In, e);
            var s, d := r.edges[e].src, r.edges[e].dst;
            && KeepsSlots(r, r2)
            && SideIs(r2, Out, outs[s := outs[s] + [e]], members + {e})
            && SideIs(r2, In, ins[d := ins[d] + [e]], members + {e})
  {
    AppendSide(r, Out, outs, members, e);
    var r1 := Append(r, Out, e);
    OtherSide(r, r1, Out, ins, members);
    SideActiveKept(r, r1, Out);
    AppendSide(r1, In, ins, members, e);
    OtherSide(r1, Append(r1, In, e), In, outs[r.edges[e].src := outs[r.edges[e].src] + [e]], members + {e});
    BothSides(r, r1, Append(r1, In, e));
  }

  predicate CanLink(r: Records, e: nat)
  {
    CanAppend(r, Out, e) && CanAppend(Append(r, Out, e), In, e)
  }

  function Link(r: Records, e: nat): Records
    requires CanLink(r, e)
  {
    Append(Append(r, Out, e), In, e)
  }

  function AddEdgeShape(p: Pools, sh: Shape, src: nat, dst: nat): Shape
    requires sh.freeEdges != [] || p.edgeFree == INVALID_INDEX
    requires src < |sh.outs| && dst < |sh.ins|
  {
    var e := AddedEdge(p);
    sh.(outs := sh.outs[src := sh.outs[src] + [e]], ins := sh.ins[dst := sh.ins[dst] + [e]],
        freeEdges := TakeEdgeFree(p, sh))
  }

  predicate CanAddEdge(p: Pools, src: nat, dst: nat)
  {
    && (p.edgeFree == INVALID_INDEX || p.edgeFree < |p.edges|)
    && CanLink(RecordsOf(TakeEdge(p, src, dst)), AddedEdge(p))
  }

  function AddEdge(p: Pools, src: nat, dst: nat): Pools
    requires CanAddEdge(p, src, dst)
  {
    var q := TakeEdge(p, src, dst);
    var r := Link(RecordsOf(q), AddedEdge(p));
    q.(vertices := r.vertices, edges := r.edges, edgeCount := p.edgeCount + 1)
  }

  ghost predicate EdgeSlotTagged(p: Pools)
  {
    p.edgeFree < |p.edges| ==> p.edges[p.edgeFree].generation != 0
  }

  /** The two lists that gain the new edge, and all the others. */
  lemma AddEdgeSides(p: Pools, sh: Shape, src: nat, dst: nat)
    requires |p.edges| <= MAX_CAPACITY && Sides(p, sh) && HasEdgeSlot(p)
    requires EdgeFreeOk(p.edges, p.edgeFree, sh.freeEdges)
    requires src in ActiveVertices(p.vertices) && dst in ActiveVertices(p.vertices)
    ensures CanAddEdge(p, src, dst) && src < |sh.outs| && dst < |sh.ins|
    ensures sh.freeEdges != [] || p.edgeFree == INVALID_INDEX
    ensures Sides(AddEdge(p, src, dst), AddEdgeShape(p, sh, src, dst))
    ensures var r := RecordsOf(TakeEdge(p, src, dst)); KeepsSlots(r, Link(r, AddedEdge(p)))
  {
    var e, members := AddedEdge(p), ActiveEdges(p.edges);
    TakeEdgeOk(p, sh, src, dst);
    var q := TakeEdge(p, src, dst);
    TakenSide(p, q, Out, sh.outs, members, e);
    TakenSide(p, q, In, sh.ins, members, e);
    LinkBoth(RecordsOf(q), sh.outs, sh.ins, members, e);
    ActiveKept(RecordsOf(q), Link(RecordsOf(q), e));
  }

  lemma AddEdgeRest(p: Pools, sh: Shape, src: nat, dst: nat)
    requires |p.edges| <= MAX_CAPACITY && Tagged(p) && HasEdgeSlot(p) && EdgeSlotTagged(p)
    requires VertexFreeOk(p.vertices, p.vertexFree, sh.freeVertices)
    requires EdgeFreeOk(p.edges, p.edgeFree, sh.freeEdges)
    requires sh.freeEdges != [] || p.edgeFree == INVALID_INDEX
    requires CanAddEdge(p, src, dst)
    requires var r := RecordsOf(TakeEdge(p, src, dst)); KeepsSlots(r, Link(r, AddedEdge(p)))
    ensures var p' := AddEdge(p, src, dst);
            && |p'.edges| <= MAX_CAPACITY && Tagged(p') && KeepsOthers(p, p', AddedEdge(p))
            && VertexFreeOk(p'.vertices, p'.vertexFree, sh.freeVertices)
            && EdgeFreeOk(p'.edges, p'.edgeFree, TakeEdgeFree(p, sh))
            && |p'.edges| - |TakeEdgeFree(p, sh)| == |p.edges| - |sh.freeEdges| + 1
            && ActiveEdges(p'.edges) == ActiveEdges(p.edges) + {AddedEdge(p)}
  {
    TakeEdgeOk(p, sh, src, dst);
    var q, e := TakeEdge(p, src, dst), AddedEdge(p);
    var r := RecordsOf(q);
    ActiveKept(r, Link(r, e));
    VertexFreeKept(r, Link(r, e), p.vertexFree, sh.freeVertices);
    EdgeFreeKept(r, Link(r, e), q.edgeFree, TakeEdgeFree(p, sh));
    LinkedOthers(p, q, e);
    LinkedTagged(p, src, dst);
  }

  lemma LinkedTagged(p: Pools, src: nat, dst: nat)
    requires Tagged(p) && EdgeSlotTagged(p) && CanAddEdge(p, src, dst)
    requires var r := RecordsOf(TakeEdge(p, src, dst)); KeepsSlots(r, Link(r, AddedEdge(p)))
    ensures Tagged(AddEdge(p, src, dst))
  {
  }

  lemma AddEdgeOk(p: Pools, sh: Shape, src: nat, dst: nat)
    requires Structure(p, sh) && HasEdgeSlot(p) && EdgeSlotTagged(p)
    requires src in ActiveVertices(p.vertices) && dst in ActiveVertices(p.vertices)
    ensures CanAddEdge(p, src, dst) && src < |sh.outs| && dst < |sh.ins|
    ensures sh.freeEdges != [] || p.edgeFree == INVALID_INDEX
    ensures Structure(AddEdge(p, src, dst), AddEdgeShape(p, sh, src, dst))
    ensures KeepsOthers(p, AddEdge(p, src, dst), AddedEdge(p))
    ensures ActiveEdges(AddEdge(p, src, dst).edges) == ActiveEdges(p.edges) + {AddedEdge(p)}
  {
    AddEdgeSides(p, sh, src, dst);
    AddEdgeRest(p, sh, src, dst);
  }

  lemma LinkedOthers(p: Pools, q: Pools, e: nat)
    requires q.vertices == p.vertices && |q.edges| >= |p.edges| && e < |q.edges|
    requires forall i :: 0 <= i < |p.edges| && i != e ==> q.edges[i] == p.edges[i]
    requires CanLink(RecordsOf(q), e) && KeepsSlots(RecordsOf(q), Link(RecordsOf(q), e))
    ensures KeepsOthers(p, q.(vertices := Link(RecordsOf(q), e).vertices, edges := Link(RecordsOf(q), e).edges), e)
  {
  }

  lemma TakenSide(p: Pools, q: Pools, side: Side, lists: Lists, members: set<nat>, e: nat)
    requires SideOk(p.vertices, p.edges, side, lists, members) && e !in members
    requires q.vertices == p.vertices && |q.edges| >= |p.edges|
    requires forall i :: 0 <= i < |p.edges| && i != e ==> q.edges[i] == p.edges[i]
    ensures SideIs(RecordsOf(q), side, lists, members)
  {
    forall x | x in members ensures x < |p.edges| { assert Sits(p.edges, side, lists, x); }
    SideFrame(p.vertices, p.edges, q.vertices, q.edges, side, lists, members);
  }

  /** Apart from slot e of the edge pool, liveness, generations and endpoints stand. */
  ghost predicate KeepsOthers(p: Pools, p': Pools, e: nat)
  {
    && |p'.vertices| == |p.vertices| && |p'.edges| >= |p.edges|
    && (forall v :: 0 <= v < |p.vertices| ==>
          p'.vertices[v].active == p.vertices[v].active && p'.vertices[v].generation == p.vertices[v].generation)
    && (forall i :: 0 <= i < |p.edges| && i != e ==>
          && p'.edges[i].active == p.edges[i].active && p'.edges[i].generation == p.edges[i].generation
          && p'.edges[i].src == p.edges[i].src && p'.edges[i].dst == p.edges[i].dst)
  }

  // --- Retiring an edge ------------------------------------------------------

  function IndexOf(l: seq<nat>, e: nat): (k: nat)
    requires e in l
    ensures k < |l| && l[k] == e
  {
    if l[0] == e then 0 else 1 + IndexOf(l[1..], e)
  }

  /** A list without edge e. */
  function Drop(l: seq<nat>, e: nat): seq<nat>
  {
    if e in l then Without(l, IndexOf(l, e)) else l
  }

  predicate CanUnlinkBoth(r: Records, e: nat)
  {
    CanUnlink(r, Out, e) && CanUnlink(Unlink(r, Out, e), In, e)
  }

  function UnlinkBoth(r: Records, e: nat): Records
    requires CanUnlinkBoth(r, e)
  {
    Unlink(Unlink(r, Out, e), In, e)
  }

  lemma UnlinkBothOk(r: Records, outs: Lists, ins: Lists, members: set<nat>, e: nat)
    requires SideIs(r, Out, outs, members) && SideIs(r, In, ins, members) && |r.edges| <= MAX_CAPACITY
    requires members == ActiveEdges(r.edges) && e in members
    ensures CanUnlinkBoth(r, e)
    ensures var r2 := UnlinkBoth(r, e);
            var s, d := r.edges[e].src, r.edges[e].dst;
            && s < |r.vertices| && d < |r.vertices| && |outs| == |ins| == |r.vertices|
            && KeepsSlots(r, r2)
            && SideIs(r2, Out, outs[s := Drop(outs[s], e)], members - {e})
            && SideIs(r2, In, ins[d := Drop(ins[d], e)], members - {e})
  {
    var s, d := r.edges[e].src, r.edges[e].dst;
    assert Sits(r.edges, Out, outs, e) && Sits(r.edges, In, ins, e);
    UnlinkSide(r, Out, outs, members, e, IndexOf(outs[s], e));
    var r1 := Unlink(r, Out, e);
    OtherSide(r, r1, Out, ins, members);
    SideActiveKept(r, r1, Out);
    UnlinkSide(r1, In, ins, members, e, IndexOf(ins[d], e));
    OtherSide(r1, Unlink(r1, In, e), In, outs[s := Drop(outs[s], e)], members - {e});
    BothSides(r, r1, UnlinkBoth(r, e));
  }

  predicate CanRelease(p: Pools, e: nat)
  {
    CanUnlinkBoth(RecordsOf(p), e)
  }

  /** Unlink edge e, bump its generation and push its slot on the free list. */
  function Release(p: Pools, e: nat): Pools
    requires CanRelease(p, e)
  {
    var r := UnlinkBoth(RecordsOf(p), e);
    var rec := r.edges[e];
    p.(vertices := r.vertices,
       edges := r.edges[e := rec.(active := false, generation := Bump(rec.generation),
                                  outs := rec.outs.(next := p.edgeFree))],
       edgeFree := e, edgeCount := Decrement(p.edgeCount))
  }

  function ReleaseShape(p: Pools, sh: Shape, e: nat): Shape
    requires e < |p.edges| && p.edges[e].src < |sh.outs| && p.edges[e].dst < |sh.ins|
  {
    var s, d := p.edges[e].src, p.edges[e].dst;
    sh.(outs := sh.outs[s := Drop(sh.outs[s], e)], ins := sh.ins[d := Drop(sh.ins[d], e)],
        freeEdges := [e] + sh.freeEdges)
  }

  /** What a release leaves of the other slots. */
  lemma ReleaseKeeps(p: Pools, e: nat)
    requires CanRelease(p, e) && KeepsSlots(RecordsOf(p), UnlinkBoth(RecordsOf(p), e))
    ensures var p' := Release(p, e);
            && KeepsOthers(p, p', e) && |p'.edges| == |p.edges|
            && !p'.edges[e].active && p'.edges[e].generation == Bump(p.edges[e].generation)
            && ActiveEdges(p'.edges) == ActiveEdges(p.edges) - {e}
  {
  }

  lemma ReleaseSides(p: Pools, sh: Shape, e: nat)
    requires |p.edges| <= MAX_CAPACITY && Sides(p, sh) && e in ActiveEdges(p.edges)
    ensures CanRelease(p, e) && p.edges[e].src < |sh.outs| && p.edges[e].dst < |sh.ins|
    ensures Sides(Release(p, e), ReleaseShape(p, sh, e))
    ensures KeepsSlots(RecordsOf(p), UnlinkBoth(RecordsOf(p), e))
  {
    var r, members := RecordsOf(p), ActiveEdges(p.edges);
    UnlinkBothOk(r, sh.outs, sh.ins, members, e);
    ReleaseKeeps(p, e);
    var s, d := p.edges[e].src, p.edges[e].dst;
    RetiredSide(p, Out, sh.outs[s := Drop(sh.outs[s], e)], members - {e}, e);
    RetiredSide(p, In, sh.ins[d := Drop(sh.ins[d], e)], members - {e}, e);
  }

  lemma ReleaseRest(p: Pools, sh: Shape, e: nat)
    requires CanRelease(p, e) && p.edges[e].active && KeepsSlots(RecordsOf(p), UnlinkBoth(RecordsOf(p), e))
    requires VertexFreeOk(p.vertices, p.vertexFree, sh.freeVertices)
    requires EdgeFreeOk(p.edges, p.edgeFree, sh.freeEdges) && Tagged(p)
    ensures var p' := Release(p, e);
            && VertexFreeOk(p'.vertices, p'.vertexFree, sh.freeVertices)
            && EdgeFreeOk(p'.edges, p'.edgeFree, [e] + sh.freeEdges) && Tagged(p')
  {
    var r, p' := RecordsOf(p), Release(p, e);
    var r2 := UnlinkBoth(r, e);
    VertexFreeKept(r, r2, p.vertexFree, sh.freeVertices);
    EdgeFreeKept(r, r2, p.edgeFree, sh.freeEdges);
    RetiredFree(r2.edges, p'.edges, p.edgeFree, sh.freeEdges, e);
    ReleaseKeeps(p, e);
  }

  lemma ReleaseOk(p: Pools, sh: Shape, e: nat)
    requires Structure(p, sh) && e in ActiveEdges(p.edges)
    ensures CanRelease(p, e) && p.edges[e].src < |sh.outs| && p.edges[e].dst < |sh.ins|
    ensures Structure(Release(p, e), ReleaseShape(p, sh, e))
    ensures ActiveEdges(Release(p, e).edges) == ActiveEdges(p.edges) - {e}
    ensures KeepsOthers(p, Release(p, e), e) && |Release(p, e).edges| == |p.edges|
    ensures Release(p, e).edges[e].generation == Bump(p.edges[e].generation)
  {
    ReleaseSides(p, sh, e);
    ReleaseKeeps(p, e);
    ReleaseRest(p, sh, e);
    SomeEdge(p, sh, e);
  }

  lemma SomeEdge(p: Pools, sh: Shape, e: nat)
    requires Structure(p, sh) && e in ActiveEdges(p.edges)
    ensures p.edgeCount > 0
  {
    CountsExact(p, sh);
    assert |ActiveEdges(p.edges)| > 0;
  }

  lemma RetiredSide(p: Pools, side: Side, lists: Lists, members: set<nat>, e: nat)
    requires CanRelease(p, e) && SideIs(UnlinkBoth(RecordsOf(p), e), side, lists, members) && e !in members
    ensures SideOk(Release(p, e).vertices, Release(p, e).edges, side, lists, members)
  {
    var r, p' := UnlinkBoth(RecordsOf(p), e), Release(p, e);
    forall x | x in members ensures x < |r.edges| { assert Sits(r.edges, side, lists, x); }
    SideFrame(r.vertices, r.edges, p'.vertices, p'.edges, side, lists, members);
  }

  lemma RetiredFree(es: seq<EdgeRec>, es': seq<EdgeRec>, head: nat, l: seq<nat>, e: nat)
    requires EdgeFreeOk(es, head, l) && e < |es| && es[e].active && |es'| == |es|
    requires forall i :: 0 <= i < |es| && i != e ==> es'[i] == es[i]
    requires !es'[e].active && es'[e].outs.next == head
    ensures EdgeFreeOk(es', e, [e] + l)
  {
    var l' := [e] + l;
    assert forall k :: 0 < k < |l'| ==> l'[k] == l[k - 1];
    assert e !in l;
    forall k | 0 <= k < |l'|
      ensures l'[k] < |es'| && !es'[l'[k]].active && es'[l'[k]].outs.next == NextIn(l', k)
    {
      if k > 0 { assert l[k - 1] < |es| && es[l[k - 1]].outs.next == NextIn(l, k - 1); }
    }
    forall i | 0 <= i < |es'| && !es'[i].active ensures i in l' {
      if i != e {
        var j :| 0 <= j < |l| && l[j] == i;
        assert l'[j + 1] == i;
      }
    }
  }

  // --- Retiring a vertex -----------------------------------------------------

  /** Retire vertex v, whose lists are empty, and push its slot on the free list. */
  function Retire(p: Pools, v: nat): Pools
    requires v < |p.vertices|
  {
    var rec := p.vertices[v];
    p.(vertices := p.vertices[v := rec.(active := false, generation := Bump(rec.generation),
                                        outs := rec.outs.(head := p.vertexFree))],
       vertexFree := v, vertexCount := Decrement(p.vertexCount))
  }

  function RetireShape(sh: Shape, v: nat): Shape
  {
    sh.(freeVertices := [v] + sh.freeVertices)
  }

  lemma RetireSide(p: Pools, side: Side, lists: Lists, members: set<nat>, v: nat)
    requires SideOk(p.vertices, p.edges, side, lists, members) && v < |p.vertices| && lists[v] == []
    ensures SideOk(Retire(p, v).vertices, p.edges, side, lists, members)
  {
    var vs' := Retire(p, v).vertices;
    forall u | 0 <= u < |vs'| ensures ListOk(u, vs'[u], p.edges, side, lists[u]) && Holds(lists[u], members) {
      assert ListOk(u, p.vertices[u], p.edges, side, lists[u]) && Holds(lists[u], members);
    }
  }

  lemma RetireFree(vs: seq<VertexRec>, vs': seq<VertexRec>, head: nat, l: seq<nat>, v: nat)
    requires VertexFreeOk(vs, head, l) && v < |vs| && vs[v].active && |vs'| == |vs|
    requires forall i :: 0 <= i < |vs| && i != v ==> vs'[i] == vs[i]
    requires !vs'[v].active && vs'[v].outs.head == head
    ensures VertexFreeOk(vs', v, [v] + l)
  {
    var l' := [v] + l;
    assert forall k :: 0 < k < |l'| ==> l'[k] == l[k - 1];
    assert v !in l;
    forall k | 0 <= k < |l'|
      ensures l'[k] < |vs'| && !vs'[l'[k]].active && vs'[l'[k]].outs.head == NextIn(l', k)
    {
      if k > 0 { assert l[k - 1] < |vs| && vs[l[k - 1]].outs.head == NextIn(l, k - 1); }
    }
    forall i | 0 <= i < |vs'| && !vs'[i].active ensures i in l' {
      if i != v {
        var j :| 0 <= j < |l| && l[j] == i;
        assert l'[j + 1] == i;
      }
    }
  }

  lemma RetireOk(p: Pools, sh: Shape, v: nat)
    requires Structure(p, sh) && v in ActiveVertices(p.vertices)
    requires sh.outs[v] == [] && sh.ins[v] == []
    ensures Structure(Retire(p, v), RetireShape(sh, v))
    ensures ActiveVertices(Retire(p, v).vertices) == ActiveVertices(p.vertices) - {v}
  {
    RetireSide(p, Out, sh.outs, ActiveEdges(p.edges), v);
    RetireSide(p, In, sh.ins, ActiveEdges(p.edges), v);
    RetireRest(p, sh.freeVertices, v);
    SomeVertex(p, sh, v);
  }

  lemma SomeVertex(p: Pools, sh: Shape, v: nat)
    requires Structure(p, sh) && v in ActiveVertices(p.vertices)
    ensures p.vertexCount > 0
  {
    CountsExact(p, sh);
    assert |ActiveVertices(p.vertices)| > 0;
  }

  lemma RetireRest(p: Pools, l: seq<nat>, v: nat)
    requires VertexFreeOk(p.vertices, p.vertexFree, l) && v in ActiveVertices(p.vertices) && Tagged(p)
    ensures var p' := Retire(p, v);
            && VertexFreeOk(p'.vertices, p'.vertexFree, [v] + l) && Tagged(p')
            && ActiveVertices(p'.vertices) == ActiveVertices(p.vertices) - {v}
  {
    RetireFree(p.vertices, Retire(p, v).vertices, p.vertexFree, l, v);
  }

  // --- Dropping everything ---------------------------------------------------

  function NextSlot(i: nat, n: nat): nat
  {
    if i + 1 == n then INVALID_INDEX else i + 1
  }

  function ClearedEdge(e: EdgeRec, i: nat, n: nat): EdgeRec
  {
    e.(generation := if e.active then Bump(e.generation) else e.generation, active := false,
       outs := e.outs.(next := NextSlot(i, n)))
  }

  function ClearedVertex(v: VertexRec, i: nat, n: nat): VertexRec
  {
    VertexRec(Ends(NextSlot(i, n), INVALID_INDEX, 0), NoEnds,
              if v.active then Bump(v.generation) else v.generation, false)
  }

  function FirstSlot(n: nat): nat
  {
    if n == 0 then INVALID_INDEX else 0
  }

  /** Every slot inactive and threaded on its free list in slot order. */
  ghost predicate IsCleared(p: Pools, p': Pools)
  {
    && |p'.vertices| == |p.vertices| && |p'.edges| == |p.edges|
    && (forall i :: 0 <= i < |p.vertices| ==> p'.vertices[i] == ClearedVertex(p.vertices[i], i, |p.vertices|))
    && (forall i :: 0 <= i < |p.edges| ==> p'.edges[i] == ClearedEdge(p.edges[i], i, |p.edges|))
    && p'.vertexFree == FirstSlot(|p.vertices|) && p'.edgeFree == FirstSlot(|p.edges|)
    && p'.vertexCount == 0 && p'.edgeCount == 0
  }

  function Slots(n: nat): (l: seq<nat>)
    ensures |l| == n && forall k :: 0 <= k < n ==> l[k] == k
  {
    seq(n, (i: nat) => i)
  }

  function ClearedShape(p: Pools): Shape
  {
    var none := seq(|p.vertices|, _ => []);
    Shape(none, none, Slots(|p.vertices|), Slots(|p.edges|))
  }

  lemma ClearOk(p: Pools, p': Pools)
    requires |p.vertices| <= MAX_CAPACITY && |p.edges| <= MAX_CAPACITY && IsCleared(p, p')
    ensures Structure(p', ClearedShape(p))
    ensures ActiveVertices(p'.vertices) == {} && ActiveEdges(p'.edges) == {}
  {
    assert ActiveEdges(p'.edges) == {};
    var sh := ClearedShape(p);
    forall i | 0 <= i < |p'.vertices| ensures i in sh.freeVertices { assert sh.freeVertices[i] == i; }
    forall i | 0 <= i < |p'.edges| ensures i in sh.freeEdges { assert sh.freeEdges[i] == i; }
  }
}
