/** What the graph remembers of its run: when each edge was added, and the past of every
    slot. Each step keeps the pools in agreement with it. */
module GraphHistory {
  import opened GraphPools
  import opened GraphShape
  import opened GraphStructure
  import opened GraphLinking
  import opened GraphSteps
  import opened GraphHandles

  /** `stamps` dates the edge in each slot; `clock` is later than all of them. */
  datatype Log = Log(stamps: seq<nat>, clock: nat, vertexPast: Past, edgePast: Past)

  const NoLog := Log([], 0, NoPast, NoPast)

  /** The edges on a list are in order of insertion. */
  ghost predicate InTime(l: seq<nat>, stamps: seq<nat>, clock: nat)
  {
    && (forall k :: 0 <= k < |l| ==> l[k] < |stamps| && stamps[l[k]] < clock)
    && (forall j, k :: 0 <= j < k < |l| ==> stamps[l[j]] < stamps[l[k]])
  }

  ghost predicate Dated(lists: Lists, stamps: seq<nat>, clock: nat)
  {
    forall v :: 0 <= v < |lists| ==> InTime(lists[v], stamps, clock)
  }

  function VertexGens(vs: seq<VertexRec>): (r: seq<nat>)
    ensures |r| == |vs| && forall i :: 0 <= i < |vs| ==> r[i] == vs[i].generation
  {
    seq(|vs|, i requires 0 <= i < |vs| => vs[i].generation)
  }

  function EdgeGens(es: seq<EdgeRec>): (r: seq<nat>)
    ensures |r| == |es| && forall i :: 0 <= i < |es| ==> r[i] == es[i].generation
  {
    seq(|es|, i requires 0 <= i < |es| => es[i].generation)
  }

  ghost predicate VertexPastOk(vs: seq<VertexRec>, past: Past)
  {
    PastOk(VertexGens(vs), ActiveVertices(vs), past)
  }

  ghost predicate EdgePastOk(es: seq<EdgeRec>, past: Past)
  {
    PastOk(EdgeGens(es), ActiveEdges(es), past)
  }

  ghost predicate Times(p: Pools, sh: Shape, log: Log)
  {
    && |log.stamps| == |p.edges|
    && Dated(sh.outs, log.stamps, log.clock) && Dated(sh.ins, log.stamps, log.clock)
  }

  /** The pools, what their links encode, and the run that led here. */
  ghost predicate Sound(p: Pools, sh: Shape, log: Log)
  {
    && Structure(p, sh) && Times(p, sh, log)
    && VertexPastOk(p.vertices, log.vertexPast) && EdgePastOk(p.edges, log.edgePast)
  }

  const NoPools := Pools([], [], INVALID_INDEX, INVALID_INDEX, 0, 0)
  const NoShape := Shape([], [], [], [])

  lemma EmptySound()
    ensures Sound(NoPools, NoShape, NoLog)
  {
    assert ActiveEdges([]) == {} && ActiveVertices([]) == {};
  }

  /** Recycled slots carry a generation: they have been live before. */
  lemma SlotsTagged(p: Pools, log: Log)
    requires VertexPastOk(p.vertices, log.vertexPast) && EdgePastOk(p.edges, log.edgePast)
    ensures p.vertexFree < |p.vertices| ==> p.vertices[p.vertexFree].generation != 0
    ensures EdgeSlotTagged(p)
  {
    assert GenerationsOk(VertexGens(p.vertices), log.vertexPast) && GenerationsOk(EdgeGens(p.edges), log.edgePast);
    assert p.vertexFree < |p.vertices| ==> VertexGens(p.vertices)[p.vertexFree] != 0;
    assert p.edgeFree < |p.edges| ==> EdgeGens(p.edges)[p.edgeFree] != 0;
  }

  // --- Adding a vertex -------------------------------------------------------

  function AddVertexLog(p: Pools, log: Log): Log
    requires AddedVertex(p) <= |log.vertexPast.retired|
  {
    log.(vertexPast := Given(log.vertexPast, AddedVertex(p)))
  }

  lemma AddVertexPast(p: Pools, log: Log)
    requires VertexPastOk(p.vertices, log.vertexPast) && AddedVertex(p) !in ActiveVertices(p.vertices)
    requires p.vertexFree == INVALID_INDEX || p.vertexFree < |p.vertices|
    ensures AddedVertex(p) <= |log.vertexPast.retired|
    ensures VertexPastOk(AddVertex(p).vertices, AddVertexLog(p, log).vertexPast)
    ensures var i, past := AddedVertex(p), AddVertexLog(p, log).vertexPast;
            && i < |AddVertex(p).vertices| && i < |past.retired|
            && HandleOf(Issue(i, past.retired[i])) == Handle(i, AddVertex(p).vertices[i].generation)
  {
    var p', i := AddVertex(p), AddedVertex(p);
    GivenOk(VertexGens(p.vertices), VertexGens(p'.vertices), ActiveVertices(p.vertices), log.vertexPast, i);
    assert ActiveVertices(p'.vertices) == ActiveVertices(p.vertices) + {i};
  }

  lemma FreeVertexInactive(p: Pools, sh: Shape)
    requires VertexFreeOk(p.vertices, p.vertexFree, sh.freeVertices) && |p.vertices| <= MAX_CAPACITY
    ensures AddedVertex(p) !in ActiveVertices(p.vertices)
    ensures p.vertexFree == INVALID_INDEX || p.vertexFree < |p.vertices|
  {
    if sh.freeVertices != [] { assert sh.freeVertices[0] < |p.vertices|; }
  }

  lemma AddVertexTimes(p: Pools, sh: Shape, log: Log)
    requires Times(p, sh, log) && AddedVertex(p) <= |log.vertexPast.retired|
    requires p.vertexFree == INVALID_INDEX || p.vertexFree < |p.vertices|
    requires sh.freeVertices != [] || p.vertexFree == INVALID_INDEX
    ensures Times(AddVertex(p), AddVertexShape(p, sh), AddVertexLog(p, log))
  {
  }

  lemma AddVertexSound(p: Pools, sh: Shape, log: Log)
    requires Sound(p, sh, log) && HasVertexSlot(p)
    ensures p.vertexFree == INVALID_INDEX || p.vertexFree < |p.vertices|
    ensures sh.freeVertices != [] || p.vertexFree == INVALID_INDEX
    ensures AddedVertex(p) <= |log.vertexPast.retired| && AddedVertex(p) !in ActiveVertices(p.vertices)
    ensures Sound(AddVertex(p), AddVertexShape(p, sh), AddVertexLog(p, log))
    ensures var i, past := AddedVertex(p), AddVertexLog(p, log).vertexPast;
            && i < |AddVertex(p).vertices| && i < |past.retired|
            && HandleOf(Issue(i, past.retired[i])) == Handle(i, AddVertex(p).vertices[i].generation)
  {
    SlotsTagged(p, log);
    FreeVertexInactive(p, sh);
    AddVertexPast(p, log);
    hide PastOk;
    AddVertexOk(p, sh);
    AddVertexTimes(p, sh, log);
  }

  // --- Adding an edge --------------------------------------------------------

  /** Edge e is dated now. */
  function Stamped(stamps: seq<nat>, e: nat, clock: nat): seq<nat>
    requires e <= |stamps|
  {
    if e == |stamps| then stamps + [clock] else stamps[e := clock]
  }

  lemma LaterInTime(l: seq<nat>, stamps: seq<nat>, clock: nat, e: nat)
    requires InTime(l, stamps, clock) && e !in l && e <= |stamps|
    ensures InTime(l, Stamped(stamps, e, clock), clock + 1)
    ensures InTime(l + [e], Stamped(stamps, e, clock), clock + 1)
  {
  }

  lemma LaterDated(lists: Lists, stamps: seq<nat>, clock: nat, e: nat, v: nat)
    requires Dated(lists, stamps, clock) && e <= |stamps| && v < |lists|
    requires forall u :: 0 <= u < |lists| ==> e !in lists[u]
    ensures Dated(lists[v := lists[v] + [e]], Stamped(stamps, e, clock), clock + 1)
  {
    var lists' := lists[v := lists[v] + [e]];
    forall u | 0 <= u < |lists'| ensures InTime(lists'[u], Stamped(stamps, e, clock), clock + 1) {
      LaterInTime(lists[u], stamps, clock, e);
    }
  }

  /** An inactive edge is on no list. */
  lemma Unlisted(vs: seq<VertexRec>, es: seq<EdgeRec>, side: Side, lists: Lists, e: nat)
    requires SideOk(vs, es, side, lists, ActiveEdges(es)) && e !in ActiveEdges(es)
    ensures forall u :: 0 <= u < |lists| ==> e !in lists[u]
  {
    forall u | 0 <= u < |lists| ensures e !in lists[u] { assert Holds(lists[u], ActiveEdges(es)); }
  }

  function AddEdgeLog(p: Pools, log: Log): Log
    requires AddedEdge(p) <= |log.stamps| && AddedEdge(p) <= |log.edgePast.retired|
  {
    log.(stamps := Stamped(log.stamps, AddedEdge(p), log.clock), clock := log.clock + 1,
         edgePast := Given(log.edgePast, AddedEdge(p)))
  }

  lemma AddEdgeTimes(p: Pools, sh: Shape, log: Log, src: nat, dst: nat)
    requires Sides(p, sh) && Times(p, sh, log) && AddedEdge(p) !in ActiveEdges(p.edges)
    requires AddedEdge(p) <= |log.stamps| && AddedEdge(p) <= |log.edgePast.retired|
    requires CanAddEdge(p, src, dst) && src < |sh.outs| && dst < |sh.ins|
    requires sh.freeEdges != [] || p.edgeFree == INVALID_INDEX
    ensures Times(AddEdge(p, src, dst), AddEdgeShape(p, sh, src, dst), AddEdgeLog(p, log))
  {
    Unlisted(p.vertices, p.edges, Out, sh.outs, AddedEdge(p));
    Unlisted(p.vertices, p.edges, In, sh.ins, AddedEdge(p));
    hide Dated, SideOk;
    LaterDated(sh.outs, log.stamps, log.clock, AddedEdge(p), src);
    LaterDated(sh.ins, log.stamps, log.clock, AddedEdge(p), dst);
  }

  lemma FreeEdgeInactive(p: Pools, sh: Shape)
    requires EdgeFreeOk(p.edges, p.edgeFree, sh.freeEdges) && |p.edges| <= MAX_CAPACITY
    ensures AddedEdge(p) !in ActiveEdges(p.edges)
    ensures p.edgeFree == INVALID_INDEX || p.edgeFree < |p.edges|
  {
    if sh.freeEdges != [] { assert sh.freeEdges[0] < |p.edges|; }
  }

  /** The record of the new edge. */
  lemma AddedEdgeIs(p: Pools, src: nat, dst: nat)
    requires CanAddEdge(p, src, dst)
    requires var r := RecordsOf(TakeEdge(p, src, dst)); KeepsSlots(r, Link(r, AddedEdge(p)))
    ensures var e, p' := AddedEdge(p), AddEdge(p, src, dst);
            && e < |p'.edges| && p'.edges[e].src == src && p'.edges[e].dst == dst && p'.edges[e].active
            && p'.edges[e].generation == (if e < |p.edges| then p.edges[e].generation else 1)
            && |p'.edges| == (if e < |p.edges| then |p.edges| else |p.edges| + 1)
  {
  }

  lemma AddEdgePast(p: Pools, p': Pools, log: Log, e: nat)
    requires EdgePastOk(p.edges, log.edgePast) && e !in ActiveEdges(p.edges) && e <= |p.edges|
    requires KeepsOthers(p, p', e) && |p'.edges| == (if e < |p.edges| then |p.edges| else |p.edges| + 1)
    requires p'.edges[e].active && p'.edges[e].generation == (if e < |p.edges| then p.edges[e].generation else 1)
    ensures e <= |log.edgePast.retired| && EdgePastOk(p'.edges, Given(log.edgePast, e))
    ensures e < |Given(log.edgePast, e).retired|
    ensures HandleOf(Issue(e, Given(log.edgePast, e).retired[e])) == Handle(e, p'.edges[e].generation)
  {
    GivenOk(EdgeGens(p.edges), EdgeGens(p'.edges), ActiveEdges(p.edges), log.edgePast, e);
    assert ActiveEdges(p'.edges) == ActiveEdges(p.edges) + {e};
  }

  lemma VertexPastKept(vs: seq<VertexRec>, vs': seq<VertexRec>, past: Past)
    requires VertexPastOk(vs, past) && |vs'| == |vs|
    requires forall v :: 0 <= v < |vs| ==> vs'[v].active == vs[v].active && vs'[v].generation == vs[v].generation
    ensures VertexPastOk(vs', past)
  {
    assert VertexGens(vs') == VertexGens(vs) && ActiveVertices(vs') == ActiveVertices(vs);
  }

  lemma AddEdgeSound(p: Pools, sh: Shape, log: Log, src: nat, dst: nat)
    requires Sound(p, sh, log) && HasEdgeSlot(p)
    requires src in ActiveVertices(p.vertices) && dst in ActiveVertices(p.vertices)
    ensures CanAddEdge(p, src, dst) && src < |sh.outs| && dst < |sh.ins|
    ensures sh.freeEdges != [] || p.edgeFree == INVALID_INDEX
    ensures AddedEdge(p) <= |log.stamps| && AddedEdge(p) <= |log.edgePast.retired|
    ensures Sound(AddEdge(p, src, dst), AddEdgeShape(p, sh, src, dst), AddEdgeLog(p, log))
    ensures AddedEdge(p) !in ActiveEdges(p.edges) && KeepsOthers(p, AddEdge(p, src, dst), AddedEdge(p))
    ensures var e, p' := AddedEdge(p), AddEdge(p, src, dst);
            && e < |p'.edges| && p'.edges[e].src == src && p'.edges[e].dst == dst && p'.edges[e].active
    ensures var e, p', past := AddedEdge(p), AddEdge(p, src, dst), AddEdgeLog(p, log).edgePast;
            && |p'.edges| == (if e < |p.edges| then |p.edges| else |p.edges| + 1)
            && e < |past.retired| && HandleOf(Issue(e, past.retired[e])) == Handle(e, p'.edges[e].generation)
  {
    hide PastOk, Dated, SideOk, VertexFreeOk, EdgeFreeOk, Tagged, Append, AddEdge, TakeEdge, KeepsSlots, KeepsOthers, AddEdgeShape;
    SlotsTagged(p, log);
    FreeEdgeInactive(p, sh);
    AddEdgeSides(p, sh, src, dst);
    AddEdgeOk(p, sh, src, dst);
    AddedEdgeIs(p, src, dst);
    var p' := AddEdge(p, src, dst);
    AddEdgePast(p, p', log, AddedEdge(p));
    KeptVertices(p, p', AddedEdge(p), log.vertexPast);
    AddEdgeTimes(p, sh, log, src, dst);
  }

  lemma KeptVertices(p: Pools, p': Pools, e: nat, past: Past)
    requires VertexPastOk(p.vertices, past) && KeepsOthers(p, p', e)
    ensures VertexPastOk(p'.vertices, past)
  {
    VertexPastKept(p.vertices, p'.vertices, past);
  }

  // --- Retiring an edge ------------------------------------------------------

  lemma WithoutInTime(l: seq<nat>, stamps: seq<nat>, clock: nat, i: nat)
    requires InTime(l, stamps, clock) && i < |l|
    ensures InTime(Without(l, i), stamps, clock)
  {
    var l' := Without(l, i);
    assert forall k :: 0 <= k < i ==> l'[k] == l[k];
    assert forall k :: i <= k < |l'| ==> l'[k] == l[k + 1];
  }

  lemma DropInTime(l: seq<nat>, stamps: seq<nat>, clock: nat, e: nat)
    requires InTime(l, stamps, clock)
    ensures InTime(Drop(l, e), stamps, clock)
  {
    hide InTime, Without;
    if e in l { WithoutInTime(l, stamps, clock, IndexOf(l, e)); }
  }

  function ReleaseLog(log: Log, e: nat): Log
  {
    log.(edgePast := Retired(log.edgePast, {e}))
  }

  lemma ReleaseTimes(p: Pools, sh: Shape, log: Log, e: nat)
    requires Times(p, sh, log) && CanRelease(p, e) && |Release(p, e).edges| == |p.edges|
    requires p.edges[e].src < |sh.outs| && p.edges[e].dst < |sh.ins|
    ensures Times(Release(p, e), ReleaseShape(p, sh, e), ReleaseLog(log, e))
  {
    DropInTime(sh.outs[p.edges[e].src], log.stamps, log.clock, e);
    DropInTime(sh.ins[p.edges[e].dst], log.stamps, log.clock, e);
  }

  lemma ReleasePast(p: Pools, p': Pools, log: Log, e: nat)
    requires EdgePastOk(p.edges, log.edgePast) && e in ActiveEdges(p.edges)
    requires KeepsOthers(p, p', e) && |p'.edges| == |p.edges|
    requires ActiveEdges(p'.edges) == ActiveEdges(p.edges) - {e}
    requires p'.edges[e].generation == Bump(p.edges[e].generation)
    ensures EdgePastOk(p'.edges, Retired(log.edgePast, {e}))
  {
    RetiredOk(EdgeGens(p.edges), EdgeGens(p'.edges), ActiveEdges(p.edges), log.edgePast, {e});
  }

  lemma ReleaseSound(p: Pools, sh: Shape, log: Log, e: nat)
    requires Sound(p, sh, log) && e in ActiveEdges(p.edges)
    ensures CanRelease(p, e) && p.edges[e].src < |sh.outs| && p.edges[e].dst < |sh.ins|
    ensures Sound(Release(p, e), ReleaseShape(p, sh, e), ReleaseLog(log, e))
    ensures KeepsOthers(p, Release(p, e), e) && |Release(p, e).edges| == |p.edges|
    ensures ActiveEdges(Release(p, e).edges) == ActiveEdges(p.edges) - {e}
  {
    hide PastOk, Dated, SideOk, VertexFreeOk, EdgeFreeOk, Tagged, Unlink, Release, KeepsOthers, ReleaseShape;
    ReleaseOk(p, sh, e);
    ReleasePast(p, Release(p, e), log, e);
    KeptVertices(p, Release(p, e), e, log.vertexPast);
    ReleaseTimes(p, sh, log, e);
  }

  // --- Retiring a vertex -----------------------------------------------------

  function RetireLog(log: Log, v: nat): Log
  {
    log.(vertexPast := Retired(log.vertexPast, {v}))
  }

  lemma RetireSound(p: Pools, sh: Shape, log: Log, v: nat)
    requires Sound(p, sh, log) && v in ActiveVertices(p.vertices)
    requires sh.outs[v] == [] && sh.ins[v] == []
    ensures Sound(Retire(p, v), RetireShape(sh, v), RetireLog(log, v))
  {
    RetirePast(p, log, v);
    hide PastOk;
    RetireOk(p, sh, v);
  }

  lemma RetirePast(p: Pools, log: Log, v: nat)
    requires VertexPastOk(p.vertices, log.vertexPast) && v in ActiveVertices(p.vertices)
    ensures VertexPastOk(Retire(p, v).vertices, RetireLog(log, v).vertexPast)
  {
    var vs' := Retire(p, v).vertices;
    RetiredOk(VertexGens(p.vertices), VertexGens(vs'), ActiveVertices(p.vertices), log.vertexPast, {v});
    assert ActiveVertices(vs') == ActiveVertices(p.vertices) - {v};
  }

  // --- Dropping everything ---------------------------------------------------

  function ClearLog(p: Pools, log: Log): Log
  {
    log.(vertexPast := Retired(log.vertexPast, ActiveVertices(p.vertices)),
         edgePast := Retired(log.edgePast, ActiveEdges(p.edges)))
  }

  lemma ClearSound(p: Pools, sh: Shape, log: Log, p': Pools)
    requires Sound(p, sh, log) && IsCleared(p, p')
    ensures Sound(p', ClearedShape(p), ClearLog(p, log))
    ensures ActiveVertices(p'.vertices) == {} && ActiveEdges(p'.edges) == {}
  {
    ClearPasts(p, log, p');
    hide PastOk, Structure, Dated;
    ClearStructure(p, sh, p');
    ClearTimes(p, log, p');
  }

  lemma ClearPasts(p: Pools, log: Log, p': Pools)
    requires VertexPastOk(p.vertices, log.vertexPast) && EdgePastOk(p.edges, log.edgePast) && IsCleared(p, p')
    ensures VertexPastOk(p'.vertices, ClearLog(p, log).vertexPast) && EdgePastOk(p'.edges, ClearLog(p, log).edgePast)
  {
    hide PastOk;
    var av, ae := ActiveVertices(p.vertices), ActiveEdges(p.edges);
    RetiredOk(VertexGens(p.vertices), VertexGens(p'.vertices), av, log.vertexPast, av);
    RetiredOk(EdgeGens(p.edges), EdgeGens(p'.edges), ae, log.edgePast, ae);
    assert ActiveVertices(p'.vertices) == av - av && ActiveEdges(p'.edges) == ae - ae;
  }

  lemma ClearStructure(p: Pools, sh: Shape, p': Pools)
    requires Structure(p, sh) && IsCleared(p, p')
    ensures Structure(p', ClearedShape(p)) && ActiveVertices(p'.vertices) == {} && ActiveEdges(p'.edges) == {}
  {
    ClearOk(p, p');
  }

  lemma ClearTimes(p: Pools, log: Log, p': Pools)
    requires |log.stamps| == |p.edges| && IsCleared(p, p')
    ensures Times(p', ClearedShape(p), ClearLog(p, log))
  {
  }
}
