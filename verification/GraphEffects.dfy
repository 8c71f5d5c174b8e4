/** What each step of the graph does, all told: the invariant it keeps, the multigraph it
    leaves and the history it writes. */
module GraphEffects {
  import opened GraphPools
  import opened GraphShape
  import opened GraphStructure
  import opened GraphLinking
  import opened GraphSteps
  import opened GraphHandles
  import opened GraphHistory
  import opened GraphModel
  import opened GraphLocate

  /** Edges that touched vertex v, and only those, have gone. */
  ghost predicate Detached(m: Multigraph, m': Multigraph, v: Handle, gone: set<Handle>)
  {
    && m' == m.(edges := m.edges - gone)
    && forall e :: e in gone ==> e in m.edges && Touches(m.edges[e], v)
  }

  lemma DetachedTwice(m: Multigraph, m1: Multigraph, m2: Multigraph, v: Handle, gone: set<Handle>, more: set<Handle>)
    requires Detached(m, m1, v, gone) && Detached(m1, m2, v, more)
    ensures Detached(m, m2, v, gone + more)
  {
    assert m.edges - gone - more == m.edges - (gone + more);
  }

  /** Retiring in two rounds, no slot twice. */
  lemma RetiredTwice(past: Past, a: set<nat>, b: set<nat>)
    requires a !! b
    ensures Retired(Retired(past, a), b) == Retired(past, a + b)
  {
  }

  /** A live vertex with nothing on its lists touches no edge. */
  lemma Isolated(p: Pools, sh: Shape, v: nat)
    requires Sides(p, sh) && v in ActiveVertices(p.vertices) && |sh.outs| == |sh.ins| == |p.vertices|
    requires sh.outs[v] == [] && sh.ins[v] == []
    ensures forall e :: e in Abs(p).edges ==> !Touches(Abs(p).edges[e], VertexHandle(p.vertices, v))
  {
    hide SideOk;
    ListExact(p, sh, Out, v);
    ListExact(p, sh, In, v);
    forall e | e in Abs(p).edges ensures !Touches(Abs(p).edges[e], VertexHandle(p.vertices, v)) {
      assert e.index in ActiveEdges(p.edges);
    }
  }

  /** The edge at the head of a list: it belongs there, and releasing it leaves the rest of
      the list, with the link read beforehand as its head. */
  lemma HeadRelease(p: Pools, sh: Shape, side: Side, v: nat)
    requires Sides(p, sh) && |p.edges| <= MAX_CAPACITY && v in ActiveVertices(p.vertices)
    requires |sh.outs| == |sh.ins| == |p.vertices| && ListsOf(sh, side)[v] != []
    ensures var l := ListsOf(sh, side)[v];
            && l[0] in ActiveEdges(p.edges) && Owner(p.edges[l[0]], side) == v
            && LinksOf(p.edges[l[0]], side).next == First(l[1..])
            && Drop(l, l[0]) == l[1..]
  {
    hide SideOk;
    var l := ListsOf(sh, side)[v];
    ListExact(p, sh, side, v);
    assert l[0] in l;
    ChainReady(p.vertices, p.edges, side, ListsOf(sh, side), ActiveEdges(p.edges), v);
    assert IndexOf(l, l[0]) == 0;
  }

  lemma HeadIs(p: Pools, sh: Shape, side: Side, v: nat)
    requires Sides(p, sh) && |p.edges| <= MAX_CAPACITY && v in ActiveVertices(p.vertices)
    requires |sh.outs| == |sh.ins| == |p.vertices|
    ensures EndsOf(p.vertices[v], side).head == First(ListsOf(sh, side)[v])
    ensures First(ListsOf(sh, side)[v]) == INVALID_INDEX <==> ListsOf(sh, side)[v] == []
  {
    hide SideOk;
    ChainReady(p.vertices, p.edges, side, ListsOf(sh, side), ActiveEdges(p.edges), v);
  }

  lemma HeadReleased(p: Pools, sh: Shape, side: Side, v: nat, e: nat)
    requires v < |sh.outs| == |sh.ins| && ListsOf(sh, side)[v] != []
    requires e == ListsOf(sh, side)[v][0] && e < |p.edges| && Owner(p.edges[e], side) == v
    requires p.edges[e].src < |sh.outs| && p.edges[e].dst < |sh.ins|
    requires Drop(ListsOf(sh, side)[v], e) == ListsOf(sh, side)[v][1..]
    ensures var sh' := ReleaseShape(p, sh, e);
            && ListsOf(sh', side)[v] == ListsOf(sh, side)[v][1..]
            && (ListsOf(sh, Other(side))[v] == [] ==> ListsOf(sh', Other(side))[v] == [])
            && |sh'.outs| == |sh.outs| && |sh'.ins| == |sh.ins|
  {
  }

  /** An edge on one of v's lists touches v. */
  lemma ListedTouches(p: Pools, side: Side, v: nat, e: nat)
    requires e in ActiveEdges(p.edges) && Owner(p.edges[e], side) == v
    ensures var h := Handle(e, p.edges[e].generation);
            h in Abs(p).edges && Touches(Abs(p).edges[h], VertexHandle(p.vertices, v))
  {
    assert NamesEdge(p.edges, Handle(e, p.edges[e].generation));
  }

  lemma DetachOne(m: Multigraph, m1: Multigraph, m2: Multigraph, v: Handle, gone: set<Handle>, h: Handle)
    requires Detached(m, m1, v, gone) && m2 == m1.(edges := m1.edges - {h})
    requires h in m1.edges && Touches(m1.edges[h], v)
    ensures Detached(m, m2, v, gone + {h})
  {
    DetachedTwice(m, m1, m2, v, gone, {h});
  }

  lemma RetireOne(past: Past, all: set<nat>, rest: set<nat>, e: nat)
    requires rest <= all && e in rest
    ensures Retired(Retired(past, all - rest), {e}) == Retired(past, all - (rest - {e}))
  {
    RetiredTwice(past, all - rest, {e});
    assert all - rest + {e} == all - (rest - {e});
  }

  /** The slots of the live edges that touch vertex v. */
  function IncidentSlots(es: seq<EdgeRec>, v: nat): set<nat>
  {
    set e | e in ActiveEdges(es) && (es[e].src == v || es[e].dst == v)
  }

  /** If the multigraph has lost exactly the edges that touch v, so have the pools. */
  lemma IncidentGone(p: Pools, p': Pools, v: nat)
    requires ActiveEdges(p'.edges) <= ActiveEdges(p.edges)
    requires Abs(p').edges == WithoutVertex(Abs(p), VertexHandle(p.vertices, v)).edges
    ensures ActiveEdges(p.edges) - ActiveEdges(p'.edges) == IncidentSlots(p.edges, v)
  {
    var h := VertexHandle(p.vertices, v);
    forall e | e in ActiveEdges(p.edges) ensures e in ActiveEdges(p'.edges) <==> e !in IncidentSlots(p.edges, v) {
      var x := Handle(e, p.edges[e].generation);
      assert NamesEdge(p.edges, x) && Abs(p).edges[x] == EndsOfEdge(p.vertices, p.edges[e]);
      assert Touches(Abs(p).edges[x], h) <==> e in IncidentSlots(p.edges, v);
      assert e !in IncidentSlots(p.edges, v) ==> NamesEdge(p'.edges, x);
      if e in ActiveEdges(p'.edges) {
        var y := Handle(e, p'.edges[e].generation);
        assert NamesEdge(p'.edges, y);
        assert y in Abs(p).edges && y == x;
      }
    }
  }

  /** Everything retiring an isolated vertex does. */
  lemma RetireEffect(p: Pools, sh: Shape, log: Log, v: nat)
    requires Sound(p, sh, log) && v in ActiveVertices(p.vertices)
    requires |sh.outs| == |sh.ins| == |p.vertices| && sh.outs[v] == [] && sh.ins[v] == []
    ensures Sound(Retire(p, v), RetireShape(sh, v), RetireLog(log, v))
    ensures Abs(Retire(p, v)) == Abs(p).(vertices := Abs(p).vertices - {VertexHandle(p.vertices, v)})
  {
    hide Abs, Retire, SideOk, PastOk, Dated;
    RetireSound(p, sh, log, v);
    AllEndpointsLive(Retire(p, v), RetireShape(sh, v));
    RetireAbs(p, v);
  }

  lemma RetireNone(past: Past, all: set<nat>)
    ensures Retired(past, all - all) == past
  {
  }

  lemma SoundSizes(p: Pools, sh: Shape, log: Log)
    requires Sound(p, sh, log)
    ensures Sides(p, sh) && |p.edges| <= MAX_CAPACITY && |p.vertices| <= MAX_CAPACITY
    ensures |sh.outs| == |sh.ins| == |p.vertices| && Scannable(p, sh, log)
  {
  }

  lemma TimesSize(p: Pools, sh: Shape, log: Log)
    requires Sound(p, sh, log)
    ensures |log.stamps| == |p.edges|
  {
  }

  /** The handle is the latest one given out. */
  ghost predicate Issued(was: Past, now: Past, h: Handle)
  {
    && h.index <= |was.retired| && now == Given(was, h.index)
    && HandleOf(now.issued[|was.issued|]) == h
  }

  /** The oldest slot on a pair is the eldest edge of the multigraph there. */
  lemma OldestIsEldest(p: Pools, stamps: seq<nat>, a: Handle, b: Handle, e: nat)
    requires |stamps| == |p.edges| && NamesVertex(p.vertices, a) && NamesVertex(p.vertices, b)
    requires Oldest(p.edges, stamps, a.index, b.index, e)
    ensures Eldest(Abs(p), stamps, a, b, Handle(e, p.edges[e].generation))
  {
    var m := Abs(p);
    assert NamesEdge(p.edges, Handle(e, p.edges[e].generation));
    forall f | f in m.edges && m.edges[f] == (a, b) ensures f.index < |stamps| && stamps[e] <= stamps[f.index] {
      assert NamesEdge(p.edges, f);
      assert f.index in ActiveEdges(p.edges);
    }
  }

  /** Slot e of the edge pool is dated now, later than everything before. */
  ghost predicate DatedNow(was: Log, now: Log, e: nat)
  {
    && e <= |was.stamps| && now.stamps == Stamped(was.stamps, e, was.clock)
    && now.clock == was.clock + 1
  }

  /** What adding an edge writes: its handle is given out and it is dated now. */
  ghost predicate EdgeLogged(was: Log, now: Log, h: Handle)
  {
    && Issued(was.edgePast, now.edgePast, h) && DatedNow(was, now, h.index)
    && now.vertexPast == was.vertexPast
  }

  /** What adding a vertex writes: its handle is given out. */
  ghost predicate VertexLogged(was: Log, now: Log, h: Handle)
  {
    Issued(was.vertexPast, now.vertexPast, h) && now == was.(vertexPast := now.vertexPast)
  }

  lemma VertexSlotFacts(p: Pools, sh: Shape)
    requires Structure(p, sh)
    ensures p.vertexFree == INVALID_INDEX || p.vertexFree < |p.vertices|
    ensures p.vertexFree == INVALID_INDEX ==> p.vertexCount == |p.vertices|
  {
    hide Sides;
    if sh.freeVertices != [] { assert sh.freeVertices[0] < |p.vertices|; }
  }

  lemma EdgeSlotFacts(p: Pools, sh: Shape)
    requires Structure(p, sh)
    ensures p.edgeFree == INVALID_INDEX || p.edgeFree < |p.edges|
    ensures p.edgeFree == INVALID_INDEX ==> p.edgeCount == |p.edges|
  {
    hide Sides;
    if sh.freeEdges != [] { assert sh.freeEdges[0] < |p.edges|; }
  }

  /** A vertex slot has been taken and not yet filled in. */
  function TakenVertex(p: Pools): Pools
    requires p.vertexFree == INVALID_INDEX || p.vertexFree < |p.vertices|
  {
    if p.vertexFree != INVALID_INDEX then p.(vertexFree := p.vertices[p.vertexFree].outs.head)
    else p.(vertices := p.vertices + [VertexRec(NoEnds, NoEnds, 1, false)])
  }

  /** An edge slot has been taken and not yet filled in. */
  function TakenEdge(p: Pools): Pools
    requires p.edgeFree == INVALID_INDEX || p.edgeFree < |p.edges|
  {
    if p.edgeFree != INVALID_INDEX then p.(edgeFree := p.edges[p.edgeFree].outs.next)
    else p.(edges := p.edges + [EdgeRec(0, 0, NoLinks, NoLinks, 1, false)])
  }

  /** Everything adding an edge does. */
  lemma AddEdgeEffect(p: Pools, sh: Shape, log: Log, src: nat, dst: nat)
    requires Sound(p, sh, log) && HasEdgeSlot(p)
    requires src in ActiveVertices(p.vertices) && dst in ActiveVertices(p.vertices)
    ensures CanAddEdge(p, src, dst) && src < |sh.outs| && dst < |sh.ins|
    ensures sh.freeEdges != [] || p.edgeFree == INVALID_INDEX
    ensures AddedEdge(p) <= |log.stamps| && AddedEdge(p) <= |log.edgePast.retired|
    ensures AddedEdge(p) < |AddEdge(p, src, dst).edges|
    ensures Sound(AddEdge(p, src, dst), AddEdgeShape(p, sh, src, dst), AddEdgeLog(p, log))
    ensures var e, p' := AddedEdge(p), AddEdge(p, src, dst);
            var h := Handle(e, p'.edges[e].generation);
            && h !in Abs(p).edges
            && Abs(p') == Abs(p).(edges := Abs(p).edges[h := (VertexHandle(p.vertices, src), VertexHandle(p.vertices, dst))])
            && EdgeLogged(log, AddEdgeLog(p, log), h)
  {
    hide Sound, Abs, KeepsOthers, AddEdge, AddEdgeShape, TakeEdge;
    AddEdgeSound(p, sh, log, src, dst);
    AddEdgeAbs(p, AddEdge(p, src, dst), AddedEdge(p));
  }

  /** A new edge that was checked for keeps the rules. */
  lemma AddEdgeAdmitted(p: Pools, sh: Shape, log: Log, src: nat, dst: nat, directed: bool, rejectParallel: bool, rejectLoops: bool)
    requires Sound(p, sh, log) && HasEdgeSlot(p) && Admitted(p.edges, directed, rejectParallel, rejectLoops)
    requires src in ActiveVertices(p.vertices) && dst in ActiveVertices(p.vertices)
    requires rejectLoops ==> src != dst
    requires rejectParallel ==> !SomeJoins(p.edges, directed, src, dst)
    ensures CanAddEdge(p, src, dst) && Admitted(AddEdge(p, src, dst).edges, directed, rejectParallel, rejectLoops)
  {
    hide Sound, KeepsOthers, AddEdge, AddEdgeShape, TakeEdge, Admitted;
    AddEdgeSound(p, sh, log, src, dst);
    AdmitNew(p, AddEdge(p, src, dst), AddedEdge(p), directed, rejectParallel, rejectLoops);
  }

  /** Everything releasing an edge does. */
  lemma ReleaseEffect(p: Pools, sh: Shape, log: Log, e: nat)
    requires Sound(p, sh, log) && e in ActiveEdges(p.edges)
    ensures CanRelease(p, e) && p.edges[e].src < |sh.outs| && p.edges[e].dst < |sh.ins|
    ensures Sound(Release(p, e), ReleaseShape(p, sh, e), ReleaseLog(log, e))
    ensures Abs(Release(p, e)) == Abs(p).(edges := Abs(p).edges - {Handle(e, p.edges[e].generation)})
    ensures ActiveEdges(Release(p, e).edges) == ActiveEdges(p.edges) - {e}
    ensures KeepsOthers(p, Release(p, e), e) && |Release(p, e).edges| == |p.edges|
  {
    hide Sound, Abs, Release, ReleaseShape;
    ReleaseSound(p, sh, log, e);
    ReleaseAbs(p, Release(p, e), e);
  }

  lemma ReleaseAdmitted(p: Pools, sh: Shape, log: Log, e: nat, directed: bool, rejectParallel: bool, rejectLoops: bool)
    requires Sound(p, sh, log) && e in ActiveEdges(p.edges) && Admitted(p.edges, directed, rejectParallel, rejectLoops)
    ensures CanRelease(p, e) && Admitted(Release(p, e).edges, directed, rejectParallel, rejectLoops)
  {
    hide Sound, Release, ReleaseShape, Admitted;
    ReleaseSound(p, sh, log, e);
    AdmitFewer(p.edges, Release(p, e).edges, directed, rejectParallel, rejectLoops);
  }

  /** Everything adding a vertex does. */
  lemma AddVertexEffect(p: Pools, sh: Shape, log: Log)
    requires Sound(p, sh, log) && HasVertexSlot(p)
    ensures p.vertexFree == INVALID_INDEX || p.vertexFree < |p.vertices|
    ensures sh.freeVertices != [] || p.vertexFree == INVALID_INDEX
    ensures AddedVertex(p) <= |log.vertexPast.retired| && AddedVertex(p) < |AddVertex(p).vertices|
    ensures Sound(AddVertex(p), AddVertexShape(p, sh), AddVertexLog(p, log))
    ensures var h := VertexHandle(AddVertex(p).vertices, AddedVertex(p));
            && h !in Abs(p).vertices && Abs(AddVertex(p)) == Abs(p).(vertices := Abs(p).vertices + {h})
            && VertexLogged(log, AddVertexLog(p, log), h)
  {
    hide PastOk, Dated, SideOk, VertexFreeOk, EdgeFreeOk, Tagged, Abs, AddVertex, AddVertexShape;
    AddVertexSound(p, sh, log);
    AllEndpointsLive(p, sh);
    AddVertexAbs(p);
  }

  lemma EmptyEffect(directed: bool, rejectParallel: bool, rejectLoops: bool)
    ensures Sound(NoPools, NoShape, NoLog) && Abs(NoPools) == Empty
    ensures Admitted(NoPools.edges, directed, rejectParallel, rejectLoops)
  {
    hide Sound, Abs;
    EmptySound();
    ClearAbs(NoPools);
  }

  lemma ClearEffect(p: Pools, sh: Shape, log: Log, p': Pools, directed: bool, rejectParallel: bool, rejectLoops: bool)
    requires Sound(p, sh, log) && IsCleared(p, p') && Admitted(p.edges, directed, rejectParallel, rejectLoops)
    ensures Sound(p', ClearedShape(p), ClearLog(p, log)) && Abs(p') == Empty
    ensures Admitted(p'.edges, directed, rejectParallel, rejectLoops)
  {
    hide Sound, Abs, ClearedShape, ClearLog, IsCleared;
    ClearSound(p, sh, log, p');
    ClearAbs(p');
    AdmitFewer(p.edges, p'.edges, directed, rejectParallel, rejectLoops);
  }
}
