/** Whole runs of a graph: what every sequence of operations without a reset leaves true of
    all the handles it gave out, and of the edge a lookup finds. */
module GraphRuns {
  import opened Counting
  import opened GraphPools
  import opened GraphStructure
  import opened GraphHandles
  import opened GraphHistory
  import opened GraphModel
  import opened GraphLocate
  import opened GraphVersion
  import opened GraphStorage
  import opened GraphEffects
  import opened Graphs
  import opened GraphBatches

  /** Everything a program can do to the topology, short of a reset. */
  datatype Op =
    | AddVertexOp
    | RemoveVertexOp(vertex: Handle)
    | AddEdgeOp(src: Handle, dst: Handle)
    | RemoveEdgeOp(edge: Handle)
    | RemoveBetweenOp(src: Handle, dst: Handle)
    | ClearOp
    | AddVerticesOp(count: nat)
    | AddEdgesOp(specs: seq<(Handle, Handle)>)
    | BeginOp
    | CommitOp
    | ShrinkOp

  /** No slot's retirements are ever taken back. */
  ghost predicate Aged(was: seq<nat>, now: seq<nat>)
  {
    |was| <= |now| && forall i :: 0 <= i < |was| ==> was[i] <= now[i]
  }

  /** What a stretch of a run writes to a pool's past: these handles given out, in order. */
  ghost predicate Went(was: Past, now: Past, handles: seq<Handle>)
  {
    Handed(was.issued, now.issued, handles) && Aged(was.retired, now.retired)
  }

  lemma WentNowhere(past: Past)
    ensures Went(past, past, [])
  {
  }

  lemma WentOn(a: Past, b: Past, c: Past, first: seq<Handle>, more: seq<Handle>)
    requires Went(a, b, first) && Went(b, c, more)
    ensures Went(a, c, first + more)
  {
    var n := |a.issued|;
    forall k | 0 <= k < |first + more| ensures HandleOf(c.issued[n + k]) == (first + more)[k] {
      if k < |first| {
        assert c.issued[n + k] == b.issued[n + k];
      } else {
        assert c.issued[|b.issued| + (k - |first|)] == c.issued[n + k];
      }
    }
  }

  lemma WentOne(was: Past, now: Past, h: Handle)
    requires Issued(was, now, h)
    ensures Went(was, now, [h])
  {
  }

  lemma WentBatch(was: Past, now: Past, handles: seq<Handle>)
    requires GivenAll(was, now, handles)
    ensures Went(was, now, handles)
  {
  }

  lemma WentRetired(was: Past, gone: set<nat>)
    ensures Went(was, Retired(was, gone), [])
  {
  }

  /** Both pools. */
  ghost predicate LogWent(was: Log, now: Log, vertices: seq<Handle>, edges: seq<Handle>)
  {
    Went(was.vertexPast, now.vertexPast, vertices) && Went(was.edgePast, now.edgePast, edges)
  }

  lemma LogWentNowhere(log: Log)
    ensures LogWent(log, log, [], [])
  {
  }

  lemma LogWentOn(a: Log, b: Log, c: Log, vs: seq<Handle>, es: seq<Handle>, vs': seq<Handle>, es': seq<Handle>)
    requires LogWent(a, b, vs, es) && LogWent(b, c, vs', es')
    ensures LogWent(a, c, vs + vs', es + es')
  {
    hide Went;
    WentOn(a.vertexPast, b.vertexPast, c.vertexPast, vs, vs');
    WentOn(a.edgePast, b.edgePast, c.edgePast, es, es');
  }

  method DoAdd(g: Graph, op: Op) returns (vs: seq<Handle>, es: seq<Handle>)
    requires g.Valid() && (op.AddVertexOp? || op.AddEdgeOp? || op.AddVerticesOp? || op.AddEdgesOp?)
    modifies g, g.storage
    ensures g.Valid() && LogWent(old(g.log), g.log, vs, es)
  {
    hide Graph.Valid, Went, Issued, GivenAll, Extends, Abs, DatedAll, DatedNow;
    WentNowhere(g.log.vertexPast);
    WentNowhere(g.log.edgePast);
    vs, es := [], [];
    match op
    case AddVertexOp =>
      var status, h := g.AddVertex();
      if status == Ok {
        WentOne(old(g.log).vertexPast, g.log.vertexPast, h);
        vs := [h];
      }
    case AddEdgeOp(src, dst) =>
      var status, h := g.AddEdge(src, dst);
      if status == Ok {
        WentOne(old(g.log).edgePast, g.log.edgePast, h);
        es := [h];
      }
    case AddVerticesOp(count) =>
      vs := AddVertices(g, count);
      WentBatch(old(g.log).vertexPast, g.log.vertexPast, vs);
    case AddEdgesOp(specs) =>
      es := AddEdges(g, specs);
      WentBatch(old(g.log).edgePast, g.log.edgePast, es);
  }

  method DoRemove(g: Graph, op: Op)
    requires g.Valid() && (op.RemoveVertexOp? || op.RemoveEdgeOp? || op.RemoveBetweenOp? || op.ClearOp?)
    modifies g, g.storage
    ensures g.Valid() && LogWent(old(g.log), g.log, [], [])
  {
    hide Graph.Valid, Went, Retired, Extends, Abs, Eldest;
    ghost var was := g.log;
    LogWentNowhere(was);
    match op
    case RemoveVertexOp(h) =>
      WentRetired(was.vertexPast, {h.index});
      WentRetired(was.edgePast, IncidentSlots(g.edges, h.index));
      var status := g.RemoveVertex(h);
    case RemoveEdgeOp(h) =>
      WentRetired(was.edgePast, {h.index});
      var status := g.RemoveEdge(h);
    case RemoveBetweenOp(src, dst) =>
      var status, h := g.RemoveEdgeBetween(src, dst);
      WentRetired(was.edgePast, {h.index});
    case ClearOp =>
      WentRetired(was.vertexPast, ActiveVertices(g.vertices));
      WentRetired(was.edgePast, ActiveEdges(g.edges));
      g.Clear();
  }

  /** One operation, and the handles it returned. */
  method Do(g: Graph, op: Op) returns (vs: seq<Handle>, es: seq<Handle>)
    requires g.Valid()
    modifies g, g.storage
    ensures g.Valid() && LogWent(old(g.log), g.log, vs, es)
  {
    hide Graph.Valid, LogWent;
    LogWentNowhere(g.log);
    vs, es := [], [];
    if op.AddVertexOp? || op.AddEdgeOp? || op.AddVerticesOp? || op.AddEdgesOp? {
      vs, es := DoAdd(g, op);
    } else if op.BeginOp? {
      var status := g.BeginUpdate();
    } else if op.CommitOp? {
      var status := g.CommitUpdate();
    } else if op.ShrinkOp? {
      var status := g.ShrinkToFit();
    } else {
      DoRemove(g, op);
    }
  }

  /** Any run without a reset. The log has every handle the run returned, in order, so until
      some slot has been retired 2^32 - 1 times no two of them are equal. */
  method Run(g: Graph, ops: seq<Op>) returns (vs: seq<Handle>, es: seq<Handle>)
    requires g.Valid()
    modifies g, g.storage
    ensures g.Valid() && LogWent(old(g.log), g.log, vs, es)
    ensures Young(g.log.vertexPast) ==> Distinct(vs)
    ensures Young(g.log.edgePast) ==> Distinct(es)
  {
    hide Graph.Valid, LogWent, Young, Distinct;
    vs, es := [], [];
    LogWentNowhere(g.log);
    for i := 0 to |ops|
      invariant g.Valid() && LogWent(old(g.log), g.log, vs, es)
    {
      ghost var mid := g.log;
      var vs', es' := Do(g, ops[i]);
      LogWentOn(old(g.log), mid, g.log, vs, es, vs', es');
      vs, es := vs + vs', es + es';
    }
    AllDistinct(g, old(g.log), vs, es);
  }

  /** No slot has been retired as often as there are generations. */
  ghost predicate Young(past: Past)
  {
    forall i :: 0 <= i < |past.retired| ==> past.retired[i] < CYCLE
  }

  lemma PoolDistinct(gens: seq<nat>, active: set<nat>, was: Past, past: Past, handles: seq<Handle>)
    requires PastOk(gens, active, past) && Went(was, past, handles) && Young(past)
    ensures Distinct(handles)
  {
    HandlesDistinct(gens, active, past);
    hide PastOk;
    var n := |was.issued|;
    forall j, k | 0 <= j < k < |handles| ensures handles[j] != handles[k] {
      assert HandleOf(past.issued[n + j]) == handles[j] && HandleOf(past.issued[n + k]) == handles[k];
    }
  }

  lemma AllDistinct(g: Graph, was: Log, vs: seq<Handle>, es: seq<Handle>)
    requires g.Valid() && LogWent(was, g.log, vs, es)
    ensures Young(g.log.vertexPast) ==> Distinct(vs)
    ensures Young(g.log.edgePast) ==> Distinct(es)
  {
    hide Structure, Times, Graph.Fits, Admitted, Kept, PastOk, Went, Young, Distinct;
    if Young(g.log.vertexPast) {
      PoolDistinct(VertexGens(g.vertices), ActiveVertices(g.vertices), was.vertexPast, g.log.vertexPast, vs);
    }
    if Young(g.log.edgePast) {
      PoolDistinct(EdgeGens(g.edges), ActiveEdges(g.edges), was.edgePast, g.log.edgePast, es);
    }
  }

  /** A handle that a run returned is rejected from the retirement of its slot on, until the
      slot has been retired 2^32 - 1 times: `k` is its place among the run's vertices. */
  lemma RunHandleStale(g: Graph, was: Log, vs: seq<Handle>, es: seq<Handle>, k: nat)
    requires g.Valid() && LogWent(was, g.log, vs, es) && k < |vs|
    ensures var past := g.log.vertexPast;
            var j := |was.vertexPast.issued| + k;
            && j < |past.issued| && past.issued[j].slot == vs[k].index < |past.retired|
            && past.issued[j].retired <= past.retired[vs[k].index]
            && var since := past.retired[vs[k].index] - past.issued[j].retired;
               && (g.VertexLive(vs[k]) <==> vs[k].index in ActiveVertices(g.vertices) && since % CYCLE == 0)
               && (0 < since < CYCLE ==> !g.VertexLive(vs[k]))
  {
    hide Graph.Valid;
    var j := |was.vertexPast.issued| + k;
    assert HandleOf(g.log.vertexPast.issued[j]) == vs[k];
    VertexHandleAccepted(g, j);
  }

  lemma RunEdgeHandleStale(g: Graph, was: Log, vs: seq<Handle>, es: seq<Handle>, k: nat)
    requires g.Valid() && LogWent(was, g.log, vs, es) && k < |es|
    ensures var past := g.log.edgePast;
            var j := |was.edgePast.issued| + k;
            && j < |past.issued| && past.issued[j].slot == es[k].index < |past.retired|
            && past.issued[j].retired <= past.retired[es[k].index]
            && var since := past.retired[es[k].index] - past.issued[j].retired;
               && (g.EdgeLive(es[k]) <==> es[k].index in ActiveEdges(g.edges) && since % CYCLE == 0)
               && (0 < since < CYCLE ==> !g.EdgeLive(es[k]))
  {
    hide Graph.Valid;
    var j := |was.edgePast.issued| + k;
    assert HandleOf(g.log.edgePast.issued[j]) == es[k];
    EdgeHandleAccepted(g, j);
  }

  // --- The oldest edge -------------------------------------------------------

  /** Live edges are dated before now. */
  lemma DatedBefore(g: Graph, h: Handle)
    requires g.Valid() && h in g.Model().edges
    ensures h.index < |g.log.stamps| && g.log.stamps[h.index] < g.log.clock
  {
    hide Sound, Admitted, Graph.Fits, Kept, Scannable, Chain;
    SoundSizes(g.State(), g.shape, g.log);
    assert NamesEdge(g.edges, h) && h.index in ActiveEdges(g.edges);
    hide Sides;
    EndpointsActive(g.State(), g.shape, h.index);
    ListReady(g.State(), g.shape, g.log, Out, g.edges[h.index].src);
    assert h.index in g.shape.outs[g.edges[h.index].src];
  }

  /** There is one eldest edge on a pair. */
  lemma EldestUnique(g: Graph, a: Handle, b: Handle, x: Handle, y: Handle)
    requires g.Valid() && Eldest(g.Model(), g.log.stamps, a, b, x) && Eldest(g.Model(), g.log.stamps, a, b, y)
    ensures x == y
  {
    hide Sound, Admitted, Graph.Fits, Kept, Scannable, Chain, InTime;
    SoundSizes(g.State(), g.shape, g.log);
    assert NamesEdge(g.edges, x) && NamesEdge(g.edges, y);
    assert x.index in ActiveEdges(g.edges) && y.index in ActiveEdges(g.edges);
    var v := g.edges[x.index].src;
    assert g.edges[y.index].src == v;
    hide Sides;
    EndpointsActive(g.State(), g.shape, x.index);
    ListReady(g.State(), g.shape, g.log, Out, v);
    SameAge(g.shape.outs[v], g.log.stamps, g.log.clock, x.index, y.index);
  }

  /** The eldest edge on a pair stays the eldest whatever edges are added. */
  lemma EldestStays(m: Multigraph, m': Multigraph, log: Log, log': Log, a: Handle, b: Handle, h: Handle, handles: seq<Handle>)
    requires Eldest(m, log.stamps, a, b, h) && DatedAll(log, log', handles) && !TakesSlot(handles, h.index)
    requires log.stamps[h.index] < log.clock && h in m'.edges && m'.edges[h] == (a, b)
    requires forall f :: f in m'.edges && f !in handles ==> f in m.edges && m'.edges[f] == m.edges[f] && !TakesSlot(handles, f.index)
    ensures Eldest(m', log'.stamps, a, b, h)
  {
    forall f | f in m'.edges && m'.edges[f] == (a, b)
      ensures f.index < |log'.stamps| && log'.stamps[h.index] <= log'.stamps[f.index]
    {
      if f in handles {
        var k :| 0 <= k < |handles| && handles[k] == f;
        assert log'.stamps[handles[k].index] == log.clock + k;
      }
    }
  }

  /** Edges from before a batch keep their ends, and no new edge is in the slot of one. */
  lemma {:induction false} EdgesAfterKeeps(es: map<Handle, (Handle, Handle)>, specs: seq<(Handle, Handle)>, handles: seq<Handle>, f: Handle)
    requires |specs| == |handles| && f !in handles
    ensures f in EdgesAfter(es, specs, handles) <==> f in es
    ensures f in es ==> EdgesAfter(es, specs, handles)[f] == es[f]
  {
    if specs != [] {
      var n := |specs| - 1;
      assert forall x :: x in handles[..n] ==> x in handles;
      EdgesAfterKeeps(es, specs[..n], handles[..n], f);
      assert handles[n] in handles;
    }
  }

  lemma EarlierKept(g: Graph, es: map<Handle, (Handle, Handle)>, specs: seq<(Handle, Handle)>, handles: seq<Handle>, f: Handle)
    requires |specs| == |handles| && g.Model().edges == EdgesAfter(es, specs, handles)
    requires f in g.Model().edges && f !in handles
    ensures f in es && g.Model().edges[f] == es[f] && !TakesSlot(handles, f.index)
  {
    hide Abs, EdgesAfter;
    EdgesAfterKeeps(es, specs, handles, f);
    EdgesAfterKeys(es, specs, handles);
    forall k | 0 <= k < |handles| ensures handles[k].index != f.index {
      assert handles[k] in handles;
      if handles[k].index == f.index { SlotNames(g, handles[k], f); }
    }
  }

  /** The eldest edge on a pair is still that after a batch. */
  lemma EldestAfterBatch(g: Graph, m: Multigraph, log: Log, a: Handle, b: Handle, h: Handle,
                         specs: seq<(Handle, Handle)>, handles: seq<Handle>)
    requires |specs| == |handles| && g.Model() == m.(edges := EdgesAfter(m.edges, specs, handles))
    requires New(m.edges, handles) && DatedAll(log, g.log, handles)
    requires Eldest(m, log.stamps, a, b, h) && log.stamps[h.index] < log.clock
    ensures Eldest(g.Model(), g.log.stamps, a, b, h)
  {
    hide Abs, DatedAll, TakesSlot;
    assert h !in handles;
    EdgesAfterKeeps(m.edges, specs, handles, h);
    forall f | f in g.Model().edges && f !in handles
      ensures f in m.edges && g.Model().edges[f] == m.edges[f] && !TakesSlot(handles, f.index)
    {
      EarlierKept(g, m.edges, specs, handles, f);
    }
    EldestStays(m, g.Model(), log, g.log, a, b, h, handles);
  }

  /** On a directed graph a lookup goes on finding the same edge, whatever edges are added
      after. */
  method LookupStands(g: Graph, a: Handle, b: Handle, specs: seq<(Handle, Handle)>) returns (found: Handle, again: Handle, status: Status)
    requires g.Valid() && g.directed
    modifies g, g.storage
    ensures g.Valid() && status == if !old(a in g.Model().vertices && b in g.Model().vertices) then Stale
                                   else if old(g.Joined(a, b)) then Ok else NotFound
    ensures status == Ok ==> again == found
  {
    hide Graph.Valid, Abs, Extends, Eldest, EdgesAfter, New, EdgesLogged, Refused, SomeJoins;
    status, found := g.FindEdge(a, b);
    again := found;
    if status != Ok { return; }
    ghost var m, log := g.Model(), g.log;
    EldestDated(g, a, b, found);
    var handles := AddEdges(g, specs);
    LoggedDates(log, g.log, handles);
    EldestAfterBatch(g, m, log, a, b, found, specs[..|handles|], handles);
    var second;
    second, again := g.FindEdge(a, b);
    SameFound(g, a, b, found, again, second);
  }

  lemma LoggedDates(was: Log, now: Log, handles: seq<Handle>)
    requires EdgesLogged(was, now, handles)
    ensures DatedAll(was, now, handles)
  {
  }

  lemma EldestDated(g: Graph, a: Handle, b: Handle, h: Handle)
    requires g.Valid() && Eldest(g.Model(), g.log.stamps, a, b, h)
    ensures h.index < |g.log.stamps| && g.log.stamps[h.index] < g.log.clock
  {
    hide Graph.Valid;
    DatedBefore(g, h);
  }

  lemma SameFound(g: Graph, a: Handle, b: Handle, x: Handle, y: Handle, status: Status)
    requires g.Valid() && Eldest(g.Model(), g.log.stamps, a, b, x)
    requires a in g.Model().vertices && b in g.Model().vertices && status != Stale
    requires status == NotFound <==> status != Stale && !g.Joined(a, b)
    requires status in {Ok, Stale, NotFound} && (status == Ok ==> Eldest(g.Model(), g.log.stamps, a, b, y))
    ensures x == y
  {
    hide Graph.Valid, Abs;
    JoinedExactly(g, a, b);
    assert Pairs(g.Model().edges[x], g.directed, a, b);
    EldestUnique(g, a, b, x, y);
  }

  /** The first edge added between a pair is the one a lookup finds, whatever edges are
      added after it. */
  method FirstAddedIsFound(g: Graph, a: Handle, b: Handle, specs: seq<(Handle, Handle)>) returns (first: Handle, found: Handle, status: Status)
    requires g.Valid() && g.directed && !g.Joined(a, b)
    modifies g, g.storage
    ensures g.Valid() && (status == Ok ==> found == first)
  {
    hide Graph.Valid, Abs, Extends, EdgesAfter, New, EdgesLogged, Refused, SomeJoins, Eldest, EdgeLogged;
    found := Handle(0, 0);
    ghost var m := g.Model();
    NoneYet(g, a, b);
    status, first := g.AddEdge(a, b);
    if status != Ok { return; }
    OnlyEldest(g, m, a, b, first);
    EldestDated(g, a, b, first);
    ghost var m1, log := g.Model(), g.log;
    var handles := AddEdges(g, specs);
    LoggedDates(log, g.log, handles);
    EldestAfterBatch(g, m1, log, a, b, first, specs[..|handles|], handles);
    var lookup;
    lookup, found := g.FindEdge(a, b);
    SameFound(g, a, b, first, found, lookup);
  }

  lemma NoneYet(g: Graph, a: Handle, b: Handle)
    requires g.Valid() && !g.Joined(a, b)
    ensures forall f :: f in g.Model().edges ==> g.Model().edges[f] != (a, b)
  {
    forall f | f in g.Model().edges ensures g.Model().edges[f] != (a, b) {
      assert NamesEdge(g.edges, f);
      assert f.index in ActiveEdges(g.edges);
    }
  }

  lemma OnlyEldest(g: Graph, m: Multigraph, a: Handle, b: Handle, h: Handle)
    requires g.Valid() && g.Model() == m.(edges := m.edges[h := (a, b)])
    requires forall f :: f in m.edges ==> m.edges[f] != (a, b)
    ensures Eldest(g.Model(), g.log.stamps, a, b, h)
  {
    hide Graph.Valid, Abs;
    DatedBefore(g, h);
  }
}
