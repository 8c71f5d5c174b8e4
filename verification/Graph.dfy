/** The graph object: its operations change the pools in place, keep every invariant, and
    do to the plain multigraph what their names say. */
module Graphs {
  import opened GraphPools
  import opened GraphShape
  import opened GraphStructure
  import opened GraphLinking
  import opened GraphSteps
  import opened GraphHandles
  import opened GraphHistory
  import opened GraphModel
  import opened GraphLocate
  import opened GraphEffects
  import opened GraphVersion
  import opened GraphStorage

  class Graph {
    const directed: bool
    const rejectParallel: bool
    const rejectLoops: bool
    const storage: Storage

    var vertices: seq<VertexRec>
    var edges: seq<EdgeRec>
    var vertexFree: nat
    var edgeFree: nat
    var vertexCount: nat
    var edgeCount: nat
    var version: nat
    var inUpdate: bool
    var updateDirty: bool

    ghost var shape: Shape
    ghost var log: Log
    ghost var past: map<nat, Snapshot>

    function State(): Pools
      reads this
    {
      Pools(vertices, edges, vertexFree, edgeFree, vertexCount, edgeCount)
    }

    /** The multigraph this graph stands for. */
    function Model(): Multigraph
      reads this
    {
      Abs(State())
    }

    function Time(): Clock
      reads this
    {
      Clock(version, inUpdate, updateDirty)
    }

    ghost function Now(): Snapshot
      reads this
    {
      Snapshot(State(), shape)
    }

    ghost predicate Topology()
      reads this
    {
      Sound(State(), shape, log) && Admitted(edges, directed, rejectParallel, rejectLoops)
    }

    ghost predicate Fits()
      reads this, storage
    {
      storage.Valid() && |vertices| <= storage.vertexCapacity && |edges| <= storage.edgeCapacity
    }

    ghost predicate Valid()
      reads this, storage
    {
      Topology() && Fits() && Kept(Time(), past, Now())
    }

    /** Nothing about the topology has changed. */
    twostate predicate Unchanged()
      reads this
    {
      && State() == old(State()) && shape == old(shape) && log == old(log)
      && Time() == old(Time()) && past == old(past)
    }

    constructor (directed: bool, rejectParallel: bool, rejectLoops: bool, storage: Storage)
      requires storage.Valid()
      ensures Valid() && Model() == Empty && Time() == Clock(1, false, false) && this.storage == storage
      ensures this.directed == directed && this.rejectParallel == rejectParallel && this.rejectLoops == rejectLoops
    {
      this.directed, this.rejectParallel, this.rejectLoops := directed, rejectParallel, rejectLoops;
      this.storage := storage;
      vertices, edges, vertexFree, edgeFree, vertexCount, edgeCount := [], [], INVALID_INDEX, INVALID_INDEX, 0, 0;
      version, inUpdate, updateDirty := 1, false, false;
      shape, log := NoShape, NoLog;
      past := map[1 := Snapshot(NoPools, NoShape)];
      new;
      hide Sound, Abs, Admitted, Storage.Valid;
      EmptyEffect(directed, rejectParallel, rejectLoops);
    }

    // --- Version and update phase --------------------------------------------

    method Touch()
      requires Timely(Time(), past)
      modifies this`version, this`updateDirty, this`past
      ensures Time() == Touched(old(Time())) && Kept(Time(), past, Now()) && Extends(old(past), past)
    {
      if inUpdate { updateDirty := true; } else { version := version + 1; }
      past := Noted(Time(), past, Now());
    }

    method BeginUpdate() returns (status: Status)
      requires Valid()
      modifies this`inUpdate, this`updateDirty
      ensures Valid() && Time() == Begun(old(Time())) && status == if old(inUpdate) then Invalid else Ok
    {
      hide Sound, Admitted, Storage.Valid;
      if inUpdate { return Invalid; }
      inUpdate, updateDirty := true, false;
      status := Ok;
    }

    method Commit()
      requires Valid() && inUpdate
      modifies this`inUpdate, this`updateDirty, this`version, this`past
      ensures Valid() && Time() == Committed(old(Time())) && Extends(old(past), past)
    {
      hide Sound, Admitted, Storage.Valid;
      inUpdate := false;
      if updateDirty {
        updateDirty := false;
        version := version + 1;
      }
      past := Noted(Time(), past, Now());
    }

    method CommitUpdate() returns (status: Status)
      requires Valid()
      modifies this`inUpdate, this`updateDirty, this`version, this`past
      ensures Valid() && Time() == Committed(old(Time())) && Extends(old(past), past)
      ensures status == if old(inUpdate) then Ok else Invalid
    {
      if !inUpdate { return Invalid; }
      Commit();
      status := Ok;
    }

    // --- Handles -------------------------------------------------------------

    predicate VertexLive(h: Handle)
      reads this
    {
      h.generation != 0 && h.index < |vertices| && vertices[h.index].active && vertices[h.index].generation == h.generation
    }

    predicate EdgeLive(h: Handle)
      reads this
    {
      h.generation != 0 && h.index < |edges| && edges[h.index].active && edges[h.index].generation == h.generation
    }

    /** A handle is accepted exactly if it names something in the multigraph. */
    lemma LiveExactly(h: Handle)
      requires Topology()
      ensures VertexLive(h) <==> h in Model().vertices
      ensures EdgeLive(h) <==> h in Model().edges
      ensures VertexLive(h) <==> Live(VertexGens(vertices), ActiveVertices(vertices), h)
      ensures EdgeLive(h) <==> Live(EdgeGens(edges), ActiveEdges(edges), h)
    {
    }

    lemma LiveOnes(h: Handle)
      requires Valid()
      ensures VertexLive(h) <==> h in Model().vertices
      ensures EdgeLive(h) <==> h in Model().edges
    {
      LiveExactly(h);
    }

    lemma TopologySlots()
      requires Topology()
      ensures vertexFree == INVALID_INDEX || vertexFree < |vertices|
      ensures vertexFree == INVALID_INDEX ==> vertexCount == |vertices|
      ensures edgeFree == INVALID_INDEX || edgeFree < |edges|
      ensures edgeFree == INVALID_INDEX ==> edgeCount == |edges|
    {
      hide Structure;
      VertexSlotFacts(State(), shape);
      EdgeSlotFacts(State(), shape);
    }

    // --- Vertices ------------------------------------------------------------

    /** Takes a slot: a recycled one, or the next beyond the high-water mark, growing the
        pool if it must. */
    method TakeVertex() returns (status: Status, index: nat)
      requires Fits() && (vertexFree == INVALID_INDEX || vertexFree < |vertices|)
      modifies this`vertices, this`vertexFree, storage
      ensures Fits() && storage.Steady() && status in {Ok, Full, NoMemory}
      ensures storage.refusals == old(storage.refusals) + if status == NoMemory then 1 else 0
      ensures status == Full ==> !storage.growable || AtCeiling(storage.vertexCapacity, storage.maxVertices)
      ensures status != Ok ==> vertices == old(vertices) && vertexFree == old(vertexFree)
      ensures status != Ok ==> vertexFree == INVALID_INDEX && |vertices| == storage.vertexCapacity
      ensures status == Ok ==> index == AddedVertex(old(State())) && HasVertexSlot(old(State()))
      ensures status == Ok ==> State() == TakenVertex(old(State()))
      ensures storage.vertexCapacity != old(storage.vertexCapacity) ==>
                old(vertexFree == INVALID_INDEX && |vertices| == storage.vertexCapacity) && storage.vertexCapacity == Clamp(NextCapacity(old(storage.vertexCapacity)), storage.maxVertices)
    {
      hide Accounts;
      if vertexFree != INVALID_INDEX {
        index := vertexFree;
        vertexFree := vertices[index].outs.head;
        return Ok, index;
      }
      index := |vertices|;
      if |vertices| == storage.vertexCapacity {
        status := storage.GrowVertices(|vertices|);
        if status != Ok { return; }
      }
      vertices := vertices + [VertexRec(NoEnds, NoEnds, 1, false)];
      status := Ok;
    }

    /** Fills in the slot just taken from pools p. */
    method FillVertex(index: nat, ghost p: Pools) returns (handle: Handle)
      requires Sound(p, shape, log) && HasVertexSlot(p) && Admitted(p.edges, directed, rejectParallel, rejectLoops)
      requires (p.vertexFree == INVALID_INDEX || p.vertexFree < |p.vertices|) && State() == TakenVertex(p)
      requires index == AddedVertex(p)
      modifies this`vertices, this`vertexCount, this`shape, this`log
      ensures Topology() && |vertices| == old(|vertices|) && vertexCount == old(vertexCount) + 1
      ensures handle !in Abs(p).vertices
      ensures Model() == Abs(p).(vertices := Abs(p).vertices + {handle})
      ensures VertexLogged(old(log), log, handle)
    {
      hide Sound, Admitted, AddVertexShape, Abs, EdgeLogged, VertexLogged;
      vertices := vertices[index := vertices[index].(outs := NoEnds, ins := NoEnds, active := true)];
      vertexCount := vertexCount + 1;
      AddVertexEffect(p, shape, log);
      assert State() == GraphSteps.AddVertex(p);
      shape, log := AddVertexShape(p, shape), AddVertexLog(p, log);
      handle := Handle(index, vertices[index].generation);
    }

    method AddVertex() returns (status: Status, handle: Handle)
      requires Valid()
      modifies this, storage
      ensures Valid() && Extends(old(past), past) && storage.Steady()
      ensures status in {Ok, Full, NoMemory}
      ensures storage.refusals == old(storage.refusals) + if status == NoMemory then 1 else 0
      ensures status == Full ==> !storage.growable || AtCeiling(storage.vertexCapacity, storage.maxVertices)
      ensures status != Ok ==> Unchanged()
      ensures old(vertexCount) < old(storage.vertexCapacity) ==> status == Ok
      ensures status != Ok ==> vertexCount == storage.vertexCapacity
      ensures status == Ok ==>
                && vertexCount == old(vertexCount) + 1 && handle !in old(Model()).vertices
                && Model() == old(Model()).(vertices := old(Model()).vertices + {handle})
                && Time() == Touched(old(Time()))
                && VertexLogged(old(log), log, handle)
      ensures storage.vertexCapacity != old(storage.vertexCapacity) ==>
                old(vertexCount == storage.vertexCapacity) && storage.vertexCapacity == Clamp(NextCapacity(old(storage.vertexCapacity)), storage.maxVertices)
    {
      hide Sound, Admitted, Accounts, Abs, EdgeLogged, VertexLogged, TakenVertex;
      ghost var p := State();
      TopologySlots();
      var index: nat;
      status, index := TakeVertex();
      handle := Handle(index, 0);
      if status != Ok { return; }
      handle := FillVertex(index, p);
      Touch();
    }

    // --- Intrusive list maintenance ------------------------------------------

    method LinkSide(side: Side, e: nat)
      requires CanAppend(RecordsOf(State()), side, e)
      modifies this`vertices, this`edges
      ensures RecordsOf(State()) == Append(old(RecordsOf(State())), side, e)
      ensures |vertices| == old(|vertices|) && |edges| == old(|edges|)
    {
      var v := Owner(edges[e], side);
      var ends := EndsOf(vertices[v], side);
      edges := edges[e := WithLinks(edges[e], side, Links(INVALID_INDEX, ends.tail))];
      var head := ends.head;
      if ends.tail == INVALID_INDEX {
        head := e;
      } else {
        edges := SetNext(edges, side, ends.tail, e);
      }
      vertices := vertices[v := WithEnds(vertices[v], side, Ends(head, e, Increment(ends.degree)))];
    }

    /** Fills in edge e and appends it to its source's out-list and its destination's
        in-list. */
    method LinkEdge(e: nat, src: nat, dst: nat, ghost p: Pools)
      requires CanAddEdge(p, src, dst) && e == AddedEdge(p) && State() == TakenEdge(p)
      modifies this`vertices, this`edges
      ensures State().(edgeCount := p.edgeCount + 1) == GraphSteps.AddEdge(p, src, dst)
      ensures |vertices| == old(|vertices|) && |edges| == old(|edges|)
    {
      hide Append;
      edges := edges[e := edges[e].(src := src, dst := dst, active := true)];
      assert RecordsOf(State()) == RecordsOf(TakeEdge(p, src, dst));
      LinkSide(Out, e);
      LinkSide(In, e);
    }

    method UnlinkSide(side: Side, e: nat)
      requires CanUnlink(RecordsOf(State()), side, e)
      modifies this`vertices, this`edges
      ensures RecordsOf(State()) == Unlink(old(RecordsOf(State())), side, e)
    {
      var v, links := Owner(edges[e], side), LinksOf(edges[e], side);
      var ends := EndsOf(vertices[v], side);
      var head, tail := ends.head, ends.tail;
      if links.prev == INVALID_INDEX { head := links.next; } else { edges := SetNext(edges, side, links.prev, links.next); }
      if links.next == INVALID_INDEX { tail := links.prev; } else { edges := SetPrev(edges, side, links.next, links.prev); }
      vertices := vertices[v := WithEnds(vertices[v], side, Ends(head, tail, Decrement(ends.degree)))];
    }

    /** Unlinks an edge from both lists, retires its slot and recycles it. */
    method ReleaseEdge(e: nat)
      requires Topology() && e in ActiveEdges(edges)
      modifies this`vertices, this`edges, this`edgeFree, this`edgeCount, this`shape, this`log
      ensures Topology() && CanRelease(old(State()), e) && State() == Release(old(State()), e)
      ensures |vertices| == old(|vertices|) && |edges| == old(|edges|)
      ensures old(edges)[e].src < |old(shape).outs| && old(edges)[e].dst < |old(shape).ins|
      ensures shape == ReleaseShape(old(State()), old(shape), e) && log == ReleaseLog(old(log), e)
      ensures Model() == old(Model()).(edges := old(Model()).edges - {Handle(e, old(edges)[e].generation)})
      ensures ActiveEdges(edges) == old(ActiveEdges(edges)) - {e} && KeepsOthers(old(State()), State(), e)
    {
      hide Sound, Admitted, Abs, Unlink, ReleaseShape;
      ghost var p := State();
      ReleaseEffect(p, shape, log, e);
      ReleaseAdmitted(p, shape, log, e, directed, rejectParallel, rejectLoops);
      UnlinkSide(Out, e);
      UnlinkSide(In, e);
      var rec := edges[e];
      edges := edges[e := rec.(active := false, generation := Bump(rec.generation), outs := rec.outs.(next := edgeFree))];
      edgeFree := e;
      edgeCount := Decrement(edgeCount);
      assert State() == Release(p, e);
      shape, log := ReleaseShape(p, shape, e), ReleaseLog(log, e);
    }

    // --- Removing a vertex ---------------------------------------------------

    /** Releases the edge at the head of a list of vertex v; the next link is read before
        the release overwrites it. */
    method ReleaseHead(side: Side, v: nat, e: nat) returns (next: nat)
      requires Topology() && v in ActiveVertices(vertices) && |shape.outs| == |shape.ins| == |vertices|
      requires e != INVALID_INDEX && e == First(ListsOf(shape, side)[v])
      modifies this`vertices, this`edges, this`edgeFree, this`edgeCount, this`shape, this`log
      ensures Topology() && |vertices| == old(|vertices|) && |edges| == old(|edges|)
      ensures |shape.outs| == |shape.ins| == |vertices|
      ensures ListsOf(shape, side)[v] == old(ListsOf(shape, side)[v])[1..] && next == First(ListsOf(shape, side)[v])
      ensures old(ListsOf(shape, Other(side))[v]) == [] ==> ListsOf(shape, Other(side))[v] == []
      ensures v in ActiveVertices(vertices) && VertexHandle(vertices, v) == VertexHandle(old(vertices), v)
      ensures e in old(ActiveEdges(edges)) && ActiveEdges(edges) == old(ActiveEdges(edges)) - {e}
      ensures log == ReleaseLog(old(log), e)
      ensures var h := Handle(e, old(edges)[e].generation);
              && h in old(Model()).edges && Touches(old(Model()).edges[h], VertexHandle(old(vertices), v))
              && Model() == old(Model()).(edges := old(Model()).edges - {h})
    {
      hide Sound, Admitted, Abs, Release, ReleaseShape, Drop, Sides;
      SoundSizes(State(), shape, log);
      HeadRelease(State(), shape, side, v);
      ListedTouches(State(), side, v, e);
      next := LinksOf(edges[e], side).next;
      ReleaseEdge(e);
      HeadReleased(old(State()), old(shape), side, v, e);
    }

    /** Releases everything on one list of vertex v. */
    method ReleaseList(side: Side, v: nat) returns (ghost gone: set<Handle>)
      requires Topology() && v in ActiveVertices(vertices) && |shape.outs| == |shape.ins| == |vertices|
      modifies this`vertices, this`edges, this`edgeFree, this`edgeCount, this`shape, this`log
      ensures Topology() && |vertices| == old(|vertices|) && |edges| == old(|edges|)
      ensures |shape.outs| == |shape.ins| == |vertices| && ListsOf(shape, side)[v] == []
      ensures old(ListsOf(shape, Other(side))[v]) == [] ==> ListsOf(shape, Other(side))[v] == []
      ensures v in ActiveVertices(vertices) && VertexHandle(vertices, v) == VertexHandle(old(vertices), v)
      ensures Detached(old(Model()), Model(), VertexHandle(vertices, v), gone)
      ensures ActiveEdges(edges) <= old(ActiveEdges(edges))
      ensures log == old(log).(edgePast := Retired(old(log).edgePast, old(ActiveEdges(edges)) - ActiveEdges(edges)))
    {
      hide Sound, Admitted, Abs, Retired, Sides, Touches;
      SoundSizes(State(), shape, log);
      HeadIs(State(), shape, side, v);
      RetireNone(log.edgePast, ActiveEdges(edges));
      gone := {};
      var e: nat := EndsOf(vertices[v], side).head;
      while e != INVALID_INDEX
        invariant Topology() && |vertices| == old(|vertices|) && |edges| == old(|edges|)
        invariant |shape.outs| == |shape.ins| == |vertices| && e == First(ListsOf(shape, side)[v])
        invariant old(ListsOf(shape, Other(side))[v]) == [] ==> ListsOf(shape, Other(side))[v] == []
        invariant v in ActiveVertices(vertices) && VertexHandle(vertices, v) == VertexHandle(old(vertices), v)
        invariant Detached(old(Model()), Model(), VertexHandle(vertices, v), gone)
        invariant ActiveEdges(edges) <= old(ActiveEdges(edges))
        invariant log == old(log).(edgePast := Retired(old(log).edgePast, old(ActiveEdges(edges)) - ActiveEdges(edges)))
        decreases |ListsOf(shape, side)[v]|
      {
        ghost var m, rest, h := Model(), ActiveEdges(edges), VertexHandle(vertices, v);
        ghost var x := if e < |edges| then Handle(e, edges[e].generation) else Handle(0, 0);
        e := ReleaseHead(side, v, e);
        DetachOne(old(Model()), m, Model(), h, gone, x);
        gone := gone + {x};
        RetireOne(old(log).edgePast, old(ActiveEdges(edges)), rest, x.index);
      }
      SoundSizes(State(), shape, log);
      HeadIs(State(), shape, side, v);
    }

    /** Releases everything incident to v: first its out-list, self-loops with it, then what
        is left of its in-list. */
    method DetachVertex(v: nat)
      requires Topology() && v in ActiveVertices(vertices)
      modifies this`vertices, this`edges, this`edgeFree, this`edgeCount, this`shape, this`log
      ensures Topology() && |vertices| == old(|vertices|) && |edges| == old(|edges|)
      ensures v in ActiveVertices(vertices) && VertexHandle(vertices, v) == VertexHandle(old(vertices), v)
      ensures |shape.outs| == |shape.ins| == |vertices| && shape.outs[v] == [] && shape.ins[v] == []
      ensures Model() == old(Model()).(edges := WithoutVertex(old(Model()), VertexHandle(vertices, v)).edges)
      ensures log == old(log).(edgePast := Retired(old(log).edgePast, IncidentSlots(old(edges), v)))
    {
      hide Sound, Admitted, Abs, Retired, Sides, Touches, WithoutVertex, IncidentSlots;
      SoundSizes(State(), shape, log);
      ghost var m, h, all := Model(), VertexHandle(vertices, v), ActiveEdges(edges);
      ghost var gone := ReleaseList(Out, v);
      ghost var m1, left := Model(), ActiveEdges(edges);
      ghost var more := ReleaseList(In, v);
      DetachedTwice(m, m1, Model(), h, gone, more);
      SoundSizes(State(), shape, log);
      Isolated(State(), shape, v);
      RemovedVertex(m, Model().edges, h, gone + more);
      assert WithoutVertex(m, h).edges == Model().edges;
      RetiredTwice(old(log).edgePast, all - left, left - ActiveEdges(edges));
      assert (all - left) + (left - ActiveEdges(edges)) == all - ActiveEdges(edges);
      IncidentGone(old(State()), State(), v);
    }

    /** Retires vertex v, which has no edges left, and recycles its slot. */
    method RetireVertex(v: nat)
      requires Topology() && v in ActiveVertices(vertices)
      requires |shape.outs| == |shape.ins| == |vertices| && shape.outs[v] == [] && shape.ins[v] == []
      modifies this`vertices, this`vertexFree, this`vertexCount, this`shape, this`log
      ensures Topology() && |vertices| == old(|vertices|) && log == RetireLog(old(log), v)
      ensures Model() == old(Model()).(vertices := old(Model()).vertices - {VertexHandle(old(vertices), v)})
    {
      hide Sound, Admitted, Abs;
      RetireEffect(State(), shape, log, v);
      ghost var p := State();
      var rec := vertices[v];
      vertices := vertices[v := rec.(active := false, generation := Bump(rec.generation), outs := rec.outs.(head := vertexFree))];
      vertexFree := v;
      vertexCount := Decrement(vertexCount);
      assert State() == Retire(p, v);
      shape, log := RetireShape(shape, v), RetireLog(log, v);
    }

    method RemoveVertex(h: Handle) returns (status: Status)
      requires Valid()
      modifies this`vertices, this`edges, this`vertexFree, this`vertexCount, this`edgeFree, this`edgeCount,
               this`version, this`updateDirty, this`shape, this`log, this`past
      ensures Valid() && Extends(old(past), past)
      ensures status == if h in old(Model()).vertices then Ok else Stale
      ensures status != Ok ==> Unchanged()
      ensures status == Ok ==>
                && Model() == WithoutVertex(old(Model()), h) && Time() == Touched(old(Time()))
                && log == old(log).(vertexPast := Retired(old(log).vertexPast, {h.index}),
                                    edgePast := Retired(old(log).edgePast, IncidentSlots(old(edges), h.index)))
    {
      hide Sound, Admitted, Abs, Retired, Touches, Storage.Valid, IncidentSlots;
      LiveExactly(h);
      if !VertexLive(h) { return Stale; }
      var v := h.index;
      DetachVertex(v);
      RetireVertex(v);
      Touch();
      status := Ok;
    }

    // --- Edges ---------------------------------------------------------------

    /** Some live edge joins the two vertices. */
    ghost predicate Joined(a: Handle, b: Handle)
      reads this
    {
      SomeJoins(edges, directed, a.index, b.index)
    }

    method Locate(a: nat, b: nat) returns (e: nat)
      requires Topology() && a in ActiveVertices(vertices) && b in ActiveVertices(vertices)
      ensures e != INVALID_INDEX <==> SomeJoins(edges, directed, a, b)
      ensures e != INVALID_INDEX ==> e in ActiveEdges(edges) && Joins(edges[e], directed, a, b)
      ensures |log.stamps| == |edges|
      ensures directed && e != INVALID_INDEX ==> Oldest(edges, log.stamps, a, b, e)
      ensures !directed ==> FirstBetween(edges, shape, a, b, e)
    {
      hide Sound, Admitted, Oldest, Scannable, FirstBetween;
      SoundSizes(State(), shape, log);
      TimesSize(State(), shape, log);
      e := LocateEdge(State(), directed, a, b, shape, log);
    }

    method TakeEdgeSlot() returns (status: Status, index: nat)
      requires Fits() && (edgeFree == INVALID_INDEX || edgeFree < |edges|)
      modifies this`edges, this`edgeFree, storage
      ensures Fits() && storage.Steady() && status in {Ok, Full, NoMemory}
      ensures storage.refusals == old(storage.refusals) + if status == NoMemory then 1 else 0
      ensures status == Full ==> !storage.growable || AtCeiling(storage.edgeCapacity, storage.maxEdges)
      ensures status != Ok ==> edges == old(edges) && edgeFree == old(edgeFree)
      ensures status != Ok ==> edgeFree == INVALID_INDEX && |edges| == storage.edgeCapacity
      ensures status == Ok ==> index == AddedEdge(old(State())) && HasEdgeSlot(old(State()))
      ensures status == Ok ==> State() == TakenEdge(old(State()))
      ensures storage.edgeCapacity != old(storage.edgeCapacity) ==>
                old(edgeFree == INVALID_INDEX && |edges| == storage.edgeCapacity) && storage.edgeCapacity == Clamp(NextCapacity(old(storage.edgeCapacity)), storage.maxEdges)
    {
      hide Accounts;
      if edgeFree != INVALID_INDEX {
        index := edgeFree;
        edgeFree := edges[index].outs.next;
        return Ok, index;
      }
      index := |edges|;
      if |edges| == storage.edgeCapacity {
        status := storage.GrowEdges(|edges|);
        if status != Ok { return; }
      }
      edges := edges + [EdgeRec(0, 0, NoLinks, NoLinks, 1, false)];
      status := Ok;
    }

    /** Fills in the slot just taken from pools p and links it. */
    method FillEdge(e: nat, src: nat, dst: nat, ghost p: Pools) returns (handle: Handle)
      requires Sound(p, shape, log) && HasEdgeSlot(p) && Admitted(p.edges, directed, rejectParallel, rejectLoops)
      requires src in ActiveVertices(p.vertices) && dst in ActiveVertices(p.vertices)
      requires (rejectLoops ==> src != dst) && (rejectParallel ==> !SomeJoins(p.edges, directed, src, dst))
      requires (p.edgeFree == INVALID_INDEX || p.edgeFree < |p.edges|) && State() == TakenEdge(p) && e == AddedEdge(p)
      modifies this`vertices, this`edges, this`edgeCount, this`shape, this`log
      ensures Topology() && |vertices| == old(|vertices|) && |edges| == old(|edges|) && handle !in Abs(p).edges
      ensures edgeCount == old(edgeCount) + 1
      ensures Model() == Abs(p).(edges := Abs(p).edges[handle := (VertexHandle(p.vertices, src), VertexHandle(p.vertices, dst))])
      ensures EdgeLogged(old(log), log, handle)
    {
      hide Sound, Admitted, Abs, GraphSteps.AddEdge, AddEdgeShape, EdgeLogged, VertexLogged, SomeJoins;
      AddEdgeEffect(p, shape, log, src, dst);
      AddEdgeAdmitted(p, shape, log, src, dst, directed, rejectParallel, rejectLoops);
      LinkEdge(e, src, dst, p);
      edgeCount := edgeCount + 1;
      assert State() == GraphSteps.AddEdge(p, src, dst);
      shape, log := AddEdgeShape(p, shape, src, dst), AddEdgeLog(p, log);
      handle := Handle(e, edges[e].generation);
    }

    /** Whether an edge may be added between the two. */
    method Admit(src: Handle, dst: Handle) returns (status: Status)
      requires Valid()
      ensures status == Stale <==> src !in Model().vertices || dst !in Model().vertices
      ensures status == Invalid <==> status != Stale && rejectLoops && src.index == dst.index
      ensures status == Exists <==> status !in {Stale, Invalid} && rejectParallel && Joined(src, dst)
      ensures status in {Ok, Stale, Invalid, Exists}
    {
      hide Sound, Admitted, Abs, SomeJoins, Oldest, FirstBetween;
      LiveExactly(src);
      LiveExactly(dst);
      if !VertexLive(src) || !VertexLive(dst) { return Stale; }
      if rejectLoops && src.index == dst.index { return Invalid; }
      if rejectParallel {
        var found := Locate(src.index, dst.index);
        if found != INVALID_INDEX { return Exists; }
      }
      status := Ok;
    }

    /** Takes a slot for an edge that may be added, and links it. */
    method PlaceEdge(src: Handle, dst: Handle) returns (status: Status, handle: Handle)
      requires Valid() && src in Model().vertices && dst in Model().vertices
      requires (rejectLoops ==> src.index != dst.index) && (rejectParallel ==> !Joined(src, dst))
      modifies this, storage
      ensures Valid() && Extends(old(past), past) && storage.Steady()
      ensures status in {Ok, Full, NoMemory}
      ensures storage.refusals == old(storage.refusals) + if status == NoMemory then 1 else 0
      ensures status == Full ==> !storage.growable || AtCeiling(storage.edgeCapacity, storage.maxEdges)
      ensures status != Ok ==> Unchanged() && edgeCount == storage.edgeCapacity
      ensures status == Ok ==>
                && handle !in old(Model()).edges && edgeCount == old(edgeCount) + 1
                && Model() == old(Model()).(edges := old(Model()).edges[handle := (src, dst)])
                && Time() == Touched(old(Time()))
                && EdgeLogged(old(log), log, handle)
      ensures storage.edgeCapacity != old(storage.edgeCapacity) ==>
                old(edgeCount == storage.edgeCapacity) && storage.edgeCapacity == Clamp(NextCapacity(old(storage.edgeCapacity)), storage.maxEdges)
    {
      hide Sound, Admitted, Accounts, Abs, EdgeLogged, VertexLogged, TakenEdge, SomeJoins, Storage.Valid;
      LiveExactly(src);
      LiveExactly(dst);
      TopologySlots();
      ghost var p := State();
      handle := Handle(0, 0);
      var e: nat;
      status, e := TakeEdgeSlot();
      if status != Ok { return; }
      handle := FillEdge(e, src.index, dst.index, p);
      Touch();
    }

    method AddEdge(src: Handle, dst: Handle) returns (status: Status, handle: Handle)
      requires Valid()
      modifies this, storage
      ensures Valid() && Extends(old(past), past) && storage.Steady()
      ensures status == Stale <==> src !in old(Model()).vertices || dst !in old(Model()).vertices
      ensures status == Invalid <==> status != Stale && rejectLoops && src.index == dst.index
      ensures status == Exists <==> status !in {Stale, Invalid} && rejectParallel && old(Joined(src, dst))
      ensures status in {Ok, Stale, Invalid, Exists, Full, NoMemory}
      ensures storage.refusals == old(storage.refusals) + if status == NoMemory then 1 else 0
      ensures status == Full ==> !storage.growable || AtCeiling(storage.edgeCapacity, storage.maxEdges)
      ensures status in {Full, NoMemory} ==> edgeCount == storage.edgeCapacity
      ensures status != Ok ==> Unchanged()
      ensures status == Ok ==>
                && handle !in old(Model()).edges && edgeCount == old(edgeCount) + 1
                && Model() == old(Model()).(edges := old(Model()).edges[handle := (src, dst)])
                && Time() == Touched(old(Time()))
                && EdgeLogged(old(log), log, handle)
      ensures storage.edgeCapacity != old(storage.edgeCapacity) ==>
                old(edgeCount == storage.edgeCapacity) && storage.edgeCapacity == Clamp(NextCapacity(old(storage.edgeCapacity)), storage.maxEdges)
    {
      hide Topology, Fits, Abs, Kept, EdgeLogged, VertexLogged, SomeJoins;
      handle := Handle(0, 0);
      status := Admit(src, dst);
      if status != Ok { return; }
      status, handle := PlaceEdge(src, dst);
    }

    method DropEdge(e: nat)
      requires Valid() && e in ActiveEdges(edges)
      modifies this`vertices, this`edges, this`edgeFree, this`edgeCount,
               this`version, this`updateDirty, this`shape, this`log, this`past
      ensures Valid() && Extends(old(past), past) && Time() == Touched(old(Time())) && log == ReleaseLog(old(log), e)
      ensures Model() == old(Model()).(edges := old(Model()).edges - {Handle(e, old(edges)[e].generation)})
    {
      hide Sound, Admitted, Abs, Storage.Valid, Release, ReleaseShape;
      ReleaseEdge(e);
      Touch();
    }

    method RemoveEdge(h: Handle) returns (status: Status)
      requires Valid()
      modifies this`vertices, this`edges, this`edgeFree, this`edgeCount,
               this`version, this`updateDirty, this`shape, this`log, this`past
      ensures Valid() && Extends(old(past), past)
      ensures status == if h in old(Model()).edges then Ok else Stale
      ensures status != Ok ==> Unchanged()
      ensures status == Ok ==>
                && Model() == old(Model()).(edges := old(Model()).edges - {h})
                && Time() == Touched(old(Time())) && log == ReleaseLog(old(log), h.index)
    {
      hide Topology, Fits, Abs, Kept;
      LiveOnes(h);
      if !EdgeLive(h) { return Stale; }
      DropEdge(h.index);
      status := Ok;
    }

    method FindEdge(src: Handle, dst: Handle) returns (status: Status, handle: Handle)
      requires Valid()
      ensures status == Stale <==> src !in Model().vertices || dst !in Model().vertices
      ensures status == NotFound <==> status != Stale && !Joined(src, dst)
      ensures status in {Ok, Stale, NotFound}
      ensures status == Ok ==>
                && handle in Model().edges && |log.stamps| == |edges|
                && (Model().edges[handle] == (src, dst) || (!directed && Model().edges[handle] == (dst, src)))
                && (directed ==> Eldest(Model(), log.stamps, src, dst, handle))
                && (!directed ==> FirstBetween(edges, shape, src.index, dst.index, handle.index))
    {
      hide Sound, Admitted, SomeJoins, Oldest, Eldest, FirstBetween, Fits;
      LiveOnes(src);
      LiveOnes(dst);
      handle := Handle(0, 0);
      if !VertexLive(src) || !VertexLive(dst) { return Stale, handle; }
      var e := Locate(src.index, dst.index);
      if e == INVALID_INDEX { return NotFound, handle; }
      handle := Handle(e, edges[e].generation);
      assert NamesEdge(edges, handle);
      if directed { OldestIsEldest(State(), log.stamps, src, dst, e); }
      status := Ok;
    }

    method RemoveEdgeBetween(src: Handle, dst: Handle) returns (status: Status, ghost handle: Handle)
      requires Valid()
      modifies this`vertices, this`edges, this`edgeFree, this`edgeCount,
               this`version, this`updateDirty, this`shape, this`log, this`past
      ensures Valid() && Extends(old(past), past)
      ensures status == Stale <==> src !in old(Model()).vertices || dst !in old(Model()).vertices
      ensures status == NotFound <==> status != Stale && !old(Joined(src, dst))
      ensures status in {Ok, Stale, NotFound}
      ensures status != Ok ==> Unchanged()
      ensures status == Ok ==>
                && handle in old(Model()).edges && |old(log).stamps| == |old(edges)|
                && (old(Model()).edges[handle] == (src, dst) || (!directed && old(Model()).edges[handle] == (dst, src)))
                && (directed ==> Eldest(old(Model()), old(log).stamps, src, dst, handle))
                && (!directed ==> FirstBetween(old(edges), old(shape), src.index, dst.index, handle.index))
                && Model() == old(Model()).(edges := old(Model()).edges - {handle})
                && Time() == Touched(old(Time())) && log == ReleaseLog(old(log), handle.index)
    {
      hide Topology, Fits, Abs, Kept, SomeJoins, Eldest, FirstBetween;
      handle := Handle(0, 0);
      var found: Handle;
      status, found := FindEdge(src, dst);
      if status != Ok { return; }
      handle := found;
      LiveOnes(found);
      DropEdge(found.index);
    }

    // --- Dropping everything -------------------------------------------------

    /** Retires every live edge slot and threads all slots on the free list, in order. */
    method ClearEdges()
      modifies this`edges, this`edgeFree, this`edgeCount
      ensures |edges| == |old(edges)| && edgeFree == FirstSlot(|edges|) && edgeCount == 0
      ensures forall i :: 0 <= i < |edges| ==> edges[i] == ClearedEdge(old(edges)[i], i, |edges|)
    {
      var n := |edges|;
      for i := 0 to n
        invariant |edges| == n
        invariant forall j :: 0 <= j < i ==> edges[j] == ClearedEdge(old(edges)[j], j, n)
        invariant forall j :: i <= j < n ==> edges[j] == old(edges)[j]
      {
        var e := edges[i];
        if e.active { e := e.(generation := Bump(e.generation)); }
        edges := edges[i := e.(active := false, outs := e.outs.(next := NextSlot(i, n)))];
      }
      edgeFree := if n == 0 then INVALID_INDEX else 0;
      edgeCount := 0;
    }

    method ClearVertices()
      modifies this`vertices, this`vertexFree, this`vertexCount
      ensures |vertices| == |old(vertices)| && vertexFree == FirstSlot(|vertices|) && vertexCount == 0
      ensures forall i :: 0 <= i < |vertices| ==> vertices[i] == ClearedVertex(old(vertices)[i], i, |vertices|)
    {
      var n := |vertices|;
      for i := 0 to n
        invariant |vertices| == n
        invariant forall j :: 0 <= j < i ==> vertices[j] == ClearedVertex(old(vertices)[j], j, n)
        invariant forall j :: i <= j < n ==> vertices[j] == old(vertices)[j]
      {
        var v := vertices[i];
        if v.active { v := v.(generation := Bump(v.generation)); }
        vertices := vertices[i := v.(active := false, outs := Ends(NextSlot(i, n), INVALID_INDEX, 0), ins := NoEnds)];
      }
      vertexFree := if n == 0 then INVALID_INDEX else 0;
      vertexCount := 0;
    }

    /** Drops everything; every live slot is retired, so no handle survives. */
    method Clear()
      requires Valid()
      modifies this`vertices, this`edges, this`vertexFree, this`vertexCount, this`edgeFree, this`edgeCount,
               this`version, this`updateDirty, this`shape, this`log, this`past
      ensures Valid() && Extends(old(past), past) && Time() == Touched(old(Time())) && Model() == Empty
      ensures log == ClearLog(old(State()), old(log))
    {
      hide Sound, Abs, Storage.Valid, ClearedEdge, ClearedVertex, ClearedShape, ClearLog, Empty;
      ghost var p := State();
      ClearEdges();
      ClearVertices();
      ClearEffect(p, shape, log, State(), directed, rejectParallel, rejectLoops);
      shape, log := ClearedShape(p), ClearLog(p, log);
      Touch();
    }

    /** No slot has ever been taken. */
    method Forget()
      modifies this`vertices, this`edges, this`vertexFree, this`vertexCount, this`edgeFree, this`edgeCount,
               this`shape, this`log
      ensures Topology() && Model() == Empty && |vertices| == 0 && |edges| == 0 && log == NoLog
    {
      hide Sound, Abs, Admitted, Empty;
      vertices, edges, vertexFree, edgeFree, vertexCount, edgeCount := [], [], INVALID_INDEX, INVALID_INDEX, 0, 0;
      shape, log := NoShape, NoLog;
      EmptyEffect(directed, rejectParallel, rejectLoops);
    }

    /** Steps the version and closes any open phase. */
    method Restart()
      requires Timely(Time(), past)
      modifies this`version, this`inUpdate, this`updateDirty, this`past
      ensures Time() == Clock(old(version) + 1, false, false) && Kept(Time(), past, Now()) && Extends(old(past), past)
    {
      inUpdate, updateDirty, version := false, false, version + 1;
      past := Noted(Time(), past, Now());
    }

    /** Drops everything and the high-water marks with it, so generations start over; back
        to the configured capacities. */
    method Reset() returns (status: Status)
      requires Valid()
      modifies this, storage
      ensures Valid() && Extends(old(past), past) && Model() == Empty && log == NoLog
      ensures Time() == Clock(old(version) + 1, false, false)
      ensures status == Ok <==> storage.refusals == old(storage.refusals)
      ensures status == Ok ==>
                storage.vertexCapacity == storage.initialVertices && storage.edgeCapacity == storage.initialEdges
      ensures !storage.growable ==> status == Ok && storage.calls == old(storage.calls)
    {
      hide Sound, Admitted, Abs, Extends, Storage.Valid, Empty;
      Forget();
      Restart();
      status := storage.ResetCapacity();
    }

    // --- Capacity ------------------------------------------------------------

    method ReserveVertices(capacity: nat) returns (status: Status)
      requires Valid()
      modifies storage
      ensures Valid() && storage.Steady() && (status == Ok ==> storage.vertexCapacity >= capacity)
      ensures capacity <= old(storage.vertexCapacity) ==> status == Ok && storage.calls == old(storage.calls)
      ensures status == Full <==>
                capacity > old(storage.vertexCapacity) && (!storage.growable || (storage.maxVertices != 0 && capacity > storage.maxVertices))
      ensures status == Overflow <==> status != Full && capacity > old(storage.vertexCapacity) && capacity > MAX_CAPACITY
      ensures status in {Ok, Full, Overflow, NoMemory}
      ensures storage.refusals == old(storage.refusals) + if status == NoMemory then 1 else 0
      ensures storage.edgeCapacity == old(storage.edgeCapacity)
      ensures status == Ok ==>
                storage.vertexCapacity == if capacity <= old(storage.vertexCapacity) then old(storage.vertexCapacity) else capacity
      ensures status != Ok ==> storage.vertexCapacity == old(storage.vertexCapacity)
    {
      hide Sound, Admitted, Accounts;
      status := storage.ReserveVertices(capacity, |vertices|);
    }

    method ReserveEdges(capacity: nat) returns (status: Status)
      requires Valid()
      modifies storage
      ensures Valid() && storage.Steady() && (status == Ok ==> storage.edgeCapacity >= capacity)
      ensures capacity <= old(storage.edgeCapacity) ==> status == Ok && storage.calls == old(storage.calls)
      ensures status == Full <==>
                capacity > old(storage.edgeCapacity) && (!storage.growable || (storage.maxEdges != 0 && capacity > storage.maxEdges))
      ensures status == Overflow <==> status != Full && capacity > old(storage.edgeCapacity) && capacity > MAX_CAPACITY
      ensures status in {Ok, Full, Overflow, NoMemory}
      ensures storage.refusals == old(storage.refusals) + if status == NoMemory then 1 else 0
      ensures storage.vertexCapacity == old(storage.vertexCapacity)
      ensures status == Ok ==>
                storage.edgeCapacity == if capacity <= old(storage.edgeCapacity) then old(storage.edgeCapacity) else capacity
      ensures status != Ok ==> storage.edgeCapacity == old(storage.edgeCapacity)
    {
      hide Sound, Admitted, Accounts;
      status := storage.ReserveEdges(capacity, |edges|);
    }

    method ShrinkToFit() returns (status: Status)
      requires Valid()
      modifies storage
      ensures status == Ok <==> storage.refusals == old(storage.refusals)
      ensures Valid() && (!storage.growable ==> status == Ok && storage.calls == old(storage.calls))
      ensures storage.growable && status == Ok ==>
                storage.vertexCapacity == |vertices| && storage.edgeCapacity == |edges|
    {
      hide Sound, Admitted, Accounts;
      status := storage.ShrinkToFit(|vertices|, |edges|);
    }
  }

  // --- What the checks come to -----------------------------------------------

  /** The edge joins the pair of handles. */
  predicate Pairs(ends: (Handle, Handle), directed: bool, a: Handle, b: Handle)
  {
    ends == (a, b) || (!directed && ends == (b, a))
  }

  /** No two edges of the multigraph join one pair. */
  ghost predicate Simple(m: Multigraph, directed: bool)
  {
    forall e, f :: e in m.edges && f in m.edges && e != f ==> !Pairs(m.edges[e], directed, m.edges[f].0, m.edges[f].1)
  }

  /** Joined says what it means for the multigraph. */
  lemma JoinedExactly(g: Graph, a: Handle, b: Handle)
    requires g.Valid() && a in g.Model().vertices && b in g.Model().vertices
    ensures g.Joined(a, b) <==> exists e :: e in g.Model().edges && Pairs(g.Model().edges[e], g.directed, a, b)
  {
    hide Sound, Admitted, Graph.Fits, Kept;
    if g.Joined(a, b) {
      var e :| e in ActiveEdges(g.edges) && Joins(g.edges[e], g.directed, a.index, b.index);
      var h := Handle(e, g.edges[e].generation);
      assert NamesEdge(g.edges, h);
      assert Pairs(g.Model().edges[h], g.directed, a, b);
    }
    if h :| h in g.Model().edges && Pairs(g.Model().edges[h], g.directed, a, b) {
      assert NamesEdge(g.edges, h) && h.index in ActiveEdges(g.edges);
      assert Joins(g.edges[h.index], g.directed, a.index, b.index);
    }
  }

  /** A graph that rejects parallel edges never holds two edges on one pair, and one that
      rejects self-loops never holds one. */
  lemma RulesHold(g: Graph)
    requires g.Valid()
    ensures g.rejectParallel ==> Simple(g.Model(), g.directed)
    ensures g.rejectLoops ==> forall e :: e in g.Model().edges ==> g.Model().edges[e].0 != g.Model().edges[e].1
  {
    hide Sound, Graph.Fits, Kept;
    var m := g.Model();
    forall e, f | g.rejectParallel && e in m.edges && f in m.edges && e != f
      ensures !Pairs(m.edges[e], g.directed, m.edges[f].0, m.edges[f].1)
    {
      assert NamesEdge(g.edges, e) && NamesEdge(g.edges, f);
      assert e.index in ActiveEdges(g.edges) && f.index in ActiveEdges(g.edges) && e.index != f.index;
    }
    forall e | g.rejectLoops && e in m.edges ensures m.edges[e].0 != m.edges[e].1 {
      assert NamesEdge(g.edges, e);
      assert e.index in ActiveEdges(g.edges);
    }
  }

  /** Degrees count the edges of the multigraph. */
  lemma DegreesExact(g: Graph, side: Side, h: Handle)
    requires g.Valid() && h in g.Model().vertices
    ensures EndsOf(g.vertices[h.index], side).degree
            == |set e | e in g.Model().edges && EndOn(g.Model().edges[e], side) == h|
  {
    hide Sound, Admitted, Graph.Fits, Kept, Sides, EdgeMap;
    SoundSizes(g.State(), g.shape, g.log);
    ListExact(g.State(), g.shape, side, h.index);
    HandleCount(g.State(), side, h);
  }

  function EndOn(ends: (Handle, Handle), side: Side): Handle
  {
    if side == Out then ends.0 else ends.1
  }

  lemma HandleCount(p: Pools, side: Side, h: Handle)
    requires NamesVertex(p.vertices, h)
    ensures |set e | e in Abs(p).edges && EndOn(Abs(p).edges[e], side) == h|
            == |set e | e in ActiveEdges(p.edges) && Owner(p.edges[e], side) == h.index|
  {
    var slots := set e | e in ActiveEdges(p.edges) && Owner(p.edges[e], side) == h.index;
    var handles := set e | e in Abs(p).edges && EndOn(Abs(p).edges[e], side) == h;
    var name := (e: nat) => Handle(e, if e < |p.edges| then p.edges[e].generation else 0);
    ImageCount(slots, name);
    assert handles == set e | e in slots :: name(e) by {
      forall x ensures x in handles <==> x in (set e | e in slots :: name(e)) {
        if x in handles {
          assert NamesEdge(p.edges, x) && x.index in slots && name(x.index) == x;
        }
        if e :| e in slots && name(e) == x { assert NamesEdge(p.edges, x); }
      }
    }
  }

  lemma {:induction false} ImageCount(s: set<nat>, f: nat -> Handle)
    requires forall a, b :: a in s && b in s && f(a) == f(b) ==> a == b
    ensures |set a | a in s :: f(a)| == |s|
  {
    if s != {} {
      var x :| x in s;
      ImageCount(s - {x}, f);
      assert (set a | a in s :: f(a)) == (set a | a in s - {x} :: f(a)) + {f(x)};
    }
  }

  // --- What handles promise --------------------------------------------------

  /** Vertex handle j given out since the last reset is accepted exactly if its slot is live
      and has been retired a multiple of 2^32 - 1 times since: until its vertex goes, and
      then not before the generations come round. */
  lemma VertexHandleAccepted(g: Graph, j: nat)
    requires g.Valid() && j < |g.log.vertexPast.issued|
    ensures var x, past := g.log.vertexPast.issued[j], g.log.vertexPast;
            && x.slot < |past.retired| && x.retired <= past.retired[x.slot]
            && var since := past.retired[x.slot] - x.retired;
               && (g.VertexLive(HandleOf(x)) <==> x.slot in ActiveVertices(g.vertices) && since % CYCLE == 0)
               && (since == 0 ==> g.VertexLive(HandleOf(x)))
               && (0 < since < CYCLE ==> !g.VertexLive(HandleOf(x)))
  {
    hide Structure, Times, Graph.Fits, Admitted, Kept, PastOk;
    var gens, active := VertexGens(g.vertices), ActiveVertices(g.vertices);
    AcceptedExactly(gens, active, g.log.vertexPast, j);
    g.LiveExactly(HandleOf(g.log.vertexPast.issued[j]));
  }

  lemma EdgeHandleAccepted(g: Graph, j: nat)
    requires g.Valid() && j < |g.log.edgePast.issued|
    ensures var x, past := g.log.edgePast.issued[j], g.log.edgePast;
            && x.slot < |past.retired| && x.retired <= past.retired[x.slot]
            && var since := past.retired[x.slot] - x.retired;
               && (g.EdgeLive(HandleOf(x)) <==> x.slot in ActiveEdges(g.edges) && since % CYCLE == 0)
               && (since == 0 ==> g.EdgeLive(HandleOf(x)))
               && (0 < since < CYCLE ==> !g.EdgeLive(HandleOf(x)))
  {
    hide Structure, Times, Graph.Fits, Admitted, Kept, PastOk;
    var gens, active := EdgeGens(g.edges), ActiveEdges(g.edges);
    AcceptedExactly(gens, active, g.log.edgePast, j);
    g.LiveExactly(HandleOf(g.log.edgePast.issued[j]));
  }

  /** No two adds since the last reset returned the same handle, unless they used one slot
      and it was retired a multiple of 2^32 - 1 times in between. */
  lemma HandlesRepeatExactly(g: Graph, j: nat, k: nat)
    requires g.Valid()
    ensures j < k < |g.log.vertexPast.issued| ==>
              var x, y := g.log.vertexPast.issued[j], g.log.vertexPast.issued[k];
              HandleOf(x) == HandleOf(y) <==> x.slot == y.slot && (y.retired - x.retired) % CYCLE == 0
    ensures j < k < |g.log.edgePast.issued| ==>
              var x, y := g.log.edgePast.issued[j], g.log.edgePast.issued[k];
              HandleOf(x) == HandleOf(y) <==> x.slot == y.slot && (y.retired - x.retired) % CYCLE == 0
  {
    hide Structure, Times, Graph.Fits, Admitted, Kept, PastOk;
    if j < k < |g.log.vertexPast.issued| {
      SameHandle(VertexGens(g.vertices), ActiveVertices(g.vertices), g.log.vertexPast, j, k);
    }
    if j < k < |g.log.edgePast.issued| {
      SameHandle(EdgeGens(g.edges), ActiveEdges(g.edges), g.log.edgePast, j, k);
    }
  }

  // --- Lifecycle -------------------------------------------------------------

  /** Sets up a graph with the configured capacities, or nothing at all. */
  method Init(directed: bool, weighted: bool, growable: bool, rejectParallel: bool, rejectLoops: bool, canResize: bool,
              initialVertices: nat, initialEdges: nat, maxVertices: nat, maxEdges: nat)
    returns (status: Status, g: Graph?)
    ensures status == Overflow <==>
              initialVertices > MAX_CAPACITY || initialEdges > MAX_CAPACITY || maxVertices > MAX_CAPACITY || maxEdges > MAX_CAPACITY
    ensures status == Invalid <==>
              && status != Overflow && growable
              && ((maxVertices != 0 && maxVertices < initialVertices) || (maxEdges != 0 && maxEdges < initialEdges))
    ensures status in {Ok, Overflow, Invalid, NoMemory} && (g == null <==> status != Ok)
    ensures g != null ==>
              && fresh(g) && fresh(g.storage) && g.Valid() && g.Model() == Empty && g.Time() == Clock(1, false, false)
              && g.storage.vertexCapacity == initialVertices && g.storage.edgeCapacity == initialEdges
              && g.storage.growable == growable && g.storage.weighted == weighted && g.storage.canResize == canResize
              && g.storage.initialVertices == initialVertices && g.storage.initialEdges == initialEdges
              && g.storage.maxVertices == (if growable then maxVertices else initialVertices)
              && g.storage.maxEdges == (if growable then maxEdges else initialEdges)
              && g.directed == directed && g.rejectParallel == rejectParallel && g.rejectLoops == rejectLoops
  {
    hide Accounts, Sound, Abs, Admitted;
    g := null;
    if initialVertices > MAX_CAPACITY || initialEdges > MAX_CAPACITY || maxVertices > MAX_CAPACITY || maxEdges > MAX_CAPACITY {
      return Overflow, null;
    }
    if growable {
      if maxVertices != 0 && maxVertices < initialVertices { return Invalid, null; }
      if maxEdges != 0 && maxEdges < initialEdges { return Invalid, null; }
    }
    var storage := new Storage(canResize, weighted, growable, initialVertices, initialEdges, maxVertices, maxEdges);
    status := storage.Init();
    if status != Ok { return; }
    g := new Graph(directed, rejectParallel, rejectLoops, storage);
  }
}
