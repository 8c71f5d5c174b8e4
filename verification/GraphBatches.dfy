/** Adding many at once, under one step of the version. */
module GraphBatches {
  import opened Counting
  import opened GraphPools
  import opened GraphHandles
  import opened GraphHistory
  import opened GraphModel
  import opened GraphLocate
  import opened GraphVersion
  import opened GraphStorage
  import opened GraphEffects
  import opened Graphs

  lemma ExtendsThrough(a: map<nat, Snapshot>, b: map<nat, Snapshot>, c: map<nat, Snapshot>)
    requires Extends(a, b) && Extends(b, c)
    ensures Extends(a, c)
  {
  }

  /** Opens an implicit phase unless one is open. */
  method BatchBegin(g: Graph) returns (outer: bool)
    requires g.Valid()
    modifies g`inUpdate
    ensures g.Valid() && outer == old(g.inUpdate) && g.Time() == BatchBegun(old(g.Time()))
  {
    hide Sound, Admitted, Storage.Valid;
    outer := g.inUpdate;
    g.inUpdate := true;
  }

  /** Closes it, unless it was open before. */
  method BatchEnd(g: Graph, outer: bool)
    requires g.Valid() && g.inUpdate
    modifies g`inUpdate, g`updateDirty, g`version, g`past
    ensures g.Valid() && g.Time() == BatchEnded(old(g.Time()), outer) && Extends(old(g.past), g.past)
  {
    if outer { return; }
    g.Commit();
  }

  function CapacityOf(g: Graph, forVertices: bool): nat
    reads g, g.storage
  {
    if forVertices then g.storage.vertexCapacity else g.storage.edgeCapacity
  }

  function CeilingOf(g: Graph, forVertices: bool): nat
    reads g
  {
    if forVertices then g.storage.maxVertices else g.storage.maxEdges
  }

  function CountOf(g: Graph, forVertices: bool): nat
    reads g
  {
    if forVertices then g.vertexCount else g.edgeCount
  }

  /** Room for the whole batch if it can be had: along the growth curve, else exactly. */
  method ReserveForBulk(g: Graph, count: nat, forVertices: bool)
    requires g.Valid()
    modifies g.storage
    ensures g.Valid() && g.storage.Steady()
    ensures CapacityOf(g, !forVertices) == old(CapacityOf(g, !forVertices))
    ensures var was, needed := old(CapacityOf(g, forVertices)), CountOf(g, forVertices) + count;
            var target, exact := BulkTarget(was, needed, CeilingOf(g, forVertices)), Clamp(needed, CeilingOf(g, forVertices));
            && old(g.storage.refusals) <= g.storage.refusals <= old(g.storage.refusals) + 2
            && (!g.storage.growable || needed > MAX_CAPACITY || needed <= was ==>
                  CapacityOf(g, forVertices) == was && g.storage.calls == old(g.storage.calls)
                  && g.storage.refusals == old(g.storage.refusals))
            && (g.storage.growable && needed <= MAX_CAPACITY && g.storage.refusals == old(g.storage.refusals) ==>
                  CapacityOf(g, forVertices) == BulkCapacity(was, needed, CeilingOf(g, forVertices)))
            && (g.storage.refusals == old(g.storage.refusals) + 1 ==>
                  CapacityOf(g, forVertices) == if exact < target then exact else was)
            && (g.storage.refusals == old(g.storage.refusals) + 2 ==> CapacityOf(g, forVertices) == was && exact < target)
  {
    hide Graph.Valid;
    RoomFacts(g);
    var live, capacity := CountOf(g, forVertices), CapacityOf(g, forVertices);
    if count > MAX_CAPACITY - live { return; }
    var needed := live + count;
    if needed <= capacity { return; }
    var curve := NextCapacity(capacity);
    var target := if needed > curve then needed else curve;
    var ceiling := CeilingOf(g, forVertices);
    var clamped := Clamp(target, ceiling);
    var status := ReserveRoom(g, clamped, forVertices);
    if status == Ok { return; }
    var exact := Clamp(needed, ceiling);
    if exact < clamped {
      status := ReserveRoom(g, exact, forVertices);
    }
  }

  method ReserveRoom(g: Graph, capacity: nat, forVertices: bool) returns (status: Status)
    requires g.Valid()
    modifies g.storage
    ensures g.Valid() && g.storage.Steady() && status in {Ok, Full, Overflow, NoMemory}
    ensures g.storage.refusals == old(g.storage.refusals) + if status == NoMemory then 1 else 0
    ensures CapacityOf(g, !forVertices) == old(CapacityOf(g, !forVertices))
    ensures var was := old(CapacityOf(g, forVertices));
            && (status == Ok ==> CapacityOf(g, forVertices) == if capacity <= was then was else capacity)
            && (status != Ok ==> CapacityOf(g, forVertices) == was)
            && (status == Full <==>
                  capacity > was && (!g.storage.growable || Clamp(capacity, CeilingOf(g, forVertices)) < capacity))
            && (capacity <= was ==> status == Ok)
            && (status == Overflow ==> capacity > MAX_CAPACITY)
  {
    if forVertices { status := g.ReserveVertices(capacity); } else { status := g.ReserveEdges(capacity); }
  }

  // --- What a batch writes to the history ------------------------------------

  /** These handles were given out since, in order, and no others. */
  ghost predicate Handed(was: seq<Issue>, now: seq<Issue>, handles: seq<Handle>)
  {
    && |now| == |was| + |handles| && was <= now
    && forall k :: 0 <= k < |handles| ==> HandleOf(now[|was| + k]) == handles[k]
  }

  /** The handles were given out in order; no slot was retired, and slots first taken here
      start with no retirements. */
  ghost predicate GivenAll(was: Past, now: Past, handles: seq<Handle>)
  {
    && Handed(was.issued, now.issued, handles)
    && was.retired <= now.retired && (forall i :: |was.retired| <= i < |now.retired| ==> now.retired[i] == 0)
  }

  lemma GivenNone(past: Past)
    ensures GivenAll(past, past, [])
  {
  }

  lemma GivenMore(was: Past, mid: Past, now: Past, handles: seq<Handle>, h: Handle)
    requires GivenAll(was, mid, handles) && Issued(mid, now, h)
    ensures GivenAll(was, now, handles + [h])
  {
  }

  predicate TakesSlot(handles: seq<Handle>, i: nat)
  {
    exists k :: 0 <= k < |handles| && handles[k].index == i
  }

  /** The edges were dated in order, after everything before, and no other date changed. */
  ghost predicate DatedAll(was: Log, now: Log, handles: seq<Handle>)
  {
    && now.clock == was.clock + |handles| && |was.stamps| <= |now.stamps|
    && (forall k :: 0 <= k < |handles| ==>
          handles[k].index < |now.stamps| && now.stamps[handles[k].index] == was.clock + k)
    && (forall i :: 0 <= i < |was.stamps| && !TakesSlot(handles, i) ==> now.stamps[i] == was.stamps[i])
  }

  lemma DatedNone(log: Log)
    ensures DatedAll(log, log, [])
  {
  }

  lemma DatedMore(was: Log, mid: Log, now: Log, handles: seq<Handle>, h: Handle)
    requires DatedAll(was, mid, handles) && DatedNow(mid, now, h.index) && !TakesSlot(handles, h.index)
    ensures DatedAll(was, now, handles + [h])
  {
    var more := handles + [h];
    forall k | 0 <= k < |more|
      ensures more[k].index < |now.stamps| && now.stamps[more[k].index] == was.clock + k
    {
      if k < |handles| { assert handles[k].index != h.index; }
    }
    forall i | 0 <= i < |was.stamps| && !TakesSlot(more, i) ensures now.stamps[i] == was.stamps[i] {
      assert more[|handles|].index != i;
      forall k | 0 <= k < |handles| ensures handles[k].index != i { assert more[k].index != i; }
    }
  }

  /** What a batch of edges writes. */
  ghost predicate EdgesLogged(was: Log, now: Log, handles: seq<Handle>)
  {
    GivenAll(was.edgePast, now.edgePast, handles) && DatedAll(was, now, handles) && now.vertexPast == was.vertexPast
  }

  ghost predicate VerticesLogged(was: Log, now: Log, handles: seq<Handle>)
  {
    GivenAll(was.vertexPast, now.vertexPast, handles) && now == was.(vertexPast := now.vertexPast)
  }

  lemma LoggedNone(log: Log)
    ensures EdgesLogged(log, log, []) && VerticesLogged(log, log, [])
  {
    GivenNone(log.edgePast);
    GivenNone(log.vertexPast);
    DatedNone(log);
  }

  lemma OneMoreEdgeLogged(was: Log, mid: Log, now: Log, handles: seq<Handle>, h: Handle)
    requires EdgesLogged(was, mid, handles) && EdgeLogged(mid, now, h) && !TakesSlot(handles, h.index)
    ensures EdgesLogged(was, now, handles + [h])
  {
    hide GivenAll, DatedAll, Issued, DatedNow;
    GivenMore(was.edgePast, mid.edgePast, now.edgePast, handles, h);
    DatedMore(was, mid, now, handles, h);
  }

  lemma OneMoreVertexLogged(was: Log, mid: Log, now: Log, handles: seq<Handle>, h: Handle)
    requires VerticesLogged(was, mid, handles) && VertexLogged(mid, now, h)
    ensures VerticesLogged(was, now, handles + [h])
  {
    hide GivenAll, Issued;
    GivenMore(was.vertexPast, mid.vertexPast, now.vertexPast, handles, h);
  }

  /** A live edge's slot identifies it. */
  lemma SlotNames(g: Graph, x: Handle, y: Handle)
    requires x in g.Model().edges && y in g.Model().edges && x.index == y.index
    ensures x == y
  {
    assert NamesEdge(g.edges, x) && NamesEdge(g.edges, y);
  }

  /** A new edge takes a slot that none of these live edges is in. */
  lemma NewSlot(g: Graph, es: map<Handle, (Handle, Handle)>, handles: seq<Handle>, h: Handle)
    requires h !in es && h in g.Model().edges
    requires forall x :: x in handles ==> x in es && x in g.Model().edges
    ensures !TakesSlot(handles, h.index)
  {
    hide Abs;
    forall k | 0 <= k < |handles| ensures handles[k].index != h.index {
      assert handles[k] in handles;
      if handles[k].index == h.index { SlotNames(g, handles[k], h); }
    }
  }

  /** Live slots fit the capacities, which are in range. */
  lemma RoomFacts(g: Graph)
    requires g.Valid()
    ensures g.vertexCount <= g.storage.vertexCapacity <= MAX_CAPACITY
    ensures g.edgeCount <= g.storage.edgeCapacity <= MAX_CAPACITY
    ensures !g.storage.growable ==>
              g.storage.vertexCapacity == g.storage.initialVertices && g.storage.edgeCapacity == g.storage.initialEdges
    ensures Timely(g.Time(), g.past)
  {
  }

  // --- Vertices --------------------------------------------------------------

  /** The vertices of the batch so far. */
  ghost predicate VerticesAdded(m: Multigraph, m': Multigraph, handles: seq<Handle>)
  {
    && m'.edges == m.edges && (forall h :: h in m'.vertices <==> h in m.vertices || h in handles)
    && Distinct(handles) && (forall h :: h in handles ==> h !in m.vertices)
  }

  lemma OneMoreVertex(m: Multigraph, m1: Multigraph, m2: Multigraph, handles: seq<Handle>, h: Handle)
    requires VerticesAdded(m, m1, handles) && h !in m1.vertices && m2 == m1.(vertices := m1.vertices + {h})
    ensures VerticesAdded(m, m2, handles + [h])
  {
    var more := handles + [h];
    forall x ensures x in more <==> x in handles || x == h { }
    forall j, k | 0 <= j < k < |more| ensures more[j] != more[k] {
      if k == |handles| { assert more[j] in handles; }
    }
  }

  /** The vertex pool cannot grow, or the allocator has refused it since. */
  predicate Stuck(g: Graph, refusals: nat)
    reads g, g.storage
  {
    !g.storage.growable || AtCeiling(g.storage.vertexCapacity, g.storage.maxVertices) || g.storage.refusals > refusals
  }

  method AddVertexLoop(g: Graph, count: nat) returns (handles: seq<Handle>)
    requires g.Valid() && g.inUpdate
    modifies g, g.storage
    ensures g.Valid() && Extends(old(g.past), g.past) && |handles| <= count
    ensures g.Time() == TouchedTimes(old(g.Time()), |handles|)
    ensures VerticesAdded(old(g.Model()), g.Model(), handles) && VerticesLogged(old(g.log), g.log, handles)
    ensures |handles| < count ==> g.vertexCount == g.storage.vertexCapacity && Stuck(g, old(g.storage.refusals))
    ensures g.vertexCount == old(g.vertexCount) + |handles|
    ensures !g.storage.growable ==> g.storage.calls == old(g.storage.calls)
    ensures g.storage.refusals >= old(g.storage.refusals) && g.storage.vertexCapacity >= old(g.storage.vertexCapacity)
    ensures old(g.vertexCount) + count <= old(g.storage.vertexCapacity) || AtCeiling(old(g.storage.vertexCapacity), g.storage.maxVertices) ==>
              g.storage.vertexCapacity == old(g.storage.vertexCapacity)
  {
    hide Graph.Valid, Abs, VertexLogged, VerticesLogged, Extends, VerticesAdded;
    handles := [];
    var more := true;
    assert Extends(old(g.past), g.past) by { Reflexive(g.past); }
    NoneAdded(g.Model());
    LoggedNone(g.log);
    while |handles| < count && more
      invariant g.Valid() && Extends(old(g.past), g.past) && |handles| <= count
      invariant g.Time() == TouchedTimes(old(g.Time()), |handles|)
      invariant VerticesAdded(old(g.Model()), g.Model(), handles) && VerticesLogged(old(g.log), g.log, handles)
      invariant g.vertexCount == old(g.vertexCount) + |handles|
      invariant !g.storage.growable ==> g.storage.calls == old(g.storage.calls)
      invariant !more ==> g.vertexCount == g.storage.vertexCapacity && Stuck(g, old(g.storage.refusals))
      invariant g.storage.refusals >= old(g.storage.refusals) && g.storage.vertexCapacity >= old(g.storage.vertexCapacity)
      invariant old(g.vertexCount) + count <= old(g.storage.vertexCapacity) || AtCeiling(old(g.storage.vertexCapacity), g.storage.maxVertices) ==>
                  g.storage.vertexCapacity == old(g.storage.vertexCapacity)
      decreases count - |handles|, more
    {
      ghost var m, was, log := g.Model(), g.past, g.log;
      var status, h := g.AddVertex();
      ExtendsThrough(old(g.past), was, g.past);
      if status == Ok {
        OneMoreVertex(old(g.Model()), m, g.Model(), handles, h);
        OneMoreVertexLogged(old(g.log), log, g.log, handles, h);
        handles := handles + [h];
      } else {
        more := false;
      }
    }
  }

  lemma Reflexive(past: map<nat, Snapshot>)
    ensures Extends(past, past)
  {
  }

  lemma NoneAdded(m: Multigraph)
    ensures VerticesAdded(m, m, [])
  {
  }

  /** Adds up to `count` vertices; a fixed graph takes exactly as many as it has room for.
      The version steps once if any was added and no phase is open. */
  method AddVertices(g: Graph, count: nat) returns (handles: seq<Handle>)
    requires g.Valid()
    modifies g, g.storage
    ensures g.Valid() && Extends(old(g.past), g.past) && |handles| <= count
    ensures VerticesAdded(old(g.Model()), g.Model(), handles) && VerticesLogged(old(g.log), g.log, handles)
    ensures g.Time() == Batched(old(g.Time()), |handles|)
    ensures |handles| < count ==> g.vertexCount == g.storage.vertexCapacity && Stuck(g, old(g.storage.refusals))
    ensures !g.storage.growable ==>
              var room := old(g.storage.vertexCapacity) - old(g.vertexCount);
              && |handles| == (if count <= room then count else room)
              && g.storage.calls == old(g.storage.calls)
    ensures g.vertexCount == old(g.vertexCount) + |handles| <= g.storage.vertexCapacity
    ensures g.storage.growable && g.storage.refusals == old(g.storage.refusals)
            && old(g.vertexCount) + count <= MAX_CAPACITY ==>
              g.storage.vertexCapacity
              == BulkCapacity(old(g.storage.vertexCapacity), old(g.vertexCount) + count, g.storage.maxVertices)
  {
    hide Graph.Valid, Abs, Extends, VerticesAdded, VerticesLogged, Storage.Valid, BulkCapacity, BulkTarget;
    RoomFacts(g);
    handles := [];
    NoneAdded(g.Model());
    LoggedNone(g.log);
    Reflexive(g.past);
    NoBatch(g.storage.vertexCapacity, g.vertexCount, g.storage.maxVertices);
    if count == 0 { return; }
    if g.storage.growable {
      ReserveForBulk(g, count, true);
    }
    var outer := BatchBegin(g);
    handles := AddVertexLoop(g, count);
    ghost var was := g.past;
    BatchEnd(g, outer);
    ExtendsThrough(old(g.past), was, g.past);
    RoomFacts(g);
  }

  // --- Edges -----------------------------------------------------------------

  /** Edges added one after the other. */
  function EdgesAfter(es: map<Handle, (Handle, Handle)>, specs: seq<(Handle, Handle)>, handles: seq<Handle>): map<Handle, (Handle, Handle)>
    requires |specs| == |handles|
  {
    if specs == [] then es else
    var n := |specs| - 1;
    EdgesAfter(es, specs[..n], handles[..n])[handles[n] := specs[n]]
  }

  /** Nothing is lost or overwritten by new handles. */
  ghost predicate New(es: map<Handle, (Handle, Handle)>, handles: seq<Handle>)
  {
    Distinct(handles) && forall h :: h in handles ==> h !in es
  }

  lemma {:induction false} EdgesAfterKeys(es: map<Handle, (Handle, Handle)>, specs: seq<(Handle, Handle)>, handles: seq<Handle>)
    requires |specs| == |handles|
    ensures forall h :: h in EdgesAfter(es, specs, handles) <==> h in es || h in handles
  {
    if specs != [] {
      var n := |specs| - 1;
      EdgesAfterKeys(es, specs[..n], handles[..n]);
      assert handles == handles[..n] + [handles[n]];
    }
  }

  lemma OneMoreNew(es: map<Handle, (Handle, Handle)>, specs: seq<(Handle, Handle)>, handles: seq<Handle>, h: Handle)
    requires |specs| == |handles| && New(es, handles) && h !in EdgesAfter(es, specs, handles)
    ensures New(es, handles + [h])
  {
    EdgesAfterKeys(es, specs, handles);
    var more := handles + [h];
    forall j, k | 0 <= j < k < |more| ensures more[j] != more[k] {
      if k == |handles| { assert more[j] in handles; }
    }
  }

  lemma NoneNew(es: map<Handle, (Handle, Handle)>)
    ensures New(es, [])
  {
  }

  lemma NoEdges(es: map<Handle, (Handle, Handle)>)
    ensures EdgesAfter(es, [], []) == es
  {
  }

  /** The edge is one the graph admits, were there room. */
  ghost predicate Admissible(g: Graph, spec: (Handle, Handle))
    reads g
  {
    && spec.0 in g.Model().vertices && spec.1 in g.Model().vertices
    && !(g.rejectLoops && spec.0.index == spec.1.index)
    && !(g.rejectParallel && g.Joined(spec.0, spec.1))
  }

  /** Whatever edges there are, the graph admits this one as far as its ends go. */
  predicate Plain(g: Graph, spec: (Handle, Handle))
    reads g
  {
    && spec.0 in g.Model().vertices && spec.1 in g.Model().vertices
    && !(g.rejectLoops && spec.0.index == spec.1.index)
  }

  /** The edge pool is full, and cannot grow or the allocator has refused it since. */
  predicate EdgesStuck(g: Graph, refusals: nat)
    reads g, g.storage
  {
    && g.edgeCount == g.storage.edgeCapacity
    && (|| !g.storage.growable || AtCeiling(g.storage.edgeCapacity, g.storage.maxEdges)
        || g.storage.refusals > refusals)
  }

  /** The graph refuses this edge: it does not admit it, or has no room for it. */
  ghost predicate Refused(g: Graph, spec: (Handle, Handle), refusals: nat)
    reads g, g.storage
  {
    !Admissible(g, spec) || EdgesStuck(g, refusals)
  }

  /** Adds one edge, or finds it refused. */
  method AddOne(g: Graph, spec: (Handle, Handle)) returns (added: bool, h: Handle)
    requires g.Valid()
    modifies g, g.storage
    ensures g.Valid() && Extends(old(g.past), g.past)
    ensures !added ==>
              Refused(g, spec, old(g.storage.refusals)) && g.Model() == old(g.Model()) && g.Time() == old(g.Time()) && g.log == old(g.log)
    ensures added ==>
              && h !in old(g.Model()).edges && g.Time() == Touched(old(g.Time())) && EdgeLogged(old(g.log), g.log, h)
              && g.Model() == old(g.Model()).(edges := old(g.Model()).edges[h := spec])
    ensures !g.storage.growable ==> g.storage.calls == old(g.storage.calls)
    ensures g.edgeCount == old(g.edgeCount) + if added then 1 else 0
    ensures g.storage.refusals >= old(g.storage.refusals) && g.storage.edgeCapacity >= old(g.storage.edgeCapacity)
    ensures g.storage.edgeCapacity != old(g.storage.edgeCapacity) ==>
              && old(g.edgeCount == g.storage.edgeCapacity)
              && g.storage.edgeCapacity == Clamp(NextCapacity(old(g.storage.edgeCapacity)), g.storage.maxEdges)
  {
    hide Graph.Valid, Abs, EdgeLogged, Extends, SomeJoins;
    var status;
    status, h := g.AddEdge(spec.0, spec.1);
    added := status == Ok;
  }

  method AddEdgeLoop(g: Graph, specs: seq<(Handle, Handle)>) returns (handles: seq<Handle>)
    requires g.Valid() && g.inUpdate
    modifies g, g.storage
    ensures g.Valid() && Extends(old(g.past), g.past) && |handles| <= |specs|
    ensures g.Time() == TouchedTimes(old(g.Time()), |handles|)
    ensures g.Model() == old(g.Model()).(edges := EdgesAfter(old(g.Model()).edges, specs[..|handles|], handles))
    ensures New(old(g.Model()).edges, handles) && EdgesLogged(old(g.log), g.log, handles)
    ensures |handles| < |specs| ==> Refused(g, specs[|handles|], old(g.storage.refusals))
    ensures !g.storage.growable ==> g.storage.calls == old(g.storage.calls)
    ensures g.edgeCount == old(g.edgeCount) + |handles|
    ensures g.storage.refusals >= old(g.storage.refusals) && g.storage.edgeCapacity >= old(g.storage.edgeCapacity)
    ensures g.Model().vertices == old(g.Model()).vertices
    ensures old(g.edgeCount) + |specs| <= old(g.storage.edgeCapacity) || AtCeiling(old(g.storage.edgeCapacity), g.storage.maxEdges) ==>
              g.storage.edgeCapacity == old(g.storage.edgeCapacity)
  {
    hide Graph.Valid, Abs, Extends, Admissible, EdgesStuck, Refused, New, EdgeLogged, EdgesLogged, TakesSlot;
    LoggedNone(g.log);
    NoneNew(g.Model().edges);
    handles := [];
    var more := true;
    Reflexive(g.past);
    while |handles| < |specs| && more
      invariant g.Valid() && Extends(old(g.past), g.past) && |handles| <= |specs|
      invariant g.Time() == TouchedTimes(old(g.Time()), |handles|)
      invariant g.Model() == old(g.Model()).(edges := EdgesAfter(old(g.Model()).edges, specs[..|handles|], handles))
      invariant New(old(g.Model()).edges, handles) && EdgesLogged(old(g.log), g.log, handles)
      invariant !g.storage.growable ==> g.storage.calls == old(g.storage.calls)
      invariant g.edgeCount == old(g.edgeCount) + |handles|
      invariant g.storage.refusals >= old(g.storage.refusals) && g.storage.edgeCapacity >= old(g.storage.edgeCapacity)
      invariant !more ==> |handles| < |specs| && Refused(g, specs[|handles|], old(g.storage.refusals))
      invariant old(g.edgeCount) + |specs| <= old(g.storage.edgeCapacity) || AtCeiling(old(g.storage.edgeCapacity), g.storage.maxEdges) ==>
                  g.storage.edgeCapacity == old(g.storage.edgeCapacity)
      decreases |specs| - |handles|, more
    {
      var n := |handles|;
      ghost var was, log, es, refusals := g.past, g.log, g.Model().edges, g.storage.refusals;
      EdgesAfterKeys(old(g.Model()).edges, specs[..n], handles);
      var added, h := AddOne(g, specs[n]);
      ExtendsThrough(old(g.past), was, g.past);
      if added {
        OneMoreNew(old(g.Model()).edges, specs[..n], handles, h);
        NewSlot(g, es, handles, h);
        OneMoreEdgeLogged(old(g.log), log, g.log, handles, h);
        assert specs[..n + 1][..n] == specs[..n] && (handles + [h])[..n] == handles;
        handles := handles + [h];
      } else {
        more := false;
        StuckLonger(g, specs[n], refusals, old(g.storage.refusals));
      }
    }
  }

  lemma StuckLonger(g: Graph, spec: (Handle, Handle), refusals: nat, earlier: nat)
    requires Refused(g, spec, refusals) && earlier <= refusals
    ensures Refused(g, spec, earlier)
  {
  }

  /** Adds edges in order up to the first that is refused. */
  method AddEdges(g: Graph, specs: seq<(Handle, Handle)>) returns (handles: seq<Handle>)
    requires g.Valid()
    modifies g, g.storage
    ensures g.Valid() && Extends(old(g.past), g.past) && |handles| <= |specs|
    ensures g.Model() == old(g.Model()).(edges := EdgesAfter(old(g.Model()).edges, specs[..|handles|], handles))
    ensures g.Time() == Batched(old(g.Time()), |handles|)
    ensures New(old(g.Model()).edges, handles) && EdgesLogged(old(g.log), g.log, handles)
    ensures |handles| < |specs| ==> Refused(g, specs[|handles|], old(g.storage.refusals))
    ensures !g.storage.growable ==> g.storage.calls == old(g.storage.calls)
    ensures g.edgeCount == old(g.edgeCount) + |handles| <= g.storage.edgeCapacity
    ensures g.storage.growable && g.storage.refusals == old(g.storage.refusals)
            && old(g.edgeCount) + |specs| <= MAX_CAPACITY ==>
              g.storage.edgeCapacity
              == BulkCapacity(old(g.storage.edgeCapacity), old(g.edgeCount) + |specs|, g.storage.maxEdges)
    ensures !g.storage.growable && (forall i :: 0 <= i < |specs| ==> Plain(g, specs[i])) && !g.rejectParallel ==>
              var room := old(g.storage.edgeCapacity) - old(g.edgeCount);
              |handles| == if |specs| <= room then |specs| else room
  {
    hide Graph.Valid, Abs, Extends, Refused, Plain, Storage.Valid, EdgesAfter, EdgesLogged, New, BulkCapacity, BulkTarget;
    RoomFacts(g);
    handles := [];
    NoEdges(g.Model().edges);
    NoneNew(g.Model().edges);
    LoggedNone(g.log);
    Reflexive(g.past);
    NoBatch(g.storage.edgeCapacity, g.edgeCount, g.storage.maxEdges);
    if |specs| == 0 { return; }
    if g.storage.growable {
      ReserveForBulk(g, |specs|, false);
    }
    ghost var refusals := g.storage.refusals;
    handles := AddBatch(g, specs);
    RoomFacts(g);
    if |handles| < |specs| {
      StuckLonger(g, specs[|handles|], refusals, old(g.storage.refusals));
      RefusedPlain(g, specs[|handles|], refusals);
    }
  }

  lemma NoBatch(capacity: nat, needed: nat, ceiling: nat)
    requires needed <= capacity <= MAX_CAPACITY
    ensures BulkCapacity(capacity, needed, ceiling) == capacity
  {
  }

  /** An edge with nothing against it but its room is refused only by a full pool. */
  lemma RefusedPlain(g: Graph, spec: (Handle, Handle), refusals: nat)
    requires Refused(g, spec, refusals)
    ensures Plain(g, spec) && !g.rejectParallel ==> g.edgeCount == g.storage.edgeCapacity
  {
  }

  /** The batch itself, inside a phase of its own unless one is open. */
  method AddBatch(g: Graph, specs: seq<(Handle, Handle)>) returns (handles: seq<Handle>)
    requires g.Valid()
    modifies g, g.storage
    ensures g.Valid() && Extends(old(g.past), g.past) && |handles| <= |specs|
    ensures g.Model() == old(g.Model()).(edges := EdgesAfter(old(g.Model()).edges, specs[..|handles|], handles))
    ensures g.Time() == Batched(old(g.Time()), |handles|)
    ensures New(old(g.Model()).edges, handles) && EdgesLogged(old(g.log), g.log, handles)
    ensures |handles| < |specs| ==> Refused(g, specs[|handles|], old(g.storage.refusals))
    ensures !g.storage.growable ==> g.storage.calls == old(g.storage.calls)
    ensures g.edgeCount == old(g.edgeCount) + |handles|
    ensures g.storage.refusals >= old(g.storage.refusals) && g.storage.edgeCapacity >= old(g.storage.edgeCapacity)
    ensures old(g.edgeCount) + |specs| <= old(g.storage.edgeCapacity) || AtCeiling(old(g.storage.edgeCapacity), g.storage.maxEdges) ==>
              g.storage.edgeCapacity == old(g.storage.edgeCapacity)
  {
    hide Graph.Valid, Abs, Extends, Storage.Valid, EdgesAfter, EdgesLogged, New, SomeJoins;
    var outer := BatchBegin(g);
    handles := AddEdgeLoop(g, specs);
    ghost var was := g.past;
    BatchEnd(g, outer);
    ExtendsThrough(old(g.past), was, g.past);
  }
}
