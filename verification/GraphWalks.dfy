/** The public traversals of a graph. */
module GraphWalks {
  import opened GraphPools
  import opened GraphStructure
  import opened GraphHandles
  import opened GraphHistory
  import opened GraphModel
  import opened GraphLocate
  import opened GraphVersion
  import opened GraphStorage
  import opened GraphEffects
  import opened GraphAdjacency
  import opened Traversal
  import GraphBfs
  import GraphDfs
  import opened Graphs

  /** What the walks of graph g go along. */
  ghost function Ways(g: Graph): Adjacency
    requires ListsInPool(g.State(), g.shape)
    reads g
  {
    Adjacent(g.State(), g.shape, g.directed)
  }

  /** There is a way from u to v exactly if a live edge leads there: any edge between them,
      on an undirected graph. */
  lemma WaysExact(g: Graph, u: nat, v: nat)
    requires g.Topology() && ListsInPool(g.State(), g.shape) && u in ActiveVertices(g.vertices)
    ensures Edge(Ways(g), u, v) <==> SomeJoins(g.edges, g.directed, u, v)
  {
    hide Sound, Admitted, Sides;
    var p, sh := g.State(), g.shape;
    SoundSizes(p, sh, g.log);
    ListExact(p, sh, Out, u);
    ListExact(p, sh, In, u);
    var outs, ins := Targets(p.edges, Out, sh.outs[u]), Targets(p.edges, In, sh.ins[u]);
    TargetsExact(p.edges, Out, sh.outs[u], v);
    TargetsExact(p.edges, In, sh.ins[u], v);
    assert NeighboursOf(p, sh, g.directed, u) == outs + (if g.directed then [] else ins);
    assert v in Ways(g)[u] <==> v in outs || (!g.directed && v in ins);
    if SomeJoins(p.edges, g.directed, u, v) {
      var e :| e in ActiveEdges(p.edges) && Joins(p.edges[e], g.directed, u, v);
      assert e in sh.outs[u] || e in sh.ins[u];
    }
  }

  lemma TargetsExact(es: seq<EdgeRec>, side: Side, l: seq<nat>, v: nat)
    requires forall k :: 0 <= k < |l| ==> l[k] < |es|
    ensures v in Targets(es, side, l) <==> exists e :: e in l && Far(es[e], side) == v
  {
    var r := Targets(es, side, l);
    if v in r {
      var k :| 0 <= k < |r| && r[k] == v;
      assert l[k] in l && Far(es[l[k]], side) == v;
    }
    if e :| e in l && Far(es[e], side) == v {
      var k :| 0 <= k < |l| && l[k] == e;
      assert r[k] == v;
    }
  }

  /** Sizes the scratch for a walk from a live vertex. */
  method Setup(g: Graph, start: Handle) returns (status: Status)
    requires g.Valid()
    modifies g.storage
    ensures g.Valid() && g.storage.Steady()
    ensures status == Stale <==> start !in g.Model().vertices
    ensures status in {Ok, Stale, NoMemory} && (!g.storage.growable ==> status != NoMemory)
    ensures status == NoMemory <==> g.storage.refusals > old(g.storage.refusals)
    ensures status == Ok ==>
              && |g.vertices| <= g.storage.workCapacity && |g.vertices| <= 64 * g.storage.visitedWords
              && start.index in ActiveVertices(g.vertices)
  {
    hide Sound, Admitted, Abs, Accounts;
    g.LiveExactly(start);
    if !g.VertexLive(start) { return Stale; }
    status := g.storage.ReserveTraversal();
  }

  lemma WalkFacts(g: Graph)
    requires g.Valid()
    ensures Structure(g.State(), g.shape) && ListsInPool(g.State(), g.shape)
    ensures Sides(g.State(), g.shape) && |g.edges| <= MAX_CAPACITY && Closed(Ways(g))
  {
    InPool(g.State(), g.shape);
    AdjacencyClosed(g.State(), g.shape, g.directed);
  }

  method Bfs(g: Graph, start: Handle, visit: Visitor) returns (status: Status, trace: seq<Visit>)
    requires g.Valid()
    modifies g.storage
    ensures g.Valid() && g.storage.Steady() && ListsInPool(g.State(), g.shape)
    ensures status == Stale <==> start !in g.Model().vertices
    ensures status in {Ok, Stale, NoMemory} && (!g.storage.growable ==> status != NoMemory)
    ensures status == NoMemory <==> g.storage.refusals > old(g.storage.refusals)
    ensures status == Ok ==>
              && BfsTrace(Ways(g), start.index, visit, trace) && |trace| <= g.vertexCount
              && forall i :: 0 <= i < |trace| ==> trace[i].vertex in ActiveVertices(g.vertices)
  {
    hide Graph.Valid, Structure, Abs, BfsTrace, ListsInPool, Sides, Closed, Storage.Steady, Storage.Valid;
    trace := [];
    WalkFacts(g);
    status := Setup(g, start);
    if status != Ok { return; }
    var cap := g.storage.workCapacity;
    var work, visited := new nat[2 * cap], new nat[g.storage.visitedWords];
    trace := GraphBfs.Bfs(g.State(), g.directed, start.index, visit, work, cap, visited, g.shape);
  }

  /** Depth-first search. The depth of a visit is the number of stack entries below it. */
  method Dfs(g: Graph, start: Handle, visit: Visitor) returns (status: Status, trace: seq<Visit>)
    requires g.Valid()
    modifies g.storage
    ensures g.Valid() && g.storage.Steady() && ListsInPool(g.State(), g.shape) && Closed(Ways(g))
    ensures status == Stale <==> start !in g.Model().vertices
    ensures status in {Ok, Stale, NoMemory} && (!g.storage.growable ==> status != NoMemory)
    ensures status == NoMemory <==> g.storage.refusals > old(g.storage.refusals)
    ensures status == Ok ==>
              && start.index < |Ways(g)| && GraphDfs.DfsTrace(Ways(g), start.index, visit, trace)
              && GraphDfs.ShallowerThan(trace, g.vertexCount)
  {
    hide Graph.Valid, Structure, Abs, GraphDfs.DfsTrace, ListsInPool, Sides, Closed;
    trace := [];
    WalkFacts(g);
    status := Setup(g, start);
    if status != Ok { return; }
    var cap := g.storage.workCapacity;
    var work, visited := new nat[2 * cap], new nat[g.storage.visitedWords];
    trace := GraphDfs.Walk(g.State(), g.directed, start.index, visit, work, cap, visited, g.shape);
    CountsExact(g.State(), g.shape);
  }

  // --- Reachability ----------------------------------------------------------

  /** Stops at the first sighting of the target. */
  function Seeks(target: nat): Visitor
  {
    (trace: seq<Visit>) => trace == [] || trace[|trace| - 1].vertex != target
  }

  predicate Sighted(trace: seq<Visit>, target: nat)
  {
    trace != [] && trace[|trace| - 1].vertex == target
  }

  /** A walk that stops at its target sights it exactly if there is a way there. */
  lemma SightedExactly(adj: Adjacency, s: nat, target: nat, trace: seq<Visit>)
    requires BfsTrace(adj, s, Seeks(target), trace)
    ensures Sighted(trace, target) <==> Reachable(adj, s, target)
  {
    hide Hops, Distance;
    if Reachable(adj, s, target) {
      var d :| Hops(adj, s, target, d);
      NotSightedBefore(adj, s, target, trace);
      assert Seeks(target)(trace) ==> InQueue(trace, target);
    }
  }

  lemma NotSightedBefore(adj: Adjacency, s: nat, target: nat, trace: seq<Visit>)
    requires BfsTrace(adj, s, Seeks(target), trace)
    ensures forall i :: 0 <= i < |trace| - 1 ==> trace[i].vertex != target
  {
    forall i | 0 <= i < |trace| - 1 ensures trace[i].vertex != target {
      assert Seeks(target)(trace[..i + 1]);
      assert trace[..i + 1][i] == trace[i];
    }
  }

  /** A path of d edges of the multigraph, along them or, if undirected, against them. */
  ghost predicate Path(m: Multigraph, directed: bool, a: Handle, b: Handle, d: nat)
    decreases d
  {
    if d == 0 then a == b
    else exists c, e :: Path(m, directed, a, c, d - 1) && e in m.edges && Pairs(m.edges[e], directed, c, b)
  }

  lemma EdgesAreWays(g: Graph, a: Handle, b: Handle)
    requires g.Valid() && ListsInPool(g.State(), g.shape) && a in g.Model().vertices && b in g.Model().vertices
    ensures Edge(Ways(g), a.index, b.index) <==>
            exists e :: e in g.Model().edges && Pairs(g.Model().edges[e], g.directed, a, b)
  {
    hide Graph.Fits, Sound, Admitted, Kept, Ways, SomeJoins;
    WaysExact(g, a.index, b.index);
    JoinedExactly(g, a, b);
  }

  lemma {:induction false} HopsArePaths(g: Graph, a: Handle, v: nat, d: nat)
    requires g.Valid() && ListsInPool(g.State(), g.shape) && a in g.Model().vertices
    requires Hops(Ways(g), a.index, v, d)
    ensures VertexHandle(g.vertices, v) in g.Model().vertices
    ensures Path(g.Model(), g.directed, a, VertexHandle(g.vertices, v), d)
    decreases d
  {
    hide Graph.Valid, Ways, EdgeMap, ListsInPool;
    assert VertexHandle(g.vertices, a.index) == a;
    if d > 0 {
      var u: nat :| Hops(Ways(g), a.index, u, d - 1) && Edge(Ways(g), u, v);
      HopsArePaths(g, a, u, d - 1);
      HopLive(g, a, v, d);
      var c, b := VertexHandle(g.vertices, u), VertexHandle(g.vertices, v);
      EdgesAreWays(g, c, b);
      var e :| e in g.Model().edges && Pairs(g.Model().edges[e], g.directed, c, b);
      assert Path(g.Model(), g.directed, a, c, d - 1);
    }
  }

  lemma HopLive(g: Graph, a: Handle, v: nat, d: nat)
    requires g.Valid() && ListsInPool(g.State(), g.shape) && a in g.Model().vertices
    requires Hops(Ways(g), a.index, v, d)
    ensures VertexHandle(g.vertices, v) in g.Model().vertices
  {
    hide Graph.Fits, Sound, Admitted, Kept, EdgeMap, Hops, Sides, ListsInPool;
    SoundSizes(g.State(), g.shape, g.log);
    HopsActive(g.State(), g.shape, g.directed, a.index, v, d);
    assert NamesVertex(g.vertices, VertexHandle(g.vertices, v));
  }

  lemma {:induction false} PathsAreHops(g: Graph, a: Handle, b: Handle, d: nat)
    requires g.Valid() && ListsInPool(g.State(), g.shape) && a in g.Model().vertices
    requires Path(g.Model(), g.directed, a, b, d)
    ensures b in g.Model().vertices && Hops(Ways(g), a.index, b.index, d)
    decreases d
  {
    hide Graph.Valid, Ways, EdgeMap, ListsInPool;
    if d > 0 {
      var c, e :| Path(g.Model(), g.directed, a, c, d - 1) && e in g.Model().edges && Pairs(g.Model().edges[e], g.directed, c, b);
      PathsAreHops(g, a, c, d - 1);
      EndsLive(g, e);
      EdgesAreWays(g, c, b);
    }
  }

  /** Every edge of the multigraph joins vertices of it. */
  lemma EndsLive(g: Graph, e: Handle)
    requires g.Valid() && e in g.Model().edges
    ensures g.Model().edges[e].0 in g.Model().vertices && g.Model().edges[e].1 in g.Model().vertices
  {
    hide Graph.Fits, Sound, Admitted, Kept, Sides;
    SoundSizes(g.State(), g.shape, g.log);
    assert NamesEdge(g.edges, e) && e.index in ActiveEdges(g.edges);
    EndpointsActive(g.State(), g.shape, e.index);
    var rec := g.edges[e.index];
    assert NamesVertex(g.vertices, VertexHandle(g.vertices, rec.src)) && NamesVertex(g.vertices, VertexHandle(g.vertices, rec.dst));
  }

  /** The ways that walks go along are the paths of the multigraph. */
  lemma ReachableExactly(g: Graph, a: Handle, b: Handle)
    requires g.Valid() && ListsInPool(g.State(), g.shape) && a in g.Model().vertices && b in g.Model().vertices
    ensures Reachable(Ways(g), a.index, b.index) <==> exists d :: Path(g.Model(), g.directed, a, b, d)
  {
    hide Graph.Valid, Ways, EdgeMap, ListsInPool, Hops, Path;
    assert VertexHandle(g.vertices, b.index) == b;
    if Reachable(Ways(g), a.index, b.index) {
      var d :| Hops(Ways(g), a.index, b.index, d);
      HopsArePaths(g, a, b.index, d);
    }
    if d: nat :| Path(g.Model(), g.directed, a, b, d) { PathsAreHops(g, a, b, d); }
  }

  /** Whether a path leads from one live vertex to another. */
  method CanReach(g: Graph, from: Handle, to: Handle) returns (status: Status, found: bool)
    requires g.Valid()
    modifies g.storage
    ensures g.Valid() && g.storage.Steady()
    ensures status == Stale <==> from !in g.Model().vertices || to !in g.Model().vertices
    ensures status in {Ok, Stale, NoMemory} && (!g.storage.growable ==> status != NoMemory)
    ensures status == NoMemory <==> g.storage.refusals > old(g.storage.refusals)
    ensures status == Ok ==> (found <==> exists d :: Path(g.Model(), g.directed, from, to, d))
  {
    hide Graph.Valid, Abs, BfsTrace, ListsInPool, Path, Reachable, Ways, Storage.Valid, Seeks;
    found := false;
    LiveBoth(g, from, to);
    if !g.VertexLive(from) || !g.VertexLive(to) { return Stale, false; }
    var trace: seq<Visit>;
    status, trace := Bfs(g, from, Seeks(to.index));
    if status != Ok { return; }
    found := Sighted(trace, to.index);
    SightedExactly(Ways(g), from.index, to.index, trace);
    ReachableExactly(g, from, to);
  }

  lemma LiveBoth(g: Graph, a: Handle, b: Handle)
    requires g.Valid()
    ensures g.VertexLive(a) <==> a in g.Model().vertices
    ensures g.VertexLive(b) <==> b in g.Model().vertices
  {
    g.LiveOnes(a);
    g.LiveOnes(b);
  }
}
