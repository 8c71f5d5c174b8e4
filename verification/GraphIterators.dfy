/** Iterators that check the version of the graph they walk. */
module GraphIterators {
  import opened Counting
  import opened GraphPools
  import opened GraphShape
  import opened GraphStructure
  import opened GraphHandles
  import opened GraphHistory
  import opened GraphModel
  import opened GraphLocate
  import opened GraphVersion
  import opened GraphStorage
  import opened GraphEffects
  import opened Graphs

  datatype Option<T> = None | Some(value: T)

  /** What an iterator yields: the edge, its ends, and the end away from the vertex walked. */
  datatype EdgeRef = EdgeRef(edge: Handle, src: Handle, dst: Handle, neighbour: Handle)

  function SideAt(incoming: bool): Side
  {
    if incoming then In else Out
  }

  /** Where an iterator stands: at an edge of one of a vertex's lists, or past its end. */
  datatype Cursor = Cursor(vertex: nat, edge: nat, incoming: bool, both: bool)

  ghost function ListAt(s: Snapshot, c: Cursor): seq<nat>
    requires c.vertex < |s.shape.outs| && c.vertex < |s.shape.ins|
  {
    ListsOf(s.shape, SideAt(c.incoming))[c.vertex]
  }

  /** The cursor stands at position k of its list. */
  ghost predicate Stands(s: Snapshot, c: Cursor, k: nat)
  {
    && c.vertex < |s.shape.outs| && c.vertex < |s.shape.ins| && c.vertex in ActiveVertices(s.pools.vertices)
    && k <= |ListAt(s, c)| && c.edge == if k < |ListAt(s, c)| then ListAt(s, c)[k] else INVALID_INDEX
  }

  /** The edges from there on, and the in-list after an out-list if both are walked. */
  ghost function Rest(s: Snapshot, c: Cursor, k: nat): seq<nat>
    requires Stands(s, c, k)
  {
    ListAt(s, c)[k..] + if c.both && !c.incoming then s.shape.ins[c.vertex] else []
  }

  /** Both lists of vertex v hang from it. */
  ghost predicate Hung(s: Snapshot, v: nat)
  {
    && |s.shape.outs| == |s.shape.ins| == |s.pools.vertices| && v in ActiveVertices(s.pools.vertices)
    && Chain(s.pools.edges, Out, s.pools.vertices[v].outs.head, s.shape.outs[v])
    && Chain(s.pools.edges, In, s.pools.vertices[v].ins.head, s.shape.ins[v])
  }

  /** A walk starts at the head of a list with all of it ahead. */
  lemma StartStands(s: Snapshot, v: nat, incoming: bool, both: bool)
    requires Hung(s, v)
    ensures v < |s.pools.vertices|
    ensures var c := Cursor(v, EndsOf(s.pools.vertices[v], SideAt(incoming)).head, incoming, both);
            && Stands(s, c, 0)
            && Rest(s, c, 0) == ListAt(s, c) + if both && !incoming then s.shape.ins[v] else []
  {
  }

  /** Past the end of a list nothing is ahead, unless the in-list is still to come. */
  lemma EndStands(s: Snapshot, c: Cursor, k: nat)
    requires Hung(s, c.vertex) && Stands(s, c, k) && c.edge == INVALID_INDEX
    ensures Rest(s, c, k) == if c.both && !c.incoming then s.shape.ins[c.vertex] else []
    ensures c.vertex < |s.pools.vertices|
    ensures c.both && !c.incoming ==>
              var c' := c.(incoming := true, edge := s.pools.vertices[c.vertex].ins.head);
              Stands(s, c', 0) && Rest(s, c', 0) == Rest(s, c, k)
  {
    StartStands(s, c.vertex, true, c.both);
    assert ListAt(s, c)[k..] == [];
  }

  /** At an edge, that edge is ahead, and after it what its link leads to. */
  lemma StepStands(s: Snapshot, c: Cursor, k: nat)
    requires Hung(s, c.vertex) && Stands(s, c, k) && c.edge != INVALID_INDEX
    ensures k < |ListAt(s, c)| && c.edge == ListAt(s, c)[k] && c.edge < |s.pools.edges|
    ensures var c' := c.(edge := LinksOf(s.pools.edges[c.edge], SideAt(c.incoming)).next);
            && Stands(s, c', k + 1)
            && Rest(s, c, k) == [c.edge] + Rest(s, c', k + 1)
  {
    hide Chain;
    var side := SideAt(c.incoming);
    var head := EndsOf(s.pools.vertices[c.vertex], side).head;
    ChainStep(s.pools.edges, side, head, ListAt(s, c), k);
  }

  lemma ChainStep(es: seq<EdgeRec>, side: Side, head: nat, l: seq<nat>, k: nat)
    requires Chain(es, side, head, l) && k < |l|
    ensures l[k] < |es| && LinksOf(es[l[k]], side).next == (if k + 1 < |l| then l[k + 1] else INVALID_INDEX)
    ensures l[k..] == [l[k]] + l[k + 1..]
  {
  }

  class EdgeIter {
    var graph: Graph?
    var version: nat
    var vertex: nat
    var edge: nat
    var incoming: bool
    var both: bool
    ghost var at: nat

    function Here(): Cursor
      reads this
    {
      Cursor(vertex, edge, incoming, both)
    }

    /** The iterator stands on a list of the topology its version names. */
    ghost predicate Valid()
      reads this, graph
    {
      graph != null ==> version in graph.past && Stands(graph.past[version], Here(), at)
    }

    /** The edges still to come. */
    ghost function Ahead(): seq<nat>
      requires Valid()
      reads this, graph
    {
      if graph == null then [] else Rest(graph.past[version], Here(), at)
    }

    /** The graph's version has not moved on. */
    predicate Fresh()
      reads this, graph
    {
      graph != null && version == graph.version
    }

    constructor ()
      ensures graph == null && Valid()
    {
      graph, version, vertex, edge, incoming, both := null, 0, INVALID_INDEX, INVALID_INDEX, false, false;
    }

    method End()
      modifies this
      ensures graph == null && Valid()
    {
      graph, version, vertex, edge, incoming, both := null, 0, INVALID_INDEX, INVALID_INDEX, false, false;
    }

    /** Starts a walk over a vertex's out-list, its in-list, or both in turn. */
    method Begin(g: Graph, h: Handle, incoming: bool, both: bool) returns (status: Status)
      requires g.Valid() && !g.updateDirty
      modifies this
      ensures Valid() && status == if h in g.Model().vertices then Ok else Stale
      ensures status == Stale ==> graph == null
      ensures status == Ok ==>
                && graph == g && Fresh() && vertex == h.index < |g.shape.outs| && h.index < |g.shape.ins|
                && Ahead() == ListsOf(g.shape, SideAt(incoming))[h.index]
                              + if both && !incoming then g.shape.ins[h.index] else []
    {
      hide Graph.Valid, Abs, Stands, Rest, Chain;
      End();
      g.LiveOnes(h);
      if !g.VertexLive(h) { return Stale; }
      NowHung(g, h.index);
      StartStands(g.Now(), h.index, incoming, both);
      graph, version, vertex := g, g.version, h.index;
      edge := EndsOf(g.vertices[h.index], SideAt(incoming)).head;
      this.incoming, this.both := incoming, both;
      at := 0;
      status := Ok;
    }

    /** Moves from an exhausted out-list to the in-list, or ends. */
    method Settle() returns (more: bool)
      requires Valid() && Fresh() && graph.Valid() && !graph.updateDirty
      modifies this
      ensures Valid() && more == (old(Ahead()) != [])
      ensures !more ==> graph == null
      ensures more ==> graph == old(graph) && Fresh() && edge != INVALID_INDEX && Ahead() == old(Ahead())
      ensures more ==> vertex == old(vertex)
    {
      hide Graph.Valid, Stands, Rest, Hung;
      ghost var s := graph.Now();
      StandsNow(graph, Here(), at);
      while edge == INVALID_INDEX
        invariant Stands(s, Here(), at) && Rest(s, Here(), at) == old(Ahead())
        invariant graph == old(graph) && version == old(version) && vertex == old(vertex)
        decreases !incoming
      {
        EndStands(s, Here(), at);
        if !both || incoming {
          End();
          return false;
        }
        incoming := true;
        edge := graph.vertices[vertex].ins.head;
        at := 0;
      }
      StepStands(s, Here(), at);
      more := true;
    }

    method Yield() returns (r: EdgeRef)
      requires Valid() && Fresh() && graph.Valid() && !graph.updateDirty && edge != INVALID_INDEX
      modifies this`edge, this`at
      ensures Valid() && old(Ahead()) != [] && Ahead() == old(Ahead())[1..]
      ensures Yields(graph, vertex, old(Ahead())[0], r)
    {
      hide Graph.Valid, Stands, Rest, Hung, Abs;
      ghost var s := graph.Now();
      StandsNow(graph, Here(), at);
      StepStands(s, Here(), at);
      ListedEdge(graph, Here(), at);
      var e := graph.edges[edge];
      var src, dst := VertexHandle(graph.vertices, e.src), VertexHandle(graph.vertices, e.dst);
      r := EdgeRef(Handle(edge, e.generation), src, dst, if e.src == vertex && !incoming then dst else src);
      edge := if incoming then e.ins.next else e.outs.next;
      at := at + 1;
    }

    /** Yields the next edge, or nothing when the walk is done or the graph has changed. */
    method Next() returns (r: Option<EdgeRef>)
      requires Valid() && (graph != null ==> graph.Valid())
      requires Fresh() ==> !graph.updateDirty
      modifies this
      ensures Valid()
      ensures !old(Fresh()) ==> r == None && graph == null
      ensures old(Fresh()) && old(Ahead()) == [] ==> r == None && graph == null
      ensures old(Fresh()) && old(Ahead()) != [] ==>
                && graph == old(graph) && Fresh() && vertex == old(vertex) && Ahead() == old(Ahead())[1..]
                && r.Some? && Yields(graph, old(vertex), old(Ahead())[0], r.value)
    {
      hide Graph.Valid, Stands, Rest, Yields;
      if graph == null { return None; }
      if version != graph.version {
        End();
        return None;
      }
      var more := Settle();
      if !more { return None; }
      var found := Yield();
      r := Some(found);
    }
  }

  /** The reference describes edge e of the multigraph, seen from vertex v. */
  ghost predicate Yields(g: Graph, v: nat, e: nat, r: EdgeRef)
    reads g
  {
    && r.edge.index == e && r.edge in g.Model().edges && g.Model().edges[r.edge] == (r.src, r.dst)
    && v in {r.src.index, r.dst.index} && r.neighbour == if r.src.index == v then r.dst else r.src
  }

  /** Outside a phase that has changed something, the version names the topology there is,
      and both lists of a live vertex hang from it. */
  lemma NowHung(g: Graph, v: nat)
    requires g.Valid() && v in ActiveVertices(g.vertices) && !g.updateDirty
    ensures g.version in g.past && g.past[g.version] == g.Now() && Hung(g.Now(), v)
  {
    hide Sound, SideOk, Graph.Fits, Admitted, Chain;
    SoundSizes(g.State(), g.shape, g.log);
    ChainReady(g.vertices, g.edges, Out, g.shape.outs, ActiveEdges(g.edges), v);
    ChainReady(g.vertices, g.edges, In, g.shape.ins, ActiveEdges(g.edges), v);
  }

  lemma StandsNow(g: Graph, c: Cursor, k: nat)
    requires g.Valid() && !g.updateDirty && g.version in g.past && Stands(g.past[g.version], c, k)
    ensures g.past[g.version] == g.Now() && Hung(g.Now(), c.vertex)
  {
    hide Sound, Graph.Fits, Admitted, Chain;
    assert g.past[g.version] == g.Now();
    NowHung(g, c.vertex);
  }

  /** An edge on one of v's lists is a live edge of v's. */
  lemma ListedEdge(g: Graph, c: Cursor, k: nat)
    requires g.Valid() && Stands(g.Now(), c, k) && k < |ListAt(g.Now(), c)|
    ensures c.edge in ActiveEdges(g.edges) && Owner(g.edges[c.edge], SideAt(c.incoming)) == c.vertex
    ensures var h := Handle(c.edge, g.edges[c.edge].generation);
            h in g.Model().edges && g.Model().edges[h] == EndsOfEdge(g.vertices, g.edges[c.edge])
  {
    hide Sound, Sides, Graph.Fits, Admitted, Abs;
    SoundSizes(g.State(), g.shape, g.log);
    ListExact(g.State(), g.shape, SideAt(c.incoming), c.vertex);
    assert c.edge in ListAt(g.Now(), c);
    EdgeNamed(g.State(), c.edge);
  }

  lemma EdgeNamed(p: Pools, e: nat)
    requires e in ActiveEdges(p.edges)
    ensures var h := Handle(e, p.edges[e].generation);
            h in Abs(p).edges && Abs(p).edges[h] == EndsOfEdge(p.vertices, p.edges[e])
  {
    assert NamesEdge(p.edges, Handle(e, p.edges[e].generation));
  }

  // --- Whole walks -----------------------------------------------------------

  /** An iterator outlives changes to its graph: what it has ahead is what it had. */
  twostate lemma Survives(it: EdgeIter, g: Graph)
    requires unchanged(it) && it.graph == g && old(it.Valid()) && Extends(old(g.past), g.past)
    ensures it.Valid() && it.Ahead() == old(it.Ahead())
  {
  }

  /** A change outside a phase, or the commit of a phase that made one, ends it. */
  twostate lemma ChangeEnds(it: EdgeIter, g: Graph)
    requires unchanged(it) && it.graph == g && old(it.Valid()) && old(g.Valid())
    requires || (!old(g.inUpdate) && g.Time() == Touched(old(g.Time())))
             || (old(g.inUpdate && g.updateDirty) && g.Time() == Committed(old(g.Time())))
    ensures !it.Fresh()
  {
    hide Sound, Admitted, Stands;
  }

  /** Everything an iterator yields while its graph stands still. */
  method Drain(it: EdgeIter) returns (seen: seq<EdgeRef>)
    requires it.Valid() && it.Fresh() && it.graph.Valid() && !it.graph.updateDirty
    modifies it
    ensures |seen| == |old(it.Ahead())|
    ensures forall i :: 0 <= i < |seen| ==> Yields(old(it.graph), old(it.vertex), old(it.Ahead())[i], seen[i])
  {
    hide Graph.Valid, Stands, Rest, Yields;
    seen := [];
    var g, v := it.graph, it.vertex;
    ghost var all := it.Ahead();
    var more := true;
    while more
      invariant |seen| <= |all| && it.Valid()
      invariant forall i :: 0 <= i < |seen| ==> Yields(g, v, all[i], seen[i])
      invariant more ==> it.graph == g && it.vertex == v && it.Fresh() && it.Ahead() == all[|seen|..]
      invariant !more ==> |seen| == |all|
      decreases |all| - |seen|, more
    {
      var r := it.Next();
      if r.None? {
        more := false;
      } else {
        seen := seen + [r.value];
      }
    }
  }

  /** A walk over everything incident to a vertex yields its out-list, then its in-list. */
  method IncidentEdges(g: Graph, h: Handle) returns (status: Status, seen: seq<EdgeRef>)
    requires g.Valid() && !g.updateDirty
    ensures status == if h in g.Model().vertices then Ok else Stale
    ensures status == Ok ==>
              && h.index < |g.shape.outs| && h.index < |g.shape.ins| && h.index < |g.vertices|
              && |seen| == g.vertices[h.index].outs.degree + g.vertices[h.index].ins.degree
              && |seen| == |g.shape.outs[h.index] + g.shape.ins[h.index]|
              && forall i :: 0 <= i < |seen| ==>
                   Yields(g, h.index, (g.shape.outs[h.index] + g.shape.ins[h.index])[i], seen[i])
  {
    hide Graph.Valid, Stands, Rest, Yields, Abs;
    seen := [];
    var it := new EdgeIter();
    status := it.Begin(g, h, false, true);
    if status != Ok { return; }
    DegreesAre(g, h);
    seen := Drain(it);
  }

  lemma DegreesAre(g: Graph, h: Handle)
    requires g.Valid() && h in g.Model().vertices
    ensures h.index < |g.vertices| == |g.shape.outs| == |g.shape.ins|
    ensures g.vertices[h.index].outs.degree == |g.shape.outs[h.index]|
    ensures g.vertices[h.index].ins.degree == |g.shape.ins[h.index]|
  {
    hide Sound, SideOk, Graph.Fits, Admitted;
    SoundSizes(g.State(), g.shape, g.log);
    ListSelf(g.vertices, g.edges, Out, g.shape.outs, ActiveEdges(g.edges), h.index);
    ListSelf(g.vertices, g.edges, In, g.shape.ins, ActiveEdges(g.edges), h.index);
  }

  /** On a vertex's two lists together an edge stands once for each of its ends there: a
      self-loop twice. Each list is in order of insertion. */
  lemma IncidentExactly(g: Graph, v: nat, e: nat)
    requires g.Valid() && v in ActiveVertices(g.vertices) && e in ActiveEdges(g.edges)
    ensures |g.shape.outs| == |g.shape.ins| == |g.vertices|
    ensures multiset(g.shape.outs[v] + g.shape.ins[v])[e]
            == (if g.edges[e].src == v then 1 else 0) + (if g.edges[e].dst == v then 1 else 0)
    ensures InTime(g.shape.outs[v], g.log.stamps, g.log.clock) && InTime(g.shape.ins[v], g.log.stamps, g.log.clock)
  {
    hide Sound, SideOk, Graph.Fits, Admitted, InTime, Chain;
    SoundSizes(g.State(), g.shape, g.log);
    ListReady(g.State(), g.shape, g.log, Out, v);
    ListReady(g.State(), g.shape, g.log, In, v);
    ListSelf(g.vertices, g.edges, Out, g.shape.outs, ActiveEdges(g.edges), v);
    ListSelf(g.vertices, g.edges, In, g.shape.ins, ActiveEdges(g.edges), v);
    OnceEach(g.shape.outs[v], e);
    OnceEach(g.shape.ins[v], e);
  }

  lemma {:induction false} OnceEach(l: seq<nat>, e: nat)
    requires Distinct(l)
    ensures multiset(l)[e] == if e in l then 1 else 0
  {
    if l != [] {
      var rest := l[1..];
      OnceEach(rest, e);
      assert l == [l[0]] + rest;
    }
  }

  // --- Vertices --------------------------------------------------------------

  class VertexIter {
    var graph: Graph?
    var version: nat
    var index: nat

    constructor (g: Graph)
      ensures graph == g && version == g.version && index == 0
    {
      graph, version, index := g, g.version, 0;
    }

    /** Yields the next live vertex in slot order, or nothing once there is none or the graph
        has changed. */
    method Next() returns (r: Option<Handle>)
      modifies this
      ensures old(graph) == null || old(version) != old(graph).version ==> r == None && graph == null
      ensures old(graph) != null && old(version) == old(graph).version ==>
                && graph == old(graph) && version == old(version)
                && old(index) <= index && (index <= |graph.vertices| || index == old(index))
                && (r == None ==> forall i :: old(index) <= i < |graph.vertices| ==> !graph.vertices[i].active)
                && (r.Some? ==>
                      && old(index) <= r.value.index < |graph.vertices| && index == r.value.index + 1
                      && graph.vertices[r.value.index].active
                      && r.value.generation == graph.vertices[r.value.index].generation
                      && forall i :: old(index) <= i < r.value.index ==> !graph.vertices[i].active)
    {
      if graph == null { return None; }
      if version != graph.version {
        graph := null;
        return None;
      }
      while index < |graph.vertices|
        invariant graph == old(graph) && version == old(version) && graph != null && old(index) <= index
        invariant index <= |graph.vertices| || index == old(index)
        invariant forall i :: old(index) <= i < index && i < |graph.vertices| ==> !graph.vertices[i].active
        decreases |graph.vertices| - index
      {
        var i := index;
        index := index + 1;
        if graph.vertices[i].active { return Some(Handle(i, graph.vertices[i].generation)); }
      }
      r := None;
    }
  }

  /** A walk over the vertices yields each live vertex once, in slot order. */
  method AllVertices(g: Graph) returns (seen: seq<Handle>)
    requires g.Valid()
    ensures forall h :: h in seen <==> h in g.Model().vertices
    ensures forall j, k :: 0 <= j < k < |seen| ==> seen[j].index < seen[k].index
    ensures |seen| == g.vertexCount
  {
    hide Graph.Valid, EdgeMap;
    seen := [];
    var it := new VertexIter(g);
    var more := true;
    while more
      invariant it.graph == g && it.version == g.version && it.index <= |g.vertices|
      invariant forall h :: h in seen <==> NamesVertex(g.vertices, h) && h.index < it.index
      invariant forall j, k :: 0 <= j < k < |seen| ==> seen[j].index < seen[k].index
      invariant !more ==> forall i :: it.index <= i < |g.vertices| ==> !g.vertices[i].active
      decreases |g.vertices| - it.index, more
    {
      ghost var was := it.index;
      var r := it.Next();
      if r.None? {
        more := false;
      } else {
        seen := seen + [r.value];
      }
    }
    CountSeen(g, seen);
  }

  lemma CountSeen(g: Graph, seen: seq<Handle>)
    requires g.Valid() && (forall h :: h in seen <==> NamesVertex(g.vertices, h))
    requires forall j, k :: 0 <= j < k < |seen| ==> seen[j].index < seen[k].index
    ensures |seen| == g.vertexCount
  {
    hide Sound, Graph.Fits, Admitted, EdgeMap;
    SoundCounts(g.State(), g.shape, g.log);
    var l := Indices(seen);
    forall i: nat ensures i in l <==> i in ActiveVertices(g.vertices) { SeenIndex(g.vertices, seen, i); }
    assert Elements(l) == ActiveVertices(g.vertices);
  }

  function Indices(seen: seq<Handle>): (l: seq<nat>)
    ensures |l| == |seen| && forall i :: 0 <= i < |l| ==> l[i] == seen[i].index
  {
    seq(|seen|, i requires 0 <= i < |seen| => seen[i].index)
  }

  lemma SeenIndex(vs: seq<VertexRec>, seen: seq<Handle>, i: nat)
    requires forall h :: h in seen <==> NamesVertex(vs, h)
    ensures i in Indices(seen) <==> i in ActiveVertices(vs)
  {
    var l := Indices(seen);
    if i in ActiveVertices(vs) {
      var h := Handle(i, vs[i].generation);
      assert h in seen;
      var k :| 0 <= k < |seen| && seen[k] == h;
      assert l[k] == i;
    }
    if i in l {
      var k :| 0 <= k < |l| && l[k] == i;
      assert seen[k] in seen;
    }
  }

  lemma SoundCounts(p: Pools, sh: Shape, log: Log)
    requires Sound(p, sh, log)
    ensures p.vertexCount == |ActiveVertices(p.vertices)| && p.edgeCount == |ActiveEdges(p.edges)|
  {
    hide Formed;
    CountsExact(p, sh);
  }
}
