/** The adjacency the links encode: out-list targets, then, on an undirected graph, in-list
    sources. */
module GraphAdjacency {
  import opened GraphPools
  import opened GraphShape
  import opened GraphStructure
  import opened Traversal

  /** The far ends of the edges on a list. */
  function Targets(es: seq<EdgeRec>, side: Side, l: seq<nat>): (r: seq<nat>)
    requires forall k :: 0 <= k < |l| ==> l[k] < |es|
    ensures |r| == |l| && forall k :: 0 <= k < |l| ==> r[k] == Far(es[l[k]], side)
  {
    seq(|l|, k requires 0 <= k < |l| => Far(es[l[k]], side))
  }

  /** Both lists of every vertex hold slots of the edge pool. */
  ghost predicate ListsInPool(p: Pools, sh: Shape)
  {
    && |sh.outs| == |sh.ins| == |p.vertices|
    && (forall v, k :: 0 <= v < |sh.outs| && 0 <= k < |sh.outs[v]| ==> sh.outs[v][k] < |p.edges|)
    && (forall v, k :: 0 <= v < |sh.ins| && 0 <= k < |sh.ins[v]| ==> sh.ins[v][k] < |p.edges|)
  }

  lemma InPool(p: Pools, sh: Shape)
    requires Sides(p, sh)
    ensures ListsInPool(p, sh)
  {
    forall v, k | 0 <= v < |sh.outs| && 0 <= k < |sh.outs[v]| ensures sh.outs[v][k] < |p.edges| {
      assert ListOk(v, p.vertices[v], p.edges, Out, sh.outs[v]);
      assert NodeOk(p.edges, Out, v, sh.outs[v], k);
    }
    forall v, k | 0 <= v < |sh.ins| && 0 <= k < |sh.ins[v]| ensures sh.ins[v][k] < |p.edges| {
      assert ListOk(v, p.vertices[v], p.edges, In, sh.ins[v]);
      assert NodeOk(p.edges, In, v, sh.ins[v], k);
    }
  }

  /** Neighbours of v in walking order. */
  ghost function NeighboursOf(p: Pools, sh: Shape, directed: bool, v: nat): seq<nat>
    requires ListsInPool(p, sh) && v < |p.vertices|
  {
    Targets(p.edges, Out, sh.outs[v]) + (if directed then [] else Targets(p.edges, In, sh.ins[v]))
  }

  ghost function Adjacent(p: Pools, sh: Shape, directed: bool): (adj: Adjacency)
    requires ListsInPool(p, sh)
    ensures |adj| == |p.vertices|
    ensures forall v :: 0 <= v < |adj| ==> adj[v] == NeighboursOf(p, sh, directed, v)
  {
    seq(|p.vertices|, v requires 0 <= v < |p.vertices| => NeighboursOf(p, sh, directed, v))
  }

  /** Everything a walk relies on about the graph it walks. */
  ghost predicate Walkable(p: Pools, sh: Shape, start: nat)
  {
    Sides(p, sh) && |p.edges| <= MAX_CAPACITY && ListsInPool(p, sh) && start in ActiveVertices(p.vertices)
  }

  /** The far end of a listed edge is an active vertex. */
  lemma FarActive(p: Pools, sh: Shape, side: Side, v: nat, k: nat)
    requires Sides(p, sh) && v < |p.vertices| && k < |ListsOf(sh, side)[v]|
    ensures var e := ListsOf(sh, side)[v][k];
            && e in ActiveEdges(p.edges) && Owner(p.edges[e], side) == v && p.vertices[v].active
            && Far(p.edges[e], side) < |p.vertices| && p.vertices[Far(p.edges[e], side)].active
  {
    var lists, other := ListsOf(sh, side), Other(side);
    var e := lists[v][k];
    assert ListOk(v, p.vertices[v], p.edges, side, lists[v]) && Holds(lists[v], ActiveEdges(p.edges));
    assert NodeOk(p.edges, side, v, lists[v], k);
    assert Sits(p.edges, other, ListsOf(sh, other), e);
    var u := Owner(p.edges[e], other);
    assert u == Far(p.edges[e], side);
    assert ListOk(u, p.vertices[u], p.edges, other, ListsOf(sh, other)[u]);
  }

  lemma NeighbourActive(p: Pools, sh: Shape, directed: bool, v: nat, k: nat)
    requires Sides(p, sh) && ListsInPool(p, sh) && v < |p.vertices| && k < |NeighboursOf(p, sh, directed, v)|
    ensures NeighboursOf(p, sh, directed, v)[k] in ActiveVertices(p.vertices)
  {
    var n := |sh.outs[v]|;
    if k < n { FarActive(p, sh, Out, v, k); } else { FarActive(p, sh, In, v, k - n); }
  }

  lemma AdjacencyClosed(p: Pools, sh: Shape, directed: bool)
    requires Sides(p, sh) && ListsInPool(p, sh)
    ensures Closed(Adjacent(p, sh, directed))
  {
    var adj := Adjacent(p, sh, directed);
    forall v | 0 <= v < |adj| ensures Within(adj[v], |adj|) {
      forall k | 0 <= k < |adj[v]| ensures adj[v][k] < |adj| { NeighbourActive(p, sh, directed, v, k); }
    }
  }

  /** Only active vertices are reached from an active vertex. */
  lemma {:induction false} HopsActive(p: Pools, sh: Shape, directed: bool, s: nat, v: nat, d: nat)
    requires Sides(p, sh) && ListsInPool(p, sh) && s in ActiveVertices(p.vertices)
    requires Hops(Adjacent(p, sh, directed), s, v, d)
    ensures v in ActiveVertices(p.vertices)
    decreases d
  {
    if d > 0 {
      var adj := Adjacent(p, sh, directed);
      var u: nat :| Hops(adj, s, u, d - 1) && Edge(adj, u, v);
      var k :| 0 <= k < |adj[u]| && adj[u][k] == v;
      NeighbourActive(p, sh, directed, u, k);
    }
  }
}
