/** The plain multigraph the pools stand for: live handles, and the ordered pair of handles
    each live edge joins. */
module GraphModel {
  import opened Counting
  import opened GraphPools
  import opened GraphShape
  import opened GraphStructure
  import opened GraphLinking
  import opened GraphSteps
  import opened GraphHandles

  datatype Multigraph = Multigraph(vertices: set<Handle>, edges: map<Handle, (Handle, Handle)>)

  const Empty := Multigraph({}, map[])

  /** The edge is incident to the vertex. */
  predicate Touches(ends: (Handle, Handle), v: Handle)
  {
    ends.0 == v || ends.1 == v
  }

  /** A vertex goes, and its incident edges with it. */
  function WithoutVertex(m: Multigraph, v: Handle): Multigraph
  {
    Multigraph(m.vertices - {v}, map e | e in m.edges && !Touches(m.edges[e], v) :: m.edges[e])
  }

  // --- Abstraction -----------------------------------------------------------

  function VertexHandle(vs: seq<VertexRec>, i: nat): Handle
  {
    Handle(i, if i < |vs| then vs[i].generation else 0)
  }

  predicate NamesVertex(vs: seq<VertexRec>, h: Handle)
  {
    h.index < |vs| && vs[h.index].active && vs[h.index].generation == h.generation
  }

  predicate NamesEdge(es: seq<EdgeRec>, h: Handle)
  {
    h.index < |es| && es[h.index].active && es[h.index].generation == h.generation
  }

  function VertexHandles(vs: seq<VertexRec>): (r: set<Handle>)
    ensures forall h :: h in r <==> NamesVertex(vs, h)
  {
    set i | i in ActiveVertices(vs) :: Handle(i, vs[i].generation)
  }

  function EdgeHandles(es: seq<EdgeRec>): (r: set<Handle>)
    ensures forall h :: h in r <==> NamesEdge(es, h)
  {
    set i | i in ActiveEdges(es) :: Handle(i, es[i].generation)
  }

  function EndsOfEdge(vs: seq<VertexRec>, e: EdgeRec): (Handle, Handle)
  {
    (VertexHandle(vs, e.src), VertexHandle(vs, e.dst))
  }

  function EdgeMap(vs: seq<VertexRec>, es: seq<EdgeRec>): (r: map<Handle, (Handle, Handle)>)
    ensures forall h :: h in r <==> NamesEdge(es, h)
    ensures forall h :: NamesEdge(es, h) ==> r[h] == EndsOfEdge(vs, es[h.index])
  {
    map h | h in EdgeHandles(es) :: EndsOfEdge(vs, es[h.index])
  }

  function Abs(p: Pools): Multigraph
  {
    Multigraph(VertexHandles(p.vertices), EdgeMap(p.vertices, p.edges))
  }

  lemma OwnerActive(vs: seq<VertexRec>, es: seq<EdgeRec>, side: Side, lists: Lists, members: set<nat>, e: nat)
    requires SideOk(vs, es, side, lists, members) && e in members
    ensures e < |es| && Owner(es[e], side) in ActiveVertices(vs)
  {
    assert Sits(es, side, lists, e);
    OwnerListed(vs, es, side, lists, members, Owner(es[e], side), e);
  }

  lemma OwnerListed(vs: seq<VertexRec>, es: seq<EdgeRec>, side: Side, lists: Lists, members: set<nat>, v: nat, e: nat)
    requires ListsOk(vs, es, side, lists, members) && v < |lists| && e in lists[v]
    ensures v in ActiveVertices(vs)
  {
    hide NodeOk;
    assert ListOk(v, vs[v], es, side, lists[v]);
  }

  /** Every live edge joins live vertices. */
  lemma EndpointsActive(p: Pools, sh: Shape, e: nat)
    requires Sides(p, sh) && e in ActiveEdges(p.edges)
    ensures p.edges[e].src in ActiveVertices(p.vertices) && p.edges[e].dst in ActiveVertices(p.vertices)
  {
    hide SideOk;
    OwnerActive(p.vertices, p.edges, Out, sh.outs, ActiveEdges(p.edges), e);
    OwnerActive(p.vertices, p.edges, In, sh.ins, ActiveEdges(p.edges), e);
  }

  ghost predicate EndpointsLive(p: Pools)
  {
    forall e :: e in ActiveEdges(p.edges) ==>
      p.edges[e].src in ActiveVertices(p.vertices) && p.edges[e].dst in ActiveVertices(p.vertices)
  }

  lemma AllEndpointsLive(p: Pools, sh: Shape)
    requires Sides(p, sh)
    ensures EndpointsLive(p)
  {
    forall e | e in ActiveEdges(p.edges)
      ensures p.edges[e].src in ActiveVertices(p.vertices) && p.edges[e].dst in ActiveVertices(p.vertices)
    {
      EndpointsActive(p, sh, e);
    }
  }

  /** A vertex's list holds exactly the live edges that belong there, and its recorded
      degree counts them. */
  lemma ListExact(p: Pools, sh: Shape, side: Side, v: nat)
    requires Sides(p, sh) && v in ActiveVertices(p.vertices)
    ensures forall e: nat :: e in ListsOf(sh, side)[v] <==> e in ActiveEdges(p.edges) && Owner(p.edges[e], side) == v
    ensures EndsOf(p.vertices[v], side).degree == |set e | e in ActiveEdges(p.edges) && Owner(p.edges[e], side) == v|
  {
    hide SideOk;
    var members := ActiveEdges(p.edges);
    ListMembers(p.vertices, p.edges, side, ListsOf(sh, side), members, v);
    var l := ListsOf(sh, side)[v];
    assert (set e | e in members && Owner(p.edges[e], side) == v) == Elements(l);
  }

  lemma ListMembers(vs: seq<VertexRec>, es: seq<EdgeRec>, side: Side, lists: Lists, members: set<nat>, v: nat)
    requires SideOk(vs, es, side, lists, members) && v in ActiveVertices(vs) && members == ActiveEdges(es)
    ensures |lists| == |vs| && Distinct(lists[v]) && EndsOf(vs[v], side).degree == |lists[v]|
    ensures forall e: nat :: e in lists[v] <==> e in members && Owner(es[e], side) == v
  {
    hide SideOk;
    ListSelf(vs, es, side, lists, members, v);
    forall e: nat ensures e in lists[v] <==> e in members && Owner(es[e], side) == v {
      ListMember(vs, es, side, lists, members, v, e);
    }
  }

  lemma ListSelf(vs: seq<VertexRec>, es: seq<EdgeRec>, side: Side, lists: Lists, members: set<nat>, v: nat)
    requires SideOk(vs, es, side, lists, members) && v in ActiveVertices(vs)
    ensures |lists| == |vs| && Distinct(lists[v]) && EndsOf(vs[v], side) == EndsFor(lists[v])
  {
    hide NodeOk;
    assert ListOk(v, vs[v], es, side, lists[v]);
  }

  lemma ListMember(vs: seq<VertexRec>, es: seq<EdgeRec>, side: Side, lists: Lists, members: set<nat>, v: nat, e: nat)
    requires SideOk(vs, es, side, lists, members) && v < |vs| == |lists| && members == ActiveEdges(es)
    ensures e in lists[v] <==> e in members && Owner(es[e], side) == v
  {
    var l := lists[v];
    if e in l {
      assert ListOk(v, vs[v], es, side, l) && Holds(l, members);
      var k :| 0 <= k < |l| && l[k] == e;
      assert NodeOk(es, side, v, l, k);
    } else if e in members {
      assert Sits(es, side, lists, e);
    }
  }

  /** No edge from a to b was added earlier than h. */
  ghost predicate Eldest(m: Multigraph, stamps: seq<nat>, a: Handle, b: Handle, h: Handle)
  {
    && h in m.edges && m.edges[h] == (a, b) && h.index < |stamps|
    && forall f :: f in m.edges && m.edges[f] == (a, b) ==> f.index < |stamps| && stamps[h.index] <= stamps[f.index]
  }

  // --- What each step does to the multigraph ---------------------------------

  lemma AddVertexAbs(p: Pools)
    requires p.vertexFree == INVALID_INDEX || p.vertexFree < |p.vertices|
    requires AddedVertex(p) !in ActiveVertices(p.vertices) && EndpointsLive(p)
    ensures var i, p' := AddedVertex(p), AddVertex(p);
            var h := VertexHandle(p'.vertices, i);
            && h !in Abs(p).vertices
            && Abs(p') == Abs(p).(vertices := Abs(p).vertices + {h})
  {
    var i, p' := AddedVertex(p), AddVertex(p);
    var h := VertexHandle(p'.vertices, i);
    forall x ensures NamesVertex(p'.vertices, x) <==> x == h || NamesVertex(p.vertices, x) { }
    assert VertexHandles(p'.vertices) == VertexHandles(p.vertices) + {h};
    forall x | NamesEdge(p.edges, x)
      ensures EndsOfEdge(p'.vertices, p.edges[x.index]) == EndsOfEdge(p.vertices, p.edges[x.index])
    {
      assert x.index in ActiveEdges(p.edges);
    }
    assert EdgeMap(p'.vertices, p'.edges) == EdgeMap(p.vertices, p.edges);
  }

  /** One edge slot is taken, and nothing else changes. */
  lemma AddEdgeAbs(p: Pools, p': Pools, e: nat)
    requires KeepsOthers(p, p', e) && e !in ActiveEdges(p.edges) && e < |p'.edges|
    requires p'.edges[e].active && |p'.edges| <= |p.edges| + 1 && (e < |p.edges| ==> |p'.edges| == |p.edges|)
    ensures var h := Handle(e, p'.edges[e].generation);
            && h !in Abs(p).edges
            && Abs(p') == Abs(p).(edges := Abs(p).edges[h := EndsOfEdge(p.vertices, p'.edges[e])])
  {
    hide EdgeMap, VertexHandles;
    var h := Handle(e, p'.edges[e].generation);
    SameVertices(p, p', e);
    AddedNames(p, p', e);
    assert EdgeMap(p'.vertices, p'.edges) == EdgeMap(p.vertices, p.edges)[h := EndsOfEdge(p.vertices, p'.edges[e])];
  }

  lemma AddedNames(p: Pools, p': Pools, e: nat)
    requires KeepsOthers(p, p', e) && e !in ActiveEdges(p.edges) && e < |p'.edges|
    requires p'.edges[e].active && |p'.edges| <= |p.edges| + 1 && (e < |p.edges| ==> |p'.edges| == |p.edges|)
    ensures forall x :: NamesEdge(p'.edges, x) <==> x == Handle(e, p'.edges[e].generation) || NamesEdge(p.edges, x)
  {
  }

  lemma SameVertices(p: Pools, p': Pools, e: nat)
    requires KeepsOthers(p, p', e)
    ensures VertexHandles(p'.vertices) == VertexHandles(p.vertices)
    ensures forall i: nat :: VertexHandle(p'.vertices, i) == VertexHandle(p.vertices, i)
  {
    forall x ensures NamesVertex(p'.vertices, x) <==> NamesVertex(p.vertices, x) { }
  }

  /** One edge slot is retired, and nothing else changes. */
  lemma ReleaseAbs(p: Pools, p': Pools, e: nat)
    requires KeepsOthers(p, p', e) && e in ActiveEdges(p.edges) && |p'.edges| == |p.edges|
    requires ActiveEdges(p'.edges) == ActiveEdges(p.edges) - {e}
    ensures Abs(p') == Abs(p).(edges := Abs(p).edges - {Handle(e, p.edges[e].generation)})
  {
    var h := Handle(e, p.edges[e].generation);
    SameVertices(p, p', e);
    ReleasedNames(p, p', e);
    assert EdgeMap(p'.vertices, p'.edges) == EdgeMap(p.vertices, p.edges) - {h};
  }

  lemma ReleasedNames(p: Pools, p': Pools, e: nat)
    requires KeepsOthers(p, p', e) && e in ActiveEdges(p.edges) && |p'.edges| == |p.edges|
    requires ActiveEdges(p'.edges) == ActiveEdges(p.edges) - {e}
    ensures forall x :: NamesEdge(p'.edges, x) <==> x != Handle(e, p.edges[e].generation) && NamesEdge(p.edges, x)
  {
    assert !p'.edges[e].active by { assert e !in ActiveEdges(p'.edges); }
  }

  lemma RetireAbs(p: Pools, v: nat)
    requires v in ActiveVertices(p.vertices) && EndpointsLive(Retire(p, v))
    ensures Abs(Retire(p, v)) == Abs(p).(vertices := Abs(p).vertices - {VertexHandle(p.vertices, v)})
  {
    var p', h := Retire(p, v), VertexHandle(p.vertices, v);
    forall x ensures NamesVertex(p'.vertices, x) <==> x != h && NamesVertex(p.vertices, x) { }
    assert VertexHandles(p'.vertices) == VertexHandles(p.vertices) - {h};
    forall x | NamesEdge(p.edges, x)
      ensures EndsOfEdge(p'.vertices, p.edges[x.index]) == EndsOfEdge(p.vertices, p.edges[x.index])
    {
      assert x.index in ActiveEdges(p'.edges);
    }
    assert EdgeMap(p'.vertices, p'.edges) == EdgeMap(p.vertices, p.edges);
  }

  lemma ClearAbs(p: Pools)
    requires ActiveVertices(p.vertices) == {} && ActiveEdges(p.edges) == {}
    ensures Abs(p) == Empty
  {
    forall x ensures !NamesVertex(p.vertices, x) { assert x.index !in ActiveVertices(p.vertices); }
    forall x ensures !NamesEdge(p.edges, x) { assert x.index !in ActiveEdges(p.edges); }
  }

  /** Once every edge that touches v is gone, dropping v is what the multigraph means by
      removing it. */
  lemma RemovedVertex(m: Multigraph, rest: map<Handle, (Handle, Handle)>, v: Handle, gone: set<Handle>)
    requires rest == m.edges - gone
    requires forall e :: e in gone ==> e in m.edges && Touches(m.edges[e], v)
    requires forall e :: e in rest ==> !Touches(rest[e], v)
    ensures Multigraph(m.vertices - {v}, rest) == WithoutVertex(m, v)
  {
    assert forall e :: e in m.edges ==> (e in rest <==> !Touches(m.edges[e], v));
  }
}
