/** The self-check on a graph that its own operations have brought about. */
module GraphSelfCheck {
  import opened Counting
  import opened GraphPools
  import opened GraphShape
  import opened GraphStructure
  import opened GraphVersion
  import opened GraphStorage
  import opened GraphLocate
  import opened GraphCheck
  import opened GraphCheckExact
  import opened GraphHalting
  import opened Graphs
  import GraphChecker

  lemma StructureInRange(p: Pools, sh: Shape)
    requires Structure(p, sh)
    ensures InRange(p.edges)
  {
    hide SideOk;
    forall e | 0 <= e < |p.edges| && p.edges[e].active
      ensures IsLink(p.edges, p.edges[e].outs.prev) && IsLink(p.edges, p.edges[e].outs.next)
      ensures IsLink(p.edges, p.edges[e].ins.prev) && IsLink(p.edges, p.edges[e].ins.next)
    {
      NodeAgrees(p.vertices, p.edges, Out, sh.outs, e);
      NodeAgrees(p.vertices, p.edges, In, sh.ins, e);
    }
  }

  /** Recorded degrees are lengths of lists of distinct edges, far below 2^32 - 1. */
  lemma SmallDegree(vs: seq<VertexRec>, es: seq<EdgeRec>, side: Side, lists: Lists, v: nat)
    requires SideOk(vs, es, side, lists, ActiveEdges(es)) && v in ActiveVertices(vs) && |es| <= MAX_CAPACITY
    ensures EndsOf(vs[v], side).degree < UINT32_MAX
  {
    hide NodeOk;
    assert ListOk(v, vs[v], es, side, lists[v]) && Holds(lists[v], ActiveEdges(es));
    PigeonHole(lists[v], |es|);
  }

  lemma StructureHalts(p: Pools, sh: Shape)
    requires Structure(p, sh) && InRange(p.edges)
    ensures Halts(p)
  {
    hide SideOk, Halts, InRange;
    forall v | 0 <= v < |p.vertices| && p.vertices[v].active
      ensures p.vertices[v].outs.degree < UINT32_MAX && p.vertices[v].ins.degree < UINT32_MAX
    {
      SmallDegree(p.vertices, p.edges, Out, sh.outs, v);
      SmallDegree(p.vertices, p.edges, In, sh.ins, v);
    }
    BoundedHalts(p);
  }

  lemma CheckFacts(g: Graph)
    requires g.Valid()
    ensures InRange(g.edges) && InPrevLive(g.edges) && WellFormed(g.State()) && Halts(g.State())
    ensures g.storage.vertexCapacity <= MAX_CAPACITY && g.storage.edgeCapacity <= MAX_CAPACITY
    ensures |g.vertices| <= g.storage.vertexCapacity && |g.edges| <= g.storage.edgeCapacity
    ensures g.storage.weighted ==> g.storage.weightCapacity >= g.storage.edgeCapacity
  {
    hide Sides, Kept, Admitted, InRange, InPrevLive, WellFormed, Halts, Accounts;
    StructureInRange(g.State(), g.shape);
    StructureHalts(g.State(), g.shape);
    IsFormed(g.State(), g.shape);
    WellFormedExactly(g.State());
  }

  lemma IsFormed(p: Pools, sh: Shape)
    requires Formed(p, sh)
    ensures WellFormed(p)
  {
  }

  /** After any operations, the self-check passes. */
  method SelfCheck(g: Graph) returns (ok: bool)
    requires g.Valid()
    ensures ok
  {
    hide Graph.Valid, InRange, InPrevLive, WellFormed, Halts;
    CheckFacts(g);
    ok := GraphChecker.IsValid(g.State(), g.storage.vertexCapacity, g.storage.edgeCapacity,
                               g.storage.weighted, g.storage.weightCapacity);
  }
}
