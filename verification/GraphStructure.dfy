/** The whole structural invariant of the pools, and the steps that add and retire slots. */
module GraphStructure {
  import opened Counting
  import opened GraphPools
  import opened GraphShape

  /** What the links encode: both sides' lists and the two free lists. */
  datatype Shape = Shape(outs: Lists, ins: Lists, freeVertices: seq<nat>, freeEdges: seq<nat>)

  function ListsOf(sh: Shape, side: Side): Lists
  {
    if side == Out then sh.outs else sh.ins
  }

  function ActiveVertices(vs: seq<VertexRec>): set<nat>
  {
    set i: nat | i < |vs| && vs[i].active
  }

  function ActiveEdges(es: seq<EdgeRec>): set<nat>
  {
    set i: nat | i < |es| && es[i].active
  }

  function First(l: seq<nat>): nat
  {
    if l == [] then INVALID_INDEX else l[0]
  }

  /** List l hangs from head through the next links. */
  ghost predicate Chain(es: seq<EdgeRec>, side: Side, head: nat, l: seq<nat>)
  {
    && head == First(l)
    && forall k :: 0 <= k < |l| ==>
         l[k] < |es| && l[k] != INVALID_INDEX && LinksOf(es[l[k]], side).next == NextIn(l, k)
  }

  lemma ListChain(v: nat, rec: VertexRec, es: seq<EdgeRec>, side: Side, l: seq<nat>)
    requires ListOk(v, rec, es, side, l) && rec.active && |es| <= MAX_CAPACITY
    ensures Chain(es, side, EndsOf(rec, side).head, l)
  {
    forall k | 0 <= k < |l|
      ensures l[k] < |es| && l[k] != INVALID_INDEX && LinksOf(es[l[k]], side).next == NextIn(l, k)
    {
      assert NodeOk(es, side, v, l, k);
    }
  }

  /** The free list of the vertex pool is l: it threads the inactive slots, each
      once. */
  ghost predicate VertexFreeOk(vs: seq<VertexRec>, head: nat, l: seq<nat>)
  {
    && head == First(l) && Distinct(l)
    && (forall k :: 0 <= k < |l| ==> l[k] < |vs| && !vs[l[k]].active && vs[l[k]].outs.head == NextIn(l, k))
    && (forall i :: 0 <= i < |vs| && !vs[i].active ==> i in l)
  }

  ghost predicate EdgeFreeOk(es: seq<EdgeRec>, head: nat, l: seq<nat>)
  {
    && head == First(l) && Distinct(l)
    && (forall k :: 0 <= k < |l| ==> l[k] < |es| && !es[l[k]].active && es[l[k]].outs.next == NextIn(l, k))
    && (forall i :: 0 <= i < |es| && !es[i].active ==> i in l)
  }

  ghost predicate Tagged(p: Pools)
  {
    && (forall i :: 0 <= i < |p.vertices| && p.vertices[i].active ==> p.vertices[i].generation != 0)
    && (forall i :: 0 <= i < |p.edges| && p.edges[i].active ==> p.edges[i].generation != 0)
  }

  ghost predicate Sides(p: Pools, sh: Shape)
  {
    && SideOk(p.vertices, p.edges, Out, sh.outs, ActiveEdges(p.edges))
    && SideOk(p.vertices, p.edges, In, sh.ins, ActiveEdges(p.edges))
  }

  /** The structure proper: both sides hold exactly the active edges, every slot is active
      or free, and the counts are exact. */
  ghost predicate Formed(p: Pools, sh: Shape)
  {
    && Sides(p, sh) && Tagged(p)
    && VertexFreeOk(p.vertices, p.vertexFree, sh.freeVertices)
    && EdgeFreeOk(p.edges, p.edgeFree, sh.freeEdges)
    && p.vertexCount + |sh.freeVertices| == |p.vertices|
    && p.edgeCount + |sh.freeEdges| == |p.edges|
  }

  /** The structural invariant: well-formed pools within their capacity ceiling. */
  ghost predicate Structure(p: Pools, sh: Shape)
  {
    |p.vertices| <= MAX_CAPACITY && |p.edges| <= MAX_CAPACITY && Formed(p, sh)
  }

  // --- Counting --------------------------------------------------------------

  /** The recorded counts are the numbers of active slots. */
  lemma CountsExact(p: Pools, sh: Shape)
    requires Formed(p, sh)
    ensures p.vertexCount == |ActiveVertices(p.vertices)|
    ensures p.edgeCount == |ActiveEdges(p.edges)|
  {
    PartCount(ActiveVertices(p.vertices), sh.freeVertices, |p.vertices|);
    PartCount(ActiveEdges(p.edges), sh.freeEdges, |p.edges|);
  }
}
