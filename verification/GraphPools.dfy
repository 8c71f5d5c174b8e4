/** The two pools of the graph and the link surgery done on them.

    An edge record is a node of two doubly linked lists at once: its source's out-list and
    its destination's in-list. The two lists differ only in which fields they go through,
    so every list operation is written once, for either side. */
module GraphPools {

  const UINT32_MAX: nat := 0xFFFF_FFFF

  /** Ends every list and marks an empty free list. */
  const INVALID_INDEX: nat := UINT32_MAX

  /** Capacity ceiling of both pools. */
  const MAX_CAPACITY: nat := 0x7FFF_FFFF

  datatype Side = Out | In

  /** Head, tail and length of one of a vertex's two lists. */
  datatype Ends = Ends(head: nat, tail: nat, degree: nat)

  /** One of an edge's two pairs of links. */
  datatype Links = Links(next: nat, prev: nat)

  /** While a vertex is inactive, `outs.head` is its free-list link. */
  datatype VertexRec = VertexRec(outs: Ends, ins: Ends, generation: nat, active: bool)

  /** While an edge is inactive, `outs.next` is its free-list link. */
  datatype EdgeRec = EdgeRec(src: nat, dst: nat, outs: Links, ins: Links, generation: nat, active: bool)

  /** The pools below their high-water marks, the heads of their free lists and the live
      counts. */
  datatype Pools = Pools(
    vertices: seq<VertexRec>, edges: seq<EdgeRec>,
    vertexFree: nat, edgeFree: nat,
    vertexCount: nat, edgeCount: nat)

  const NoEnds := Ends(INVALID_INDEX, INVALID_INDEX, 0)

  function EndsOf(v: VertexRec, side: Side): Ends
  {
    if side == Out then v.outs else v.ins
  }

  function WithEnds(v: VertexRec, side: Side, ends: Ends): VertexRec
  {
    if side == Out then v.(outs := ends) else v.(ins := ends)
  }

  function LinksOf(e: EdgeRec, side: Side): Links
  {
    if side == Out then e.outs else e.ins
  }

  function WithLinks(e: EdgeRec, side: Side, links: Links): EdgeRec
  {
    if side == Out then e.(outs := links) else e.(ins := links)
  }

  /** The vertex whose list an edge sits on. */
  function Owner(e: EdgeRec, side: Side): nat
  {
    if side == Out then e.src else e.dst
  }

  /** The vertex at the other end. */
  function Far(e: EdgeRec, side: Side): nat
  {
    if side == Out then e.dst else e.src
  }

  function Increment(x: nat): nat { if x == UINT32_MAX then 0 else x + 1 }

  function Decrement(x: nat): nat { if x == 0 then UINT32_MAX else x - 1 }

  /** Generations skip 0, which no handle carries. */
  function Bump(generation: nat): nat
  {
    var next := Increment(generation);
    if next == 0 then 1 else next
  }

  function SetNext(es: seq<EdgeRec>, side: Side, i: nat, next: nat): (r: seq<EdgeRec>)
    requires i < |es|
    ensures |r| == |es|
  {
    es[i := WithLinks(es[i], side, LinksOf(es[i], side).(next := next))]
  }

  function SetPrev(es: seq<EdgeRec>, side: Side, i: nat, prev: nat): (r: seq<EdgeRec>)
    requires i < |es|
    ensures |r| == |es|
  {
    es[i := WithLinks(es[i], side, LinksOf(es[i], side).(prev := prev))]
  }

  predicate IsLink(es: seq<EdgeRec>, i: nat)
  {
    i == INVALID_INDEX || i < |es|
  }

  /** The edge records after edge e is appended behind `tail`. */
  function AppendLinks(es: seq<EdgeRec>, side: Side, e: nat, tail: nat): (r: seq<EdgeRec>)
    requires e < |es| && IsLink(es, tail)
    ensures |r| == |es|
  {
    var es1 := es[e := WithLinks(es[e], side, Links(INVALID_INDEX, tail))];
    if tail == INVALID_INDEX then es1 else SetNext(es1, side, tail, e)
  }

  function AppendEnds(ends: Ends, e: nat): Ends
  {
    Ends(if ends.tail == INVALID_INDEX then e else ends.head, e, Increment(ends.degree))
  }

  /** The edge records after the neighbours of e are joined around it. */
  function UnlinkLinks(es: seq<EdgeRec>, side: Side, e: nat): (r: seq<EdgeRec>)
    requires e < |es| && IsLink(es, LinksOf(es[e], side).prev) && IsLink(es, LinksOf(es[e], side).next)
    ensures |r| == |es|
  {
    var links := LinksOf(es[e], side);
    var es1 := if links.prev == INVALID_INDEX then es else SetNext(es, side, links.prev, links.next);
    if links.next == INVALID_INDEX then es1 else SetPrev(es1, side, links.next, links.prev)
  }

  function UnlinkEnds(ends: Ends, links: Links): Ends
  {
    Ends(if links.prev == INVALID_INDEX then links.next else ends.head,
         if links.next == INVALID_INDEX then links.prev else ends.tail,
         Decrement(ends.degree))
  }
}
