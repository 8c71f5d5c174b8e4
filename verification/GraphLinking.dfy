/** Linking an edge onto both lists, and unlinking it from both. */
module GraphLinking {
  import opened Counting
  import opened GraphPools
  import opened GraphShape
  import opened GraphStructure

  /** Vertex and edge records together. */
  datatype Records = Records(vertices: seq<VertexRec>, edges: seq<EdgeRec>)

  /** Edge e's owner and the owner's tail are slots, so e can be appended. */
  predicate CanAppend(r: Records, side: Side, e: nat)
  {
    && e < |r.edges| && Owner(r.edges[e], side) < |r.vertices|
    && IsLink(r.edges, EndsOf(r.vertices[Owner(r.edges[e], side)], side).tail)
  }

  /** Append e to its owner's list. */
  function Append(r: Records, side: Side, e: nat): (r': Records)
    requires CanAppend(r, side, e)
    ensures |r'.vertices| == |r.vertices| && |r'.edges| == |r.edges|
  {
    var v := Owner(r.edges[e], side);
    var ends := EndsOf(r.vertices[v], side);
    Records(r.vertices[v := WithEnds(r.vertices[v], side, AppendEnds(ends, e))],
            AppendLinks(r.edges, side, e, ends.tail))
  }

  predicate CanUnlink(r: Records, side: Side, e: nat)
  {
    && e < |r.edges| && Owner(r.edges[e], side) < |r.vertices|
    && IsLink(r.edges, LinksOf(r.edges[e], side).prev) && IsLink(r.edges, LinksOf(r.edges[e], side).next)
  }

  /** Take e off its owner's list. */
  function Unlink(r: Records, side: Side, e: nat): (r': Records)
    requires CanUnlink(r, side, e)
    ensures |r'.vertices| == |r.vertices| && |r'.edges| == |r.edges|
  {
    var v := Owner(r.edges[e], side);
    Records(r.vertices[v := WithEnds(r.vertices[v], side,
                                     UnlinkEnds(EndsOf(r.vertices[v], side), LinksOf(r.edges[e], side)))],
            UnlinkLinks(r.edges, side, e))
  }

  ghost predicate SideIs(r: Records, side: Side, lists: Lists, members: set<nat>)
  {
    SideOk(r.vertices, r.edges, side, lists, members)
  }

  /** What surgery on one side leaves alone, for every record. */
  ghost predicate KeepsRest(r: Records, r': Records, side: Side)
  {
    && |r'.vertices| == |r.vertices| && |r'.edges| == |r.edges|
    && (forall v :: 0 <= v < |r.vertices| ==>
          && r'.vertices[v].active == r.vertices[v].active
          && r'.vertices[v].generation == r.vertices[v].generation
          && EndsOf(r'.vertices[v], Other(side)) == EndsOf(r.vertices[v], Other(side))
          && (!r.vertices[v].active ==> r'.vertices[v] == r.vertices[v]))
    && (forall i :: 0 <= i < |r.edges| ==>
          && r'.edges[i].src == r.edges[i].src && r'.edges[i].dst == r.edges[i].dst
          && r'.edges[i].active == r.edges[i].active && r'.edges[i].generation == r.edges[i].generation
          && LinksOf(r'.edges[i], Other(side)) == LinksOf(r.edges[i], Other(side))
          && (!r.edges[i].active ==> r'.edges[i] == r.edges[i]))
  }

  lemma OtherSide(r: Records, r': Records, side: Side, lists: Lists, members: set<nat>)
    requires KeepsRest(r, r', side) && SideIs(r, Other(side), lists, members)
    ensures SideIs(r', Other(side), lists, members)
  {
    forall e | e in members ensures e < |r.edges| { assert Sits(r.edges, Other(side), lists, e); }
    SideFrame(r.vertices, r.edges, r'.vertices, r'.edges, Other(side), lists, members);
  }

  lemma AppendSide(r: Records, side: Side, lists: Lists, members: set<nat>, e: nat)
    requires SideIs(r, side, lists, members) && |r.edges| <= MAX_CAPACITY
    requires members <= ActiveEdges(r.edges) && e in ActiveEdges(r.edges) && e !in members
    requires Owner(r.edges[e], side) < |r.vertices| && r.vertices[Owner(r.edges[e], side)].active
    ensures CanAppend(r, side, e)
    ensures var v := Owner(r.edges[e], side);
            SideIs(Append(r, side, e), side, lists[v := lists[v] + [e]], members + {e})
    ensures KeepsRest(r, Append(r, side, e), side)
  {
    var v := Owner(r.edges[e], side);
    ShortList(r, side, lists, members, v, e);
    AppendOk(r.vertices, r.edges, side, lists, members, e, v);
    TailActive(r, side, lists, members, v);
    AppendKeepsRest(r, side, e);
  }

  lemma AppendKeepsRest(r: Records, side: Side, e: nat)
    requires CanAppend(r, side, e) && r.edges[e].active && r.vertices[Owner(r.edges[e], side)].active
    requires var tail := EndsOf(r.vertices[Owner(r.edges[e], side)], side).tail;
             tail == INVALID_INDEX || tail in ActiveEdges(r.edges)
    ensures KeepsRest(r, Append(r, side, e), side)
  {
    var tail := EndsOf(r.vertices[Owner(r.edges[e], side)], side).tail;
    forall i | 0 <= i < |r.edges| { AppendKeeps(r.edges, side, e, tail, i); }
  }

  lemma UnlinkKeepsRest(r: Records, side: Side, e: nat)
    requires CanUnlink(r, side, e) && r.edges[e].active && r.vertices[Owner(r.edges[e], side)].active
    requires var links := LinksOf(r.edges[e], side);
             && (links.prev == INVALID_INDEX || links.prev in ActiveEdges(r.edges))
             && (links.next == INVALID_INDEX || links.next in ActiveEdges(r.edges))
    ensures KeepsRest(r, Unlink(r, side, e), side)
  {
    forall i | 0 <= i < |r.edges| { UnlinkKeeps(r.edges, side, e, i); }
  }

  /** A list that lacks an edge is shorter than the pool. */
  lemma ShortList(r: Records, side: Side, lists: Lists, members: set<nat>, v: nat, e: nat)
    requires SideIs(r, side, lists, members) && |r.edges| <= MAX_CAPACITY && v < |r.vertices|
    requires e < |r.edges| && e !in members
    ensures |lists[v]| < MAX_CAPACITY
  {
    var l := lists[v];
    assert ListOk(v, r.vertices[v], r.edges, side, l) && Holds(l, members);
    ListWithin(v, r.vertices[v], r.edges, side, l);
    assert e !in l;
    PigeonHole(l, |r.edges|);
  }

  lemma ListWithin(v: nat, rec: VertexRec, es: seq<EdgeRec>, side: Side, l: seq<nat>)
    requires ListOk(v, rec, es, side, l)
    ensures forall k :: 0 <= k < |l| ==> l[k] < |es|
  {
    forall k | 0 <= k < |l| ensures l[k] < |es| { assert NodeOk(es, side, v, l, k); }
  }

  lemma TailActive(r: Records, side: Side, lists: Lists, members: set<nat>, v: nat)
    requires SideIs(r, side, lists, members) && v < |r.vertices| && r.vertices[v].active
    requires members <= ActiveEdges(r.edges)
    ensures var tail := EndsOf(r.vertices[v], side).tail;
            tail == INVALID_INDEX || tail in ActiveEdges(r.edges)
  {
    assert ListOk(v, r.vertices[v], r.edges, side, lists[v]) && Holds(lists[v], members);
  }

  lemma UnlinkSide(r: Records, side: Side, lists: Lists, members: set<nat>, e: nat, k: nat)
    requires SideIs(r, side, lists, members) && |r.edges| <= MAX_CAPACITY
    requires members <= ActiveEdges(r.edges) && e in members
    requires Owner(r.edges[e], side) < |lists| && k < |lists[Owner(r.edges[e], side)]|
    requires lists[Owner(r.edges[e], side)][k] == e
    ensures CanUnlink(r, side, e)
    ensures var v := Owner(r.edges[e], side);
            && SideIs(Unlink(r, side, e), side, lists[v := Without(lists[v], k)], members - {e})
            && r.vertices[v].active
    ensures KeepsRest(r, Unlink(r, side, e), side)
  {
    var v := Owner(r.edges[e], side);
    UnlinkOk(r.vertices, r.edges, side, lists, members, v, k);
    LinksActive(r, side, lists, members, v, k);
    UnlinkKeepsRest(r, side, e);
  }

  lemma LinksActive(r: Records, side: Side, lists: Lists, members: set<nat>, v: nat, k: nat)
    requires SideIs(r, side, lists, members) && v < |r.vertices| && k < |lists[v]|
    requires members <= ActiveEdges(r.edges)
    ensures lists[v][k] < |r.edges|
    ensures var links := LinksOf(r.edges[lists[v][k]], side);
            && (links.prev == INVALID_INDEX || links.prev in ActiveEdges(r.edges))
            && (links.next == INVALID_INDEX || links.next in ActiveEdges(r.edges))
  {
    assert ListOk(v, r.vertices[v], r.edges, side, lists[v]) && Holds(lists[v], members);
    assert NodeOk(r.edges, side, v, lists[v], k);
  }
}
