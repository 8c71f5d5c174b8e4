/** When the pools form a graph: the lists behind the links. */
module GraphShape {
  import opened Counting
  import opened GraphPools

  /** For each vertex slot, the edges on one of its lists, head to tail. */
  type Lists = seq<seq<nat>>

  function NextIn(l: seq<nat>, k: nat): nat
    requires k < |l|
  {
    if k + 1 < |l| then l[k + 1] else INVALID_INDEX
  }

  function PrevIn(l: seq<nat>, k: nat): nat
    requires k < |l|
  {
    if k > 0 then l[k - 1] else INVALID_INDEX
  }

  function EndsFor(l: seq<nat>): Ends
  {
    if l == [] then NoEnds else Ends(l[0], l[|l| - 1], |l|)
  }

  /** Node k of list l of vertex v carries the links of its place in l. */
  ghost predicate NodeOk(es: seq<EdgeRec>, side: Side, v: nat, l: seq<nat>, k: nat)
    requires k < |l|
  {
    && l[k] < |es|
    && LinksOf(es[l[k]], side) == Links(NextIn(l, k), PrevIn(l, k))
    && Owner(es[l[k]], side) == v
  }

  ghost predicate ListOk(v: nat, rec: VertexRec, es: seq<EdgeRec>, side: Side, l: seq<nat>)
  {
    && Distinct(l)
    && (rec.active ==> EndsOf(rec, side) == EndsFor(l))
    && (!rec.active ==> l == [])
    && forall k :: 0 <= k < |l| ==> NodeOk(es, side, v, l, k)
  }

  /** One side of the graph: every vertex's list is well linked, and the lists hold
      exactly the given edges, each on its owner's list. */
  ghost predicate SideOk(vs: seq<VertexRec>, es: seq<EdgeRec>, side: Side, lists: Lists, members: set<nat>)
  {
    ListsOk(vs, es, side, lists, members) && AllSit(es, side, lists, members)
  }

  ghost predicate ListsOk(vs: seq<VertexRec>, es: seq<EdgeRec>, side: Side, lists: Lists, members: set<nat>)
  {
    && |lists| == |vs|
    && forall v :: 0 <= v < |vs| ==> ListOk(v, vs[v], es, side, lists[v]) && Holds(lists[v], members)
  }

  ghost predicate AllSit(es: seq<EdgeRec>, side: Side, lists: Lists, members: set<nat>)
  {
    forall e :: e in members ==> Sits(es, side, lists, e)
  }

  ghost predicate Holds(l: seq<nat>, members: set<nat>)
  {
    forall k :: 0 <= k < |l| ==> l[k] in members
  }

  /** Edge e is on its owner's list. */
  ghost predicate Sits(es: seq<EdgeRec>, side: Side, lists: Lists, e: nat)
  {
    e < |es| && Owner(es[e], side) < |lists| && e in lists[Owner(es[e], side)]
  }

  /** Nothing on this side was touched. */
  lemma SideFrame(vs: seq<VertexRec>, es: seq<EdgeRec>, vs': seq<VertexRec>, es': seq<EdgeRec>,
                  side: Side, lists: Lists, members: set<nat>)
    requires SideOk(vs, es, side, lists, members)
    requires |vs'| == |vs| && |es'| >= |es|
    requires forall v :: 0 <= v < |vs| ==>
               vs'[v].active == vs[v].active && (vs[v].active ==> EndsOf(vs'[v], side) == EndsOf(vs[v], side))
    requires forall e :: e in members ==> e < |es| && LinksOf(es'[e], side) == LinksOf(es[e], side)
                                          && Owner(es'[e], side) == Owner(es[e], side)
    ensures SideOk(vs', es', side, lists, members)
  {
    forall v | 0 <= v < |vs| ensures ListOk(v, vs'[v], es', side, lists[v]) {
      assert ListOk(v, vs[v], es, side, lists[v]) && Holds(lists[v], members);
      forall k | 0 <= k < |lists[v]| ensures NodeOk(es', side, v, lists[v], k) {
        assert NodeOk(es, side, v, lists[v], k);
      }
    }
    forall e | e in members ensures Sits(es', side, lists, e) { assert Sits(es, side, lists, e); }
  }

  // --- Appending -------------------------------------------------------------

  /** The list that gains e, after the surgery. */
  lemma AppendedList(es: seq<EdgeRec>, side: Side, v: nat, rec: VertexRec, l: seq<nat>, e: nat)
    requires ListOk(v, rec, es, side, l) && rec.active && e < |es| && e !in l && Owner(es[e], side) == v
    requires |es| <= MAX_CAPACITY && |l| < MAX_CAPACITY
    ensures IsLink(es, EndsOf(rec, side).tail)
    ensures ListOk(v, WithEnds(rec, side, AppendEnds(EndsOf(rec, side), e)),
                   AppendLinks(es, side, e, EndsOf(rec, side).tail), side, l + [e])
  {
    var tail := EndsOf(rec, side).tail;
    var l' := l + [e];
    if l != [] { assert NodeOk(es, side, v, l, |l| - 1); }
    var es' := AppendLinks(es, side, e, tail);
    forall k | 0 <= k < |l'| ensures NodeOk(es', side, v, l', k) {
      if k < |l| { assert NodeOk(es, side, v, l, k); }
    }
  }

  lemma AppendElsewhere(es: seq<EdgeRec>, side: Side, e: nat, tail: nat, v: nat, u: nat, rec: VertexRec, l: seq<nat>)
    requires ListOk(u, rec, es, side, l) && u != v
    requires e < |es| && Owner(es[e], side) == v
    requires tail == INVALID_INDEX || (tail < |es| && Owner(es[tail], side) == v)
    ensures ListOk(u, rec, AppendLinks(es, side, e, tail), side, l)
  {
    var es' := AppendLinks(es, side, e, tail);
    forall k | 0 <= k < |l| ensures NodeOk(es', side, u, l, k) {
      assert NodeOk(es, side, u, l, k);
      assert es'[l[k]] == es[l[k]];
    }
  }

  /** Surgery on the links of one side changes nothing else in a record. */
  lemma AppendKeeps(es: seq<EdgeRec>, side: Side, e: nat, tail: nat, i: nat)
    requires e < |es| && IsLink(es, tail) && i < |es|
    ensures var r := AppendLinks(es, side, e, tail)[i];
            && r.src == es[i].src && r.dst == es[i].dst && r.active == es[i].active
            && r.generation == es[i].generation
            && LinksOf(r, Other(side)) == LinksOf(es[i], Other(side))
  {
  }

  function Other(side: Side): Side { if side == Out then In else Out }

  lemma AppendSits(es: seq<EdgeRec>, side: Side, lists: Lists, e: nat, tail: nat, v: nat, x: nat)
    requires e < |es| && IsLink(es, tail) && v < |lists| && Owner(es[e], side) == v
    requires x == e || Sits(es, side, lists, x)
    ensures Sits(AppendLinks(es, side, e, tail), side, lists[v := lists[v] + [e]], x)
  {
    AppendKeeps(es, side, e, tail, x);
  }

  lemma AppendLists(vs: seq<VertexRec>, es: seq<EdgeRec>, side: Side, lists: Lists, members: set<nat>, e: nat, v: nat)
    requires ListsOk(vs, es, side, lists, members) && |es| <= MAX_CAPACITY
    requires v < |vs| && vs[v].active && e < |es| && e !in members && Owner(es[e], side) == v
    requires |lists[v]| < MAX_CAPACITY
    ensures IsLink(es, EndsOf(vs[v], side).tail)
    ensures ListsOk(vs[v := WithEnds(vs[v], side, AppendEnds(EndsOf(vs[v], side), e))],
                    AppendLinks(es, side, e, EndsOf(vs[v], side).tail), side,
                    lists[v := lists[v] + [e]], members + {e})
  {
    var l, tail := lists[v], EndsOf(vs[v], side).tail;
    assert ListOk(v, vs[v], es, side, l) && Holds(l, members);
    AppendedList(es, side, v, vs[v], l, e);
    assert tail == INVALID_INDEX || (tail < |es| && Owner(es[tail], side) == v) by {
      if l != [] { assert NodeOk(es, side, v, l, |l| - 1); }
    }
    forall u | 0 <= u < |vs| && u != v
      ensures ListOk(u, vs[u], AppendLinks(es, side, e, tail), side, lists[u]) && Holds(lists[u], members + {e})
    {
      assert ListOk(u, vs[u], es, side, lists[u]) && Holds(lists[u], members);
      AppendElsewhere(es, side, e, tail, v, u, vs[u], lists[u]);
    }
  }

  lemma AppendOk(vs: seq<VertexRec>, es: seq<EdgeRec>, side: Side, lists: Lists, members: set<nat>, e: nat, v: nat)
    requires SideOk(vs, es, side, lists, members) && |es| <= MAX_CAPACITY
    requires v < |vs| && vs[v].active && e < |es| && e !in members && Owner(es[e], side) == v
    requires |lists[v]| < MAX_CAPACITY
    ensures IsLink(es, EndsOf(vs[v], side).tail)
    ensures SideOk(vs[v := WithEnds(vs[v], side, AppendEnds(EndsOf(vs[v], side), e))],
                   AppendLinks(es, side, e, EndsOf(vs[v], side).tail), side,
                   lists[v := lists[v] + [e]], members + {e})
  {
    AppendLists(vs, es, side, lists, members, e, v);
    var tail := EndsOf(vs[v], side).tail;
    forall x | x in members + {e}
      ensures Sits(AppendLinks(es, side, e, tail), side, lists[v := lists[v] + [e]], x)
    {
      assert x == e || Sits(es, side, lists, x);
      AppendSits(es, side, lists, e, tail, v, x);
    }
  }

  // --- Unlinking -------------------------------------------------------------

  function Without(l: seq<nat>, k: nat): seq<nat>
    requires k < |l|
  {
    l[..k] + l[k + 1..]
  }

  /** The links of edge l[k] are its neighbours in l. */
  lemma Neighbours(es: seq<EdgeRec>, side: Side, v: nat, rec: VertexRec, l: seq<nat>, k: nat)
    requires ListOk(v, rec, es, side, l) && k < |l| && |es| <= INVALID_INDEX
    ensures rec.active && l[k] < |es| && Owner(es[l[k]], side) == v
    ensures LinksOf(es[l[k]], side) == Links(NextIn(l, k), PrevIn(l, k))
    ensures IsLink(es, PrevIn(l, k)) && IsLink(es, NextIn(l, k))
    ensures k > 0 ==> l[k - 1] < |es| && Owner(es[l[k - 1]], side) == v
    ensures k + 1 < |l| ==> l[k + 1] < |es| && Owner(es[l[k + 1]], side) == v
  {
    assert NodeOk(es, side, v, l, k);
    if k > 0 { assert NodeOk(es, side, v, l, k - 1); }
    if k + 1 < |l| { assert NodeOk(es, side, v, l, k + 1); }
  }

  lemma UnlinkedNode(es: seq<EdgeRec>, side: Side, v: nat, rec: VertexRec, l: seq<nat>, k: nat, j: nat)
    requires ListOk(v, rec, es, side, l) && k < |l| && j < |l| - 1 && |es| <= MAX_CAPACITY
    requires l[k] < |es| && LinksOf(es[l[k]], side) == Links(NextIn(l, k), PrevIn(l, k))
    requires IsLink(es, PrevIn(l, k)) && IsLink(es, NextIn(l, k))
    ensures NodeOk(UnlinkLinks(es, side, l[k]), side, v, Without(l, k), j)
  {
    var i := if j < k then j else j + 1;
    var l' := Without(l, k);
    assert l'[j] == l[i];
    assert NodeOk(es, side, v, l, i);
    assert NextIn(l', j) == (if i + 1 == k then NextIn(l, k) else NextIn(l, i));
    assert PrevIn(l', j) == (if i == k + 1 then PrevIn(l, k) else PrevIn(l, i));
    if k > 0 { assert NodeOk(es, side, v, l, k - 1); }
    if k + 1 < |l| { assert NodeOk(es, side, v, l, k + 1); }
  }

  lemma UnlinkedList(es: seq<EdgeRec>, side: Side, v: nat, rec: VertexRec, l: seq<nat>, k: nat)
    requires ListOk(v, rec, es, side, l) && rec.active && k < |l| && |es| <= MAX_CAPACITY
    requires l[k] < |es| && LinksOf(es[l[k]], side) == Links(NextIn(l, k), PrevIn(l, k))
    requires IsLink(es, PrevIn(l, k)) && IsLink(es, NextIn(l, k))
    ensures ListOk(v, WithEnds(rec, side, UnlinkEnds(EndsOf(rec, side), LinksOf(es[l[k]], side))),
                   UnlinkLinks(es, side, l[k]), side, Without(l, k))
  {
    var l' := Without(l, k);
    forall j | 0 <= j < |l'| ensures NodeOk(UnlinkLinks(es, side, l[k]), side, v, l', j) {
      UnlinkedNode(es, side, v, rec, l, k, j);
    }
    forall j | 0 <= j < |l| ensures l[j] < |es| { assert NodeOk(es, side, v, l, j); }
    UnlinkedEnds(es, l, k);
  }

  lemma UnlinkedEnds(es: seq<EdgeRec>, l: seq<nat>, k: nat)
    requires k < |l| && |es| <= MAX_CAPACITY && forall j :: 0 <= j < |l| ==> l[j] < |es|
    ensures UnlinkEnds(EndsFor(l), Links(NextIn(l, k), PrevIn(l, k))) == EndsFor(Without(l, k))
  {
  }

  lemma UnlinkElsewhere(es: seq<EdgeRec>, side: Side, e: nat, v: nat, u: nat, rec: VertexRec, l: seq<nat>)
    requires ListOk(u, rec, es, side, l) && u != v && e < |es|
    requires var links := LinksOf(es[e], side);
             && (links.prev == INVALID_INDEX || (links.prev < |es| && Owner(es[links.prev], side) == v))
             && (links.next == INVALID_INDEX || (links.next < |es| && Owner(es[links.next], side) == v))
    ensures ListOk(u, rec, UnlinkLinks(es, side, e), side, l)
  {
    var es' := UnlinkLinks(es, side, e);
    forall k | 0 <= k < |l| ensures NodeOk(es', side, u, l, k) {
      assert NodeOk(es, side, u, l, k);
      assert es'[l[k]] == es[l[k]];
    }
  }

  lemma UnlinkKeeps(es: seq<EdgeRec>, side: Side, e: nat, i: nat)
    requires e < |es| && i < |es|
    requires IsLink(es, LinksOf(es[e], side).prev) && IsLink(es, LinksOf(es[e], side).next)
    ensures var r := UnlinkLinks(es, side, e)[i];
            && r.src == es[i].src && r.dst == es[i].dst && r.active == es[i].active
            && r.generation == es[i].generation
            && LinksOf(r, Other(side)) == LinksOf(es[i], Other(side))
  {
  }

  lemma WithoutHolds(l: seq<nat>, k: nat, members: set<nat>)
    requires k < |l| && Distinct(l) && Holds(l, members)
    ensures Holds(Without(l, k), members - {l[k]})
  {
    forall j | 0 <= j < |l| - 1 ensures Without(l, k)[j] in members - {l[k]} {
      var i := if j < k then j else j + 1;
      assert Without(l, k)[j] == l[i];
    }
  }

  lemma ElsewhereHolds(es: seq<EdgeRec>, side: Side, u: nat, rec: VertexRec, l: seq<nat>, members: set<nat>, e: nat)
    requires ListOk(u, rec, es, side, l) && Holds(l, members) && e < |es| && Owner(es[e], side) != u
    ensures Holds(l, members - {e})
  {
    forall j | 0 <= j < |l| ensures l[j] in members - {e} { assert NodeOk(es, side, u, l, j); }
  }

  lemma UnlinkLists(vs: seq<VertexRec>, es: seq<EdgeRec>, side: Side, lists: Lists, members: set<nat>, v: nat, k: nat)
    requires ListsOk(vs, es, side, lists, members) && |es| <= MAX_CAPACITY
    requires v < |vs| && k < |lists[v]|
    ensures lists[v][k] < |es| && Owner(es[lists[v][k]], side) == v && vs[v].active
    ensures var links := LinksOf(es[lists[v][k]], side);
            && IsLink(es, links.prev) && IsLink(es, links.next)
            && ListsOk(vs[v := WithEnds(vs[v], side, UnlinkEnds(EndsOf(vs[v], side), links))],
                       UnlinkLinks(es, side, lists[v][k]), side,
                       lists[v := Without(lists[v], k)], members - {lists[v][k]})
  {
    var l := lists[v];
    var e := l[k];
    assert ListOk(v, vs[v], es, side, l) && Holds(l, members);
    Neighbours(es, side, v, vs[v], l, k);
    UnlinkedList(es, side, v, vs[v], l, k);
    WithoutHolds(l, k, members);
    forall u | 0 <= u < |vs| && u != v
      ensures ListOk(u, vs[u], UnlinkLinks(es, side, e), side, lists[u]) && Holds(lists[u], members - {e})
    {
      assert ListOk(u, vs[u], es, side, lists[u]) && Holds(lists[u], members);
      UnlinkElsewhere(es, side, e, v, u, vs[u], lists[u]);
      ElsewhereHolds(es, side, u, vs[u], lists[u], members, e);
    }
  }

  lemma UnlinkOk(vs: seq<VertexRec>, es: seq<EdgeRec>, side: Side, lists: Lists, members: set<nat>, v: nat, k: nat)
    requires SideOk(vs, es, side, lists, members) && |es| <= MAX_CAPACITY
    requires v < |vs| && k < |lists[v]|
    ensures lists[v][k] < |es| && Owner(es[lists[v][k]], side) == v && vs[v].active
    ensures var links := LinksOf(es[lists[v][k]], side);
            && IsLink(es, links.prev) && IsLink(es, links.next)
            && SideOk(vs[v := WithEnds(vs[v], side, UnlinkEnds(EndsOf(vs[v], side), links))],
                      UnlinkLinks(es, side, lists[v][k]), side,
                      lists[v := Without(lists[v], k)], members - {lists[v][k]})
  {
    UnlinkLists(vs, es, side, lists, members, v, k);
    var e := lists[v][k];
    forall x | x in members - {e}
      ensures Sits(UnlinkLinks(es, side, e), side, lists[v := Without(lists[v], k)], x)
    {
      assert Sits(es, side, lists, x);
      UnlinkKeeps(es, side, e, x);
      if Owner(es[x], side) == v { StillThere(lists[v], k, x); }
    }
  }

  lemma StillThere(l: seq<nat>, k: nat, x: nat)
    requires k < |l| && x in l && x != l[k]
    ensures x in Without(l, k)
  {
    var i :| 0 <= i < |l| && l[i] == x;
    var j := if i < k then i else i - 1;
    assert Without(l, k)[j] == x;
  }
}
