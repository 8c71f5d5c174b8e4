/** Finding an edge between two vertices, and what rejecting parallel edges guarantees. */
module GraphLocate {
  import opened GraphPools
  import opened GraphShape
  import opened GraphStructure
  import opened GraphSteps
  import opened GraphHandles
  import opened GraphHistory
  import opened GraphModel

  /** The edge joins the pair, which is unordered on an undirected graph. */
  predicate Joins(e: EdgeRec, directed: bool, a: nat, b: nat)
  {
    (e.src == a && e.dst == b) || (!directed && e.src == b && e.dst == a)
  }

  ghost predicate SomeJoins(es: seq<EdgeRec>, directed: bool, a: nat, b: nat)
  {
    exists e :: e in ActiveEdges(es) && Joins(es[e], directed, a, b)
  }

  /** No live edge from a to b was added earlier than e. */
  ghost predicate Oldest(es: seq<EdgeRec>, stamps: seq<nat>, a: nat, b: nat, e: nat)
    requires |stamps| == |es|
  {
    && e in ActiveEdges(es) && es[e].src == a && es[e].dst == b
    && forall f :: f in ActiveEdges(es) && es[f].src == a && es[f].dst == b ==> stamps[e] <= stamps[f]
  }

  predicate Within(es: seq<EdgeRec>, l: seq<nat>)
  {
    forall k :: 0 <= k < |l| ==> l[k] < |es|
  }

  /** The first edge on a list that leads to the given vertex. */
  function FirstTo(es: seq<EdgeRec>, side: Side, l: seq<nat>, far: nat): nat
    requires Within(es, l)
  {
    if l == [] then INVALID_INDEX
    else if Far(es[l[0]], side) == far then l[0]
    else FirstTo(es, side, l[1..], far)
  }

  lemma {:induction false} FirstToIs(es: seq<EdgeRec>, side: Side, l: seq<nat>, far: nat)
    requires Within(es, l) && |es| <= MAX_CAPACITY
    ensures FirstTo(es, side, l, far) == INVALID_INDEX ==>
              forall k :: 0 <= k < |l| ==> Far(es[l[k]], side) != far
    ensures FirstTo(es, side, l, far) != INVALID_INDEX ==>
              exists k :: 0 <= k < |l| && l[k] == FirstTo(es, side, l, far) && Far(es[l[k]], side) == far
                          && forall j :: 0 <= j < k ==> Far(es[l[j]], side) != far
  {
    if l != [] {
      if Far(es[l[0]], side) == far {
        assert l[0] == FirstTo(es, side, l, far);
      } else {
        var rest := l[1..];
        FirstToIs(es, side, rest, far);
        assert forall k :: 1 <= k < |l| ==> l[k] == rest[k - 1];
        if FirstTo(es, side, l, far) != INVALID_INDEX {
          var i :| 0 <= i < |rest| && rest[i] == FirstTo(es, side, rest, far) && Far(es[rest[i]], side) == far
                   && forall j :: 0 <= j < i ==> Far(es[rest[j]], side) != far;
          assert l[i + 1] == FirstTo(es, side, l, far);
          forall j | 0 <= j < i + 1 ensures Far(es[l[j]], side) != far {
            if j > 0 { assert l[j] == rest[j - 1]; }
          }
        }
      }
    }
  }

  /** Walks a list for the first edge that leads to the given vertex. */
  method Scan(es: seq<EdgeRec>, side: Side, head: nat, far: nat, ghost l: seq<nat>) returns (e: nat)
    requires Chain(es, side, head, l)
    ensures e == FirstTo(es, side, l, far)
  {
    e := head;
    ghost var k := 0;
    while e != INVALID_INDEX
      invariant k <= |l| && e == (if k < |l| then l[k] else INVALID_INDEX)
      invariant FirstTo(es, side, l[k..], far) == FirstTo(es, side, l, far)
      decreases |l| - k
    {
      if Far(es[e], side) == far { return; }
      assert l[k..][1..] == l[k + 1..];
      e := LinksOf(es[e], side).next;
      k := k + 1;
    }
  }

  // --- Which edge that is ----------------------------------------------------

  /** What a scan of one of a vertex's lists relies on. */
  ghost predicate Scannable(p: Pools, sh: Shape, log: Log)
  {
    Sides(p, sh) && |p.edges| <= MAX_CAPACITY && Times(p, sh, log)
  }

  lemma ListReady(p: Pools, sh: Shape, log: Log, side: Side, v: nat)
    requires Scannable(p, sh, log) && v in ActiveVertices(p.vertices)
    ensures |ListsOf(sh, side)| == |p.vertices|
    ensures var l := ListsOf(sh, side)[v];
            && Chain(p.edges, side, EndsOf(p.vertices[v], side).head, l) && Within(p.edges, l)
            && InTime(l, log.stamps, log.clock)
            && EndsOf(p.vertices[v], side).degree == |l|
    ensures forall e: nat :: e in ListsOf(sh, side)[v] <==> e in ActiveEdges(p.edges) && Owner(p.edges[e], side) == v
  {
    hide InTime, SideOk;
    ListMembers(p.vertices, p.edges, side, ListsOf(sh, side), ActiveEdges(p.edges), v);
    ChainReady(p.vertices, p.edges, side, ListsOf(sh, side), ActiveEdges(p.edges), v);
  }

  lemma ChainReady(vs: seq<VertexRec>, es: seq<EdgeRec>, side: Side, lists: Lists, members: set<nat>, v: nat)
    requires SideOk(vs, es, side, lists, members) && |es| <= MAX_CAPACITY && v in ActiveVertices(vs)
    ensures |lists| == |vs| && Chain(es, side, EndsOf(vs[v], side).head, lists[v]) && Within(es, lists[v])
  {
    hide NodeOk;
    assert ListOk(v, vs[v], es, side, lists[v]);
    ListChain(v, vs[v], es, side, lists[v]);
  }

  /** The first hit on a list of edges in order of insertion is the oldest of them. */
  lemma FirstIsOldest(es: seq<EdgeRec>, side: Side, l: seq<nat>, stamps: seq<nat>, clock: nat, far: nat, f: nat)
    requires Within(es, l) && |es| <= MAX_CAPACITY && InTime(l, stamps, clock) && |stamps| == |es|
    requires f in l && Far(es[f], side) == far
    ensures var e := FirstTo(es, side, l, far);
            e in l && Far(es[e], side) == far && stamps[e] <= stamps[f]
  {
    FirstToIs(es, side, l, far);
    var e := FirstTo(es, side, l, far);
    var i :| 0 <= i < |l| && l[i] == f;
    assert e != INVALID_INDEX;
    var k :| 0 <= k < |l| && l[k] == e && Far(es[l[k]], side) == far
             && forall j :: 0 <= j < k ==> Far(es[l[j]], side) != far;
    assert k <= i;
  }

  /** On either list of a directed pair, the first hit is the oldest edge from a to b. */
  lemma ScanFindsOldest(p: Pools, sh: Shape, log: Log, side: Side, v: nat, far: nat)
    requires Scannable(p, sh, log) && v in ActiveVertices(p.vertices)
    ensures |ListsOf(sh, side)| == |p.vertices| && Within(p.edges, ListsOf(sh, side)[v])
    ensures var e := FirstTo(p.edges, side, ListsOf(sh, side)[v], far);
            var a, b := if side == Out then v else far, if side == Out then far else v;
            if SomeJoins(p.edges, true, a, b) then Oldest(p.edges, log.stamps, a, b, e) else e == INVALID_INDEX
  {
    ListReady(p, sh, log, side, v);
    hide Scannable, InTime, Chain;
    var l := ListsOf(sh, side)[v];
    var a, b := if side == Out then v else far, if side == Out then far else v;
    var e := FirstTo(p.edges, side, l, far);
    FirstToIs(p.edges, side, l, far);
    assert e != INVALID_INDEX ==> e in l && Joins(p.edges[e], true, a, b);
    forall f | f in ActiveEdges(p.edges) && p.edges[f].src == a && p.edges[f].dst == b
      ensures e in l && Far(p.edges[e], side) == far && log.stamps[e] <= log.stamps[f]
    {
      FirstIsOldest(p.edges, side, l, log.stamps, log.clock, far, f);
    }
  }

  /** Whichever of the two lists is scanned, the same edge is found. */
  lemma EitherList(p: Pools, sh: Shape, log: Log, a: nat, b: nat)
    requires Scannable(p, sh, log) && a in ActiveVertices(p.vertices) && b in ActiveVertices(p.vertices)
    ensures |sh.outs| == |p.vertices| && |sh.ins| == |p.vertices|
    ensures Within(p.edges, sh.outs[a]) && Within(p.edges, sh.ins[b])
    ensures FirstTo(p.edges, In, sh.ins[b], a) == FirstTo(p.edges, Out, sh.outs[a], b)
  {
    ScanFindsOldest(p, sh, log, Out, a, b);
    ScanFindsOldest(p, sh, log, In, b, a);
    ListReady(p, sh, log, Out, a);
    hide Scannable, Chain;
    if SomeJoins(p.edges, true, a, b) {
      var e, f := FirstTo(p.edges, In, sh.ins[b], a), FirstTo(p.edges, Out, sh.outs[a], b);
      assert e in sh.outs[a] && f in sh.outs[a];
      SameAge(sh.outs[a], log.stamps, log.clock, e, f);
    }
  }

  lemma SameAge(l: seq<nat>, stamps: seq<nat>, clock: nat, e: nat, f: nat)
    requires InTime(l, stamps, clock) && e in l && f in l && e < |stamps| && f < |stamps| && stamps[e] == stamps[f]
    ensures e == f
  {
    var i :| 0 <= i < |l| && l[i] == e;
    var j :| 0 <= j < |l| && l[j] == f;
    assert !(i < j) && !(j < i);
  }

  /** The first edge of vertex v, in walking order, that joins it to another. */
  function FirstJoining(es: seq<EdgeRec>, sh: Shape, v: nat, other: nat): nat
    requires v < |sh.outs| && v < |sh.ins| && Within(es, sh.outs[v]) && Within(es, sh.ins[v])
  {
    var e := FirstTo(es, Out, sh.outs[v], other);
    if e != INVALID_INDEX then e else FirstTo(es, In, sh.ins[v], other)
  }

  /** a has no more incident edges than b, so its lists are the ones scanned. */
  ghost predicate ScansFirst(sh: Shape, a: nat, b: nat)
    requires a < |sh.outs| && a < |sh.ins| && b < |sh.outs| && b < |sh.ins|
  {
    |sh.outs[a]| + |sh.ins[a]| <= |sh.outs[b]| + |sh.ins[b]|
  }

  /** What the lookup finds on an undirected graph: the first joining edge on the lists of
      the vertex of smaller degree. */
  ghost predicate FirstBetween(es: seq<EdgeRec>, sh: Shape, a: nat, b: nat, e: nat)
  {
    && a < |sh.outs| && a < |sh.ins| && b < |sh.outs| && b < |sh.ins|
    && Within(es, sh.outs[a]) && Within(es, sh.ins[a]) && Within(es, sh.outs[b]) && Within(es, sh.ins[b])
    && e == if ScansFirst(sh, a, b) then FirstJoining(es, sh, a, b) else FirstJoining(es, sh, b, a)
  }

  /** The first joining edge on a vertex's own lists is an edge of the pair, if there is one. */
  lemma JoiningExactly(p: Pools, sh: Shape, log: Log, v: nat, other: nat)
    requires Scannable(p, sh, log) && v in ActiveVertices(p.vertices)
    ensures |sh.outs| == |p.vertices| && |sh.ins| == |p.vertices|
    ensures Within(p.edges, sh.outs[v]) && Within(p.edges, sh.ins[v])
    ensures var e := FirstJoining(p.edges, sh, v, other);
            && (e != INVALID_INDEX <==> SomeJoins(p.edges, false, v, other))
            && (e != INVALID_INDEX ==> e in ActiveEdges(p.edges) && Joins(p.edges[e], false, v, other))
  {
    ScanFindsOldest(p, sh, log, Out, v, other);
    ScanFindsOldest(p, sh, log, In, v, other);
    hide Scannable, FirstTo;
    var out, back := FirstTo(p.edges, Out, sh.outs[v], other), FirstTo(p.edges, In, sh.ins[v], other);
    OldestJoins(p.edges, log.stamps, v, other, out);
    OldestJoins(p.edges, log.stamps, other, v, back);
    EitherWay(p.edges, v, other);
  }

  lemma OldestJoins(es: seq<EdgeRec>, stamps: seq<nat>, a: nat, b: nat, e: nat)
    requires |stamps| == |es| && |es| <= MAX_CAPACITY
    ensures Oldest(es, stamps, a, b, e) ==> e != INVALID_INDEX && e in ActiveEdges(es) && es[e].src == a && es[e].dst == b
  {
  }

  /** An edge joins an unordered pair exactly if one leads one way or the other. */
  lemma EitherWay(es: seq<EdgeRec>, a: nat, b: nat)
    ensures SomeJoins(es, false, a, b) <==> SomeJoins(es, true, a, b) || SomeJoins(es, true, b, a)
    ensures SomeJoins(es, false, a, b) <==> SomeJoins(es, false, b, a)
  {
    if SomeJoins(es, false, a, b) {
      var e :| e in ActiveEdges(es) && Joins(es[e], false, a, b);
      assert Joins(es[e], true, a, b) || Joins(es[e], true, b, a);
      assert Joins(es[e], false, b, a);
    }
    if SomeJoins(es, false, b, a) {
      var e :| e in ActiveEdges(es) && Joins(es[e], false, b, a);
      assert Joins(es[e], false, a, b);
    }
    if SomeJoins(es, true, a, b) {
      var e :| e in ActiveEdges(es) && Joins(es[e], true, a, b);
      assert Joins(es[e], false, a, b);
    }
    if SomeJoins(es, true, b, a) {
      var e :| e in ActiveEdges(es) && Joins(es[e], true, b, a);
      assert Joins(es[e], false, a, b);
    }
  }

  /** Walks a vertex's out-list, then its in-list, for an edge that joins it to another. */
  method ScanIncident(p: Pools, v: nat, other: nat, ghost sh: Shape, ghost log: Log) returns (e: nat)
    requires Scannable(p, sh, log) && v in ActiveVertices(p.vertices)
    ensures |sh.outs| == |p.vertices| && |sh.ins| == |p.vertices|
    ensures Within(p.edges, sh.outs[v]) && Within(p.edges, sh.ins[v])
    ensures e == FirstJoining(p.edges, sh, v, other)
  {
    ListReady(p, sh, log, Out, v);
    ListReady(p, sh, log, In, v);
    hide Scannable, InTime, FirstTo, Chain;
    e := Scan(p.edges, Out, p.vertices[v].outs.head, other, sh.outs[v]);
    if e != INVALID_INDEX { return; }
    e := Scan(p.edges, In, p.vertices[v].ins.head, other, sh.ins[v]);
  }

  lemma Degrees(p: Pools, sh: Shape, log: Log, v: nat)
    requires Scannable(p, sh, log) && v in ActiveVertices(p.vertices)
    ensures |sh.outs| == |p.vertices| && |sh.ins| == |p.vertices|
    ensures p.vertices[v].outs.degree == |sh.outs[v]| && p.vertices[v].ins.degree == |sh.ins[v]|
    ensures Within(p.edges, sh.outs[v]) && Within(p.edges, sh.ins[v])
  {
    ListReady(p, sh, log, Out, v);
    ListReady(p, sh, log, In, v);
  }

  /** The lookup on an undirected graph: the incident edges of the vertex that has fewer. */
  method LocateJoining(p: Pools, a: nat, b: nat, ghost sh: Shape, ghost log: Log) returns (e: nat)
    requires Scannable(p, sh, log) && a in ActiveVertices(p.vertices) && b in ActiveVertices(p.vertices)
    ensures e != INVALID_INDEX <==> SomeJoins(p.edges, false, a, b)
    ensures e != INVALID_INDEX ==> e in ActiveEdges(p.edges) && Joins(p.edges[e], false, a, b)
    ensures FirstBetween(p.edges, sh, a, b, e)
  {
    hide Scannable, SomeJoins, FirstJoining, Within;
    Degrees(p, sh, log, a);
    Degrees(p, sh, log, b);
    EitherWay(p.edges, a, b);
    var degA := p.vertices[a].outs.degree + p.vertices[a].ins.degree;
    var degB := p.vertices[b].outs.degree + p.vertices[b].ins.degree;
    var from, other := if degA <= degB then a else b, if degA <= degB then b else a;
    JoiningExactly(p, sh, log, from, other);
    e := ScanIncident(p, from, other, sh, log);
  }

  /** Finds an edge between two live vertices, scanning the shorter candidate list. On a
      directed graph that is the oldest edge from a to b, the first on a's out-list,
      whichever list is scanned. */
  method LocateEdge(p: Pools, directed: bool, a: nat, b: nat, ghost sh: Shape, ghost log: Log) returns (e: nat)
    requires Scannable(p, sh, log) && a in ActiveVertices(p.vertices) && b in ActiveVertices(p.vertices)
    ensures e != INVALID_INDEX <==> SomeJoins(p.edges, directed, a, b)
    ensures e != INVALID_INDEX ==> e in ActiveEdges(p.edges) && Joins(p.edges[e], directed, a, b)
    ensures |sh.outs| == |p.vertices| && Within(p.edges, sh.outs[a])
    ensures directed ==> e == FirstTo(p.edges, Out, sh.outs[a], b)
    ensures directed && e != INVALID_INDEX ==> Oldest(p.edges, log.stamps, a, b, e)
    ensures !directed ==> FirstBetween(p.edges, sh, a, b, e)
  {
    ListReady(p, sh, log, Out, a);
    ListReady(p, sh, log, In, b);
    hide Scannable, InTime, FirstBetween, FirstTo;
    if directed {
      EitherList(p, sh, log, a, b);
      ScanFindsOldest(p, sh, log, Out, a, b);
      if p.vertices[a].outs.degree <= p.vertices[b].ins.degree {
        e := Scan(p.edges, Out, p.vertices[a].outs.head, b, sh.outs[a]);
      } else {
        e := Scan(p.edges, In, p.vertices[b].ins.head, a, sh.ins[b]);
      }
      return;
    }
    e := LocateJoining(p, a, b, sh, log);
  }

  // --- Which edge that is on an undirected graph -----------------------------

  /** On an undirected graph the edge found between a and b is the first on a's out-list
      that leads to b if and only if no edge joins the two at all, or one leads from a to b
      and either a's lists are scanned or none leads back. */
  lemma SourceFirstExactly(p: Pools, sh: Shape, log: Log, a: nat, b: nat)
    requires Scannable(p, sh, log) && a in ActiveVertices(p.vertices) && b in ActiveVertices(p.vertices)
    ensures |sh.outs| == |p.vertices| && |sh.ins| == |p.vertices|
    ensures Within(p.edges, sh.outs[a]) && Within(p.edges, sh.outs[b])
    ensures Within(p.edges, sh.ins[a]) && Within(p.edges, sh.ins[b])
    ensures var found := if ScansFirst(sh, a, b) then FirstJoining(p.edges, sh, a, b) else FirstJoining(p.edges, sh, b, a);
            found == FirstTo(p.edges, Out, sh.outs[a], b)
            <==> || !SomeJoins(p.edges, false, a, b)
                 || (SomeJoins(p.edges, true, a, b) && (ScansFirst(sh, a, b) || !SomeJoins(p.edges, true, b, a)))
  {
    ListReady(p, sh, log, Out, a);
    ListReady(p, sh, log, In, a);
    ListReady(p, sh, log, Out, b);
    ListReady(p, sh, log, In, b);
    hide Scannable, InTime, Chain;
    ScanFindsOldest(p, sh, log, Out, a, b);
    ScanFindsOldest(p, sh, log, Out, b, a);
    ScanFindsOldest(p, sh, log, In, a, b);
    EitherList(p, sh, log, a, b);
  }

  /** Edges 1 -> 0, 0 -> 1 and 0 -> 2, added in that order. */
  function Crossed(): Pools
  {
    Pools([VertexRec(Ends(1, 2, 2), Ends(0, 0, 1), 1, true),
           VertexRec(Ends(0, 0, 1), Ends(1, 1, 1), 1, true),
           VertexRec(NoEnds, Ends(2, 2, 1), 1, true)],
          [EdgeRec(1, 0, NoLinks, NoLinks, 1, true),
           EdgeRec(0, 1, Links(2, INVALID_INDEX), NoLinks, 1, true),
           EdgeRec(0, 2, Links(INVALID_INDEX, 1), NoLinks, 1, true)],
          INVALID_INDEX, INVALID_INDEX, 3, 3)
  }

  function CrossedShape(): Shape
  {
    Shape([[1, 2], [0], []], [[0], [1], [2]], [], [])
  }

  ghost function CrossedLog(): Log
  {
    Log([0, 1, 2], 3, NoPast, NoPast)
  }

  lemma CrossedSide(side: Side)
    ensures SideOk(Crossed().vertices, Crossed().edges, side, ListsOf(CrossedShape(), side), {0, 1, 2})
  {
    var vs, es, lists := Crossed().vertices, Crossed().edges, ListsOf(CrossedShape(), side);
    forall v | 0 <= v < 3 ensures ListOk(v, vs[v], es, side, lists[v]) && Holds(lists[v], {0, 1, 2}) {
      forall k | 0 <= k < |lists[v]| ensures NodeOk(es, side, v, lists[v], k) { }
    }
    forall e | e in {0, 1, 2} ensures Sits(es, side, lists, e) {
      assert e in lists[Owner(es[e], side)];
    }
  }

  lemma CrossedStructure()
    ensures Structure(Crossed(), CrossedShape())
    ensures ActiveEdges(Crossed().edges) == {0, 1, 2} && ActiveVertices(Crossed().vertices) == {0, 1, 2}
  {
    hide SideOk;
    assert ActiveEdges(Crossed().edges) == {0, 1, 2};
    CrossedSide(Out);
    CrossedSide(In);
  }

  /** Between 0 and 1 the lookup finds the edge 1 -> 0, although 0 -> 1 is the first on the
      out-list of 0 that leads to 1: vertex 1 has the fewer incident edges. */
  lemma CrossedFinds()
    ensures var p, sh := Crossed(), CrossedShape();
            && Structure(p, sh) && Scannable(p, sh, CrossedLog())
            && !ScansFirst(sh, 0, 1)
            && Within(p.edges, sh.outs[0]) && Within(p.edges, sh.outs[1]) && Within(p.edges, sh.ins[1])
            && FirstJoining(p.edges, sh, 1, 0) == 0 && FirstTo(p.edges, Out, sh.outs[0], 1) == 1
  {
    CrossedStructure();
    hide SideOk;
    var p, sh := Crossed(), CrossedShape();
    assert FirstTo(p.edges, Out, [0], 0) == 0;
    assert FirstTo(p.edges, Out, [1, 2], 1) == 1;
    assert Dated(sh.outs, [0, 1, 2], 3) && Dated(sh.ins, [0, 1, 2], 3);
  }

  // --- Rejecting edges -------------------------------------------------------

  /** No two live edges join one pair. */
  ghost predicate NoParallel(es: seq<EdgeRec>, directed: bool)
  {
    forall e, f :: e in ActiveEdges(es) && f in ActiveEdges(es) && e != f ==>
      !Joins(es[e], directed, es[f].src, es[f].dst)
  }

  ghost predicate NoLoops(es: seq<EdgeRec>)
  {
    forall e :: e in ActiveEdges(es) ==> es[e].src != es[e].dst
  }

  /** What the configuration rules out is not there. */
  ghost predicate Admitted(es: seq<EdgeRec>, directed: bool, rejectParallel: bool, rejectLoops: bool)
  {
    (rejectParallel ==> NoParallel(es, directed)) && (rejectLoops ==> NoLoops(es))
  }

  lemma AdmitNew(p: Pools, p': Pools, e: nat, directed: bool, rejectParallel: bool, rejectLoops: bool)
    requires Admitted(p.edges, directed, rejectParallel, rejectLoops)
    requires KeepsOthers(p, p', e) && e < |p'.edges| && |p'.edges| <= |p.edges| + 1
    requires e < |p.edges| ==> |p'.edges| == |p.edges|
    requires rejectLoops ==> p'.edges[e].src != p'.edges[e].dst
    requires rejectParallel ==> !SomeJoins(p.edges, directed, p'.edges[e].src, p'.edges[e].dst)
    ensures Admitted(p'.edges, directed, rejectParallel, rejectLoops)
  {
    assert forall f :: f in ActiveEdges(p'.edges) && f != e ==> f in ActiveEdges(p.edges);
  }

  lemma AdmitFewer(es: seq<EdgeRec>, es': seq<EdgeRec>, directed: bool, rejectParallel: bool, rejectLoops: bool)
    requires Admitted(es, directed, rejectParallel, rejectLoops)
    requires ActiveEdges(es') <= ActiveEdges(es)
    requires forall e :: e in ActiveEdges(es') ==> es'[e].src == es[e].src && es'[e].dst == es[e].dst
    ensures Admitted(es', directed, rejectParallel, rejectLoops)
  {
  }
}
