/** Breadth-first search over the graph-owned scratch. */
module GraphBfs {
  import opened Counting
  import opened Bitmap
  import opened GraphPools
  import opened GraphShape
  import opened GraphStructure
  import opened GraphAdjacency
  import opened Traversal

  /** The first half of the scratch holds the queued vertices, the second their depths. */
  ghost predicate Queued(work: seq<nat>, cap: nat, q: seq<Visit>)
  {
    && |work| == 2 * cap && |q| <= cap
    && forall i :: 0 <= i < |q| ==> work[i] == q[i].vertex && work[cap + i] == q[i].depth
  }

  /** A vertex is marked exactly when it has been queued. */
  ghost predicate MarksAre(words: seq<nat>, n: nat, q: seq<Visit>)
  {
    n <= 64 * |words| && forall v :: 0 <= v < n ==> (Marked(words, v) <==> InQueue(q, v))
  }

  /** What the scratch holds while the queue is q. */
  ghost predicate Scratch(work: seq<nat>, cap: nat, words: seq<nat>, n: nat, q: seq<Visit>)
  {
    n <= cap && Roster(q, n) && Queued(work, cap, q) && MarksAre(words, n, q)
  }

  lemma MarksGrow(was: seq<nat>, now: seq<nat>, n: nat, q: seq<Visit>, x: Visit)
    requires MarksAre(was, n, q) && |now| == |was|
    requires forall j: nat :: Marked(now, j) <==> j == x.vertex || Marked(was, j)
    ensures MarksAre(now, n, q + [x])
  {
    forall v | 0 <= v < n ensures Marked(now, v) <==> InQueue(q + [x], v) {
      if InQueue(q, v) {
        var i :| 0 <= i < |q| && q[i].vertex == v;
        assert (q + [x])[i].vertex == v;
      }
      if v == x.vertex { assert (q + [x])[|q|].vertex == v; }
    }
  }

  /** Marks and queues a vertex unless it is marked. */
  method Consider(v: nat, d: nat, work: array<nat>, cap: nat, visited: array<nat>, tail: nat,
                  ghost n: nat, ghost q: seq<Visit>)
    returns (tail': nat)
    requires work != visited && Scratch(work[..], cap, visited[..], n, q) && tail == |q| && v < n
    modifies work, visited
    ensures Scratch(work[..], cap, visited[..], n, Enqueue(q, v, d)) && tail' == |Enqueue(q, v, d)|
  {
    var seen := Test(visited, v);
    if seen { return tail; }
    RosterFits(q, n);
    Mark(visited, v);
    MarksGrow(old(visited[..]), visited[..], n, q, Visit(v, d));
    work[tail] := v;
    work[cap + tail] := d;
    tail' := tail + 1;
  }

  /** Walks one list, whose head is given and whose far ends are ns. */
  method ScanList(es: seq<EdgeRec>, side: Side, head: nat, d: nat,
                  work: array<nat>, cap: nat, visited: array<nat>, tail: nat,
                  ghost l: seq<nat>, ghost ns: seq<nat>, ghost n: nat, ghost q: seq<Visit>)
    returns (tail': nat)
    requires Linked(es, side, head, l, ns, n)
    requires work != visited && Scratch(work[..], cap, visited[..], n, q) && tail == |q|
    modifies work, visited
    ensures Scratch(work[..], cap, visited[..], n, Expand(q, ns, d)) && tail' == |Expand(q, ns, d)|
  {
    var e: nat := head;
    tail' := tail;
    ghost var k := 0;
    while e != INVALID_INDEX
      invariant k <= |l| && e == (if k < |l| then l[k] else INVALID_INDEX)
      invariant Scratch(work[..], cap, visited[..], n, Expand(q, ns[..k], d))
      invariant tail' == |Expand(q, ns[..k], d)|
      decreases |l| - k
    {
      tail' := Consider(Far(es[e], side), d, work, cap, visited, tail', n, Expand(q, ns[..k], d));
      assert ns[..k + 1][..k] == ns[..k];
      e := LinksOf(es[e], side).next;
      k := k + 1;
    }
    assert ns[..k] == ns;
  }

  /** List l hangs from head; ns are its far ends, below n. */
  ghost predicate Linked(es: seq<EdgeRec>, side: Side, head: nat, l: seq<nat>, ns: seq<nat>, n: nat)
  {
    && Chain(es, side, head, l) && |ns| == |l|
    && forall k :: 0 <= k < |l| ==> ns[k] == Far(es[l[k]], side) < n
  }

  lemma ListLinked(p: Pools, sh: Shape, side: Side, v: nat)
    requires Sides(p, sh) && |p.edges| <= MAX_CAPACITY && ListsInPool(p, sh) && v in ActiveVertices(p.vertices)
    ensures var l := ListsOf(sh, side)[v];
            Linked(p.edges, side, EndsOf(p.vertices[v], side).head, l, Targets(p.edges, side, l), |p.vertices|)
  {
    var l := ListsOf(sh, side)[v];
    assert ListOk(v, p.vertices[v], p.edges, side, l);
    forall k | 0 <= k < |l|
      ensures l[k] < |p.edges| && l[k] != INVALID_INDEX && LinksOf(p.edges[l[k]], side).next == NextIn(l, k)
      ensures Far(p.edges[l[k]], side) < |p.vertices|
    {
      assert NodeOk(p.edges, side, v, l, k);
      FarActive(p, sh, side, v, k);
    }
  }

  /** Expands the entry at `head` of the queue. */
  method ExpandVertex(p: Pools, directed: bool, v: nat, d: nat, work: array<nat>, cap: nat, visited: array<nat>,
                      tail: nat, ghost sh: Shape, ghost q: seq<Visit>)
    returns (tail': nat)
    requires Sides(p, sh) && |p.edges| <= MAX_CAPACITY && ListsInPool(p, sh) && v in ActiveVertices(p.vertices)
    requires work != visited && Scratch(work[..], cap, visited[..], |p.vertices|, q) && tail == |q|
    modifies work, visited
    ensures var q' := Expand(q, NeighboursOf(p, sh, directed, v), d);
            Scratch(work[..], cap, visited[..], |p.vertices|, q') && tail' == |q'|
  {
    ghost var n := |p.vertices|;
    ghost var outs, ins := Targets(p.edges, Out, sh.outs[v]), Targets(p.edges, In, sh.ins[v]);
    ListLinked(p, sh, Out, v);
    tail' := ScanList(p.edges, Out, p.vertices[v].outs.head, d, work, cap, visited, tail, sh.outs[v], outs, n, q);
    if directed {
      assert NeighboursOf(p, sh, directed, v) == outs;
      return;
    }
    ListLinked(p, sh, In, v);
    tail' := ScanList(p.edges, In, p.vertices[v].ins.head, d, work, cap, visited, tail', sh.ins[v], ins, n,
                      Expand(q, outs, d));
    ExpandConcat(q, outs, ins, d);
  }

  /** Expands the queue entry after the ones done. */
  method ExpandNext(p: Pools, directed: bool, v: nat, d: nat, work: array<nat>, cap: nat, visited: array<nat>, tail: nat,
                    ghost sh: Shape, ghost start: nat, ghost visit: Visitor, ghost q: seq<Visit>, ghost h: nat)
    returns (tail': nat)
    requires Walkable(p, sh, start) && work != visited && tail == |q|
    requires Scratch(work[..], cap, visited[..], |p.vertices|, q)
    requires Progress(Adjacent(p, sh, directed), start, visit, q, h) && h < |q| && q[h] == Visit(v, d)
    requires visit(q[..h + 1])
    modifies work, visited
    ensures var q' := Expand(q, Adjacent(p, sh, directed)[v], d + 1);
            && Scratch(work[..], cap, visited[..], |p.vertices|, q') && tail' == |q'|
            && Progress(Adjacent(p, sh, directed), start, visit, q', h + 1)
  {
    hide Hops, Frontier, Distance, Distances, WentOn, AllVisited, SideOk;
    AdjacencyClosed(p, sh, directed);
    EntryLive(p, sh, directed, start, q, h);
    ProgressStep(Adjacent(p, sh, directed), start, visit, q, h);
    tail' := ExpandVertex(p, directed, v, d + 1, work, cap, visited, tail, sh, q);
  }

  /** Queues the start vertex in cleared scratch. */
  method Begin(start: nat, work: array<nat>, cap: nat, visited: array<nat>, ghost n: nat) returns (tail: nat)
    requires work != visited && work.Length == 2 * cap && n <= cap && n <= 64 * visited.Length && start < n
    modifies work, visited
    ensures Scratch(work[..], cap, visited[..], n, [Visit(start, 0)]) && tail == 1
  {
    Clear(visited);
    assert Scratch(work[..], cap, visited[..], n, []);
    tail := Consider(start, 0, work, cap, visited, 0, n, []);
  }

  /** The walk, over scratch sized for the vertex capacity. */
  method Walk(p: Pools, directed: bool, start: nat, visit: Visitor, work: array<nat>, cap: nat, visited: array<nat>,
              ghost sh: Shape)
    returns (trace: seq<Visit>)
    requires Walkable(p, sh, start)
    requires work != visited && work.Length == 2 * cap && |p.vertices| <= cap && |p.vertices| <= 64 * visited.Length
    modifies work, visited
    ensures BfsTrace(Adjacent(p, sh, directed), start, visit, trace)
  {
    hide Hops, Frontier, Distance, Distances, WentOn, AllVisited, SideOk, Entries, NearVisited;
    ghost var adj, n := Adjacent(p, sh, directed), |p.vertices|;
    ghost var q := [Visit(start, 0)];
    ProgressStart(adj, start, visit);
    var head: nat := 0;
    var tail := Begin(start, work, cap, visited, n);
    trace := [];
    while head < tail
      invariant head <= tail == |q| && trace == q[..head]
      invariant Progress(adj, start, visit, q, head) && Scratch(work[..], cap, visited[..], n, q)
      decreases n - head
    {
      RosterFits(q, n);
      var index, d := work[head], work[cap + head];
      trace := trace + [Visit(index, d)];
      assert trace == q[..head + 1];
      if !visit(trace) {
        ProgressStop(adj, start, visit, q, head);
        return;
      }
      tail := ExpandNext(p, directed, index, d, work, cap, visited, tail, sh, start, visit, q, head);
      q := Expand(q, adj[index], d + 1);
      head := head + 1;
      assert trace == q[..head];
    }
    assert trace == q;
    ProgressDone(adj, start, visit, q);
  }

  /** Breadth-first search. The visitor decides from what it has been shown whether to go
      on. */
  method Bfs(p: Pools, directed: bool, start: nat, visit: Visitor, work: array<nat>, cap: nat, visited: array<nat>,
             ghost sh: Shape)
    returns (trace: seq<Visit>)
    requires Structure(p, sh) && ListsInPool(p, sh) && start in ActiveVertices(p.vertices)
    requires work != visited && work.Length == 2 * cap && |p.vertices| <= cap && |p.vertices| <= 64 * visited.Length
    modifies work, visited
    ensures BfsTrace(Adjacent(p, sh, directed), start, visit, trace)
    ensures |trace| <= p.vertexCount
    ensures forall i :: 0 <= i < |trace| ==> trace[i].vertex in ActiveVertices(p.vertices)
  {
    trace := Walk(p, directed, start, visit, work, cap, visited, sh);
    TraceLive(p, sh, directed, start, visit, trace);
  }

  lemma EntryLive(p: Pools, sh: Shape, directed: bool, start: nat, q: seq<Visit>, i: nat)
    requires Sides(p, sh) && ListsInPool(p, sh) && start in ActiveVertices(p.vertices)
    requires Entries(Adjacent(p, sh, directed), start, q) && i < |q|
    ensures q[i].vertex in ActiveVertices(p.vertices)
  {
    HopsActive(p, sh, directed, start, q[i].vertex, q[i].depth);
  }

  /** Only live vertices are visited, so there are no more visits than live vertices. */
  lemma TraceLive(p: Pools, sh: Shape, directed: bool, start: nat, visit: Visitor, trace: seq<Visit>)
    requires Structure(p, sh) && ListsInPool(p, sh) && start in ActiveVertices(p.vertices)
    requires BfsTrace(Adjacent(p, sh, directed), start, visit, trace)
    ensures |trace| <= p.vertexCount
    ensures forall i :: 0 <= i < |trace| ==> trace[i].vertex in ActiveVertices(p.vertices)
  {
    forall i | 0 <= i < |trace| ensures trace[i].vertex in ActiveVertices(p.vertices) {
      EntryLive(p, sh, directed, start, trace, i);
    }
    CountsExact(p, sh);
    LiveRoster(p, trace);
  }

  lemma LiveRoster(p: Pools, trace: seq<Visit>)
    requires forall i :: 0 <= i < |trace| ==> trace[i].vertex in ActiveVertices(p.vertices)
    requires forall i, j :: 0 <= i < j < |trace| ==> trace[i].vertex != trace[j].vertex
    ensures |trace| <= |ActiveVertices(p.vertices)|
  {
    var l := seq(|trace|, i requires 0 <= i < |trace| => trace[i].vertex);
    assert Distinct(l);
    assert Elements(l) <= ActiveVertices(p.vertices);
    SubsetCount(Elements(l), ActiveVertices(p.vertices));
  }
}
