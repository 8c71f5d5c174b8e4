/** Depth-first and breadth-first order over adjacency lists. */
module Traversal {
  import opened Counting

  /** For each vertex, its neighbours in walking order. */
  type Adjacency = seq<seq<nat>>

  datatype Visit = Visit(vertex: nat, depth: nat)

  ghost predicate Within(l: seq<nat>, n: nat)
  {
    forall k :: 0 <= k < |l| ==> l[k] < n
  }

  ghost predicate Closed(adj: Adjacency)
  {
    forall v :: 0 <= v < |adj| ==> Within(adj[v], |adj|)
  }

  // --- Recursive depth-first search ------------------------------------------

  /** What remains to be seen bounds the recursion. */
  function Unseen(adj: Adjacency, seen: set<nat>): nat
  {
    |Below(|adj|) - seen|
  }

  lemma SeenGrows(adj: Adjacency, seen: set<nat>, seen': set<nat>)
    requires seen <= seen'
    ensures Unseen(adj, seen') <= Unseen(adj, seen)
    ensures (exists v :: 0 <= v < |adj| && v in seen' && v !in seen) ==> Unseen(adj, seen') < Unseen(adj, seen)
  {
    var a, b := Below(|adj|) - seen', Below(|adj|) - seen;
    SubsetCount(a, b);
    if v :| 0 <= v < |adj| && v in seen' && v !in seen {
      assert v in b && v !in a;
    }
  }

  /** Visit, at the given depth, each vertex of ns not yet seen, and from each in turn
      everything it leads to. */
  ghost function Dfs(adj: Adjacency, ns: seq<nat>, depth: nat, seen: set<nat>): (r: (seq<Visit>, set<nat>))
    requires Closed(adj) && Within(ns, |adj|)
    ensures seen <= r.1
    decreases Unseen(adj, seen), |ns|
  {
    if ns == [] then ([], seen)
    else if ns[0] in seen then Dfs(adj, ns[1..], depth, seen)
    else
      SeenGrows(adj, seen, seen + {ns[0]});
      var (t1, seen1) := Dfs(adj, adj[ns[0]], depth + 1, seen + {ns[0]});
      SeenGrows(adj, seen, seen1);
      var (t2, seen2) := Dfs(adj, ns[1..], depth, seen1);
      ([Visit(ns[0], depth)] + t1 + t2, seen2)
  }

  /** The recursive walk from one vertex. */
  ghost function DfsOrder(adj: Adjacency, start: nat): seq<Visit>
    requires Closed(adj) && start < |adj|
  {
    [Visit(start, 0)] + Dfs(adj, adj[start], 1, {start}).0
  }

  // --- The same walk with an explicit stack ----------------------------------

  ghost predicate Frames(adj: Adjacency, frames: seq<seq<nat>>)
  {
    forall i :: 0 <= i < |frames| ==> Within(frames[i], |adj|)
  }

  /** What is still to be visited when level i of the stack has frames[i] left to do. */
  ghost function DfsStack(adj: Adjacency, frames: seq<seq<nat>>, seen: set<nat>): seq<Visit>
    requires Closed(adj) && Frames(adj, frames)
    decreases |frames|
  {
    if frames == [] then []
    else
      var n := |frames| - 1;
      var (t, seen1) := Dfs(adj, frames[n], |frames|, seen);
      t + DfsStack(adj, frames[..n], seen1)
  }

  /** A finished level is popped. */
  lemma StackPop(adj: Adjacency, frames: seq<seq<nat>>, seen: set<nat>)
    requires Closed(adj) && Frames(adj, frames) && frames != [] && frames[|frames| - 1] == []
    ensures DfsStack(adj, frames, seen) == DfsStack(adj, frames[..|frames| - 1], seen)
  {
  }

  /** A neighbour already seen is skipped. */
  lemma StackSkip(adj: Adjacency, frames: seq<seq<nat>>, seen: set<nat>)
    requires Closed(adj) && Frames(adj, frames) && frames != [] && frames[|frames| - 1] != []
    requires frames[|frames| - 1][0] in seen
    ensures var n := |frames| - 1;
            var rest := frames[..n] + [frames[n][1..]];
            Frames(adj, rest) && DfsStack(adj, frames, seen) == DfsStack(adj, rest, seen)
  {
    var n := |frames| - 1;
    var rest := frames[..n] + [frames[n][1..]];
    assert Within(frames[n], |adj|);
    assert rest[..n] == frames[..n];
  }

  /** A new neighbour is visited at the depth of the stack and a level is pushed for it. */
  lemma StackPush(adj: Adjacency, frames: seq<seq<nat>>, seen: set<nat>)
    requires Closed(adj) && Frames(adj, frames) && frames != [] && frames[|frames| - 1] != []
    requires frames[|frames| - 1][0] !in seen
    ensures var n := |frames| - 1;
            var x := frames[n][0];
            x < |adj| &&
            var rest := frames[..n] + [frames[n][1..]] + [adj[x]];
            && Frames(adj, rest)
            && DfsStack(adj, frames, seen) == [Visit(x, |frames|)] + DfsStack(adj, rest, seen + {x})
  {
    var n := |frames| - 1;
    var top := frames[n];
    assert Within(top, |adj|);
    var x := top[0];
    var below := frames[..n] + [top[1..]];
    var rest := below + [adj[x]];
    assert Within(adj[x], |adj|);
    assert rest[..|frames|] == below && below[..n] == frames[..n];
    var (t1, seen1) := Dfs(adj, adj[x], |frames| + 1, seen + {x});
    var (t2, seen2) := Dfs(adj, top[1..], |frames|, seen1);
    assert DfsStack(adj, rest, seen + {x}) == t1 + DfsStack(adj, below, seen1);
    assert DfsStack(adj, below, seen1) == t2 + DfsStack(adj, frames[..n], seen2);
    assert [Visit(x, |frames|)] + t1 + t2 + DfsStack(adj, frames[..n], seen2)
           == [Visit(x, |frames|)] + (t1 + (t2 + DfsStack(adj, frames[..n], seen2)));
  }

  /** Starting the stack is starting the recursion. */
  lemma StackStart(adj: Adjacency, start: nat)
    requires Closed(adj) && start < |adj|
    ensures Frames(adj, [adj[start]])
    ensures DfsOrder(adj, start) == [Visit(start, 0)] + DfsStack(adj, [adj[start]], {start})
  {
    assert Within(adj[start], |adj|);
    var frames := [adj[start]];
    assert frames[..0] == [];
    var t := Dfs(adj, adj[start], 1, {start});
    assert DfsStack(adj, frames, {start}) == t.0 + DfsStack(adj, [], t.1);
  }

  /** Steps the explicit stack can still take without visiting anything new. */
  function Pending(frames: seq<seq<nat>>): nat
  {
    if frames == [] then 0 else Pending(frames[..|frames| - 1]) + |frames[|frames| - 1]| + 1
  }

  // --- Hops ------------------------------------------------------------------

  /** v can be reached from s by a walk of exactly d edges. */
  ghost predicate Hops(adj: Adjacency, s: nat, v: nat, d: nat)
    decreases d
  {
    if d == 0 then v == s
    else exists u :: Hops(adj, s, u, d - 1) && Edge(adj, u, v)
  }

  ghost predicate Edge(adj: Adjacency, u: nat, v: nat)
  {
    u < |adj| && v in adj[u]
  }

  /** d is the least number of hops from s to v. */
  ghost predicate Distance(adj: Adjacency, s: nat, v: nat, d: nat)
  {
    Hops(adj, s, v, d) && forall d' :: 0 <= d' < d ==> !Hops(adj, s, v, d')
  }

  ghost predicate Reachable(adj: Adjacency, s: nat, v: nat)
  {
    exists d :: Hops(adj, s, v, d)
  }

  // --- Breadth-first search --------------------------------------------------

  /** The queue holds w, at depth d or less. */
  ghost predicate Found(q: seq<Visit>, w: nat, d: nat)
  {
    exists j :: 0 <= j < |q| && q[j].vertex == w && q[j].depth <= d
  }

  /** The first k of these neighbours are found at depth d or less. */
  ghost predicate Covered(q: seq<Visit>, ns: seq<nat>, k: nat, d: nat)
  {
    forall i :: 0 <= i < k && i < |ns| ==> Found(q, ns[i], d)
  }

  ghost predicate Entries(adj: Adjacency, s: nat, q: seq<Visit>)
  {
    && q != [] && q[0] == Visit(s, 0)
    && (forall i :: 0 <= i < |q| ==> q[i].vertex < |adj| && Hops(adj, s, q[i].vertex, q[i].depth))
    && (forall i, j :: 0 <= i < j < |q| ==> q[i].vertex != q[j].vertex && q[i].depth <= q[j].depth)
  }

  /** Everything before h has been expanded, the first k neighbours of entry h have been
      considered, and no entry is more than one level below h. */
  ghost predicate Frontier(adj: Adjacency, s: nat, q: seq<Visit>, h: nat, k: nat)
  {
    && Entries(adj, s, q) && h < |q| && k <= |adj[q[h].vertex]|
    && (forall j :: 0 <= j < |q| ==> q[j].depth <= q[h].depth + 1)
    && (forall i :: 0 <= i < h ==> Covered(q, adj[q[i].vertex], |adj[q[i].vertex]|, q[i].depth + 1))
    && Covered(q, adj[q[h].vertex], k, q[h].depth + 1)
  }

  lemma FrontierStart(adj: Adjacency, s: nat)
    requires s < |adj|
    ensures Frontier(adj, s, [Visit(s, 0)], 0, 0)
  {
  }

  /** A neighbour already queued is near enough. */
  lemma FrontierSkip(adj: Adjacency, s: nat, q: seq<Visit>, h: nat, k: nat, j: nat)
    requires Frontier(adj, s, q, h, k) && k < |adj[q[h].vertex]|
    requires j < |q| && q[j].vertex == adj[q[h].vertex][k]
    ensures Frontier(adj, s, q, h, k + 1)
  {
    assert Found(q, adj[q[h].vertex][k], q[h].depth + 1);
  }

  lemma FoundGrows(q: seq<Visit>, x: Visit, w: nat, d: nat)
    requires Found(q, w, d)
    ensures Found(q + [x], w, d)
  {
    var j :| 0 <= j < |q| && q[j].vertex == w && q[j].depth <= d;
    assert (q + [x])[j] == q[j];
  }

  lemma CoveredGrows(q: seq<Visit>, x: Visit, ns: seq<nat>, k: nat, d: nat)
    requires Covered(q, ns, k, d)
    ensures Covered(q + [x], ns, k, d)
  {
    forall i | 0 <= i < k && i < |ns| ensures Found(q + [x], ns[i], d) { FoundGrows(q, x, ns[i], d); }
  }

  /** A new neighbour is queued one level down. */
  lemma FrontierAdd(adj: Adjacency, s: nat, q: seq<Visit>, h: nat, k: nat)
    requires Frontier(adj, s, q, h, k) && k < |adj[q[h].vertex]| && adj[q[h].vertex][k] < |adj|
    requires forall j :: 0 <= j < |q| ==> q[j].vertex != adj[q[h].vertex][k]
    ensures Frontier(adj, s, q + [Visit(adj[q[h].vertex][k], q[h].depth + 1)], h, k + 1)
  {
    var u, d := q[h].vertex, q[h].depth + 1;
    var w := adj[u][k];
    var x := Visit(w, d);
    var q' := q + [x];
    assert Hops(adj, s, u, d - 1) && Edge(adj, u, w);
    AddedEntries(adj, s, q, x);
    forall i | 0 <= i < h ensures Covered(q', adj[q'[i].vertex], |adj[q'[i].vertex]|, q'[i].depth + 1) {
      CoveredGrows(q, x, adj[q[i].vertex], |adj[q[i].vertex]|, q[i].depth + 1);
    }
    CoveredGrows(q, x, adj[u], k, d);
    assert q'[|q|] == x;
    assert Found(q', w, d);
  }

  lemma AddedEntries(adj: Adjacency, s: nat, q: seq<Visit>, x: Visit)
    requires Entries(adj, s, q) && x.vertex < |adj| && Hops(adj, s, x.vertex, x.depth)
    requires forall j :: 0 <= j < |q| ==> q[j].vertex != x.vertex && q[j].depth <= x.depth
    ensures Entries(adj, s, q + [x])
  {
  }

  /** Entry h is expanded; the walk moves on. */
  lemma FrontierAdvance(adj: Adjacency, s: nat, q: seq<Visit>, h: nat)
    requires h < |q| && Entries(adj, s, q) && Frontier(adj, s, q, h, |adj[q[h].vertex]|) && h + 1 < |q|
    ensures Frontier(adj, s, q, h + 1, 0)
  {
  }

  /** Everything within the depth of entry h has been found. */
  lemma {:induction false} LevelFound(adj: Adjacency, s: nat, q: seq<Visit>, h: nat, k: nat, v: nat, d: nat)
    requires Frontier(adj, s, q, h, k) && Hops(adj, s, v, d) && d <= q[h].depth
    ensures Found(q, v, d)
    decreases d
  {
    if d == 0 {
      assert q[0].vertex == v;
    } else {
      var u: nat :| Hops(adj, s, u, d - 1) && Edge(adj, u, v);
      LevelFound(adj, s, q, h, k, u, d - 1);
      var j :| 0 <= j < |q| && q[j].vertex == u && q[j].depth <= d - 1;
      assert j < h;
      var i :| 0 <= i < |adj[u]| && adj[u][i] == v;
      assert Covered(q, adj[u], |adj[u]|, q[j].depth + 1);
      assert Found(q, adj[u][i], q[j].depth + 1);
    }
  }

  /** The entry being visited is at its distance from the start. */
  lemma HeadDistance(adj: Adjacency, s: nat, q: seq<Visit>, h: nat, k: nat)
    requires Frontier(adj, s, q, h, k)
    ensures Distance(adj, s, q[h].vertex, q[h].depth)
  {
    forall d | 0 <= d < q[h].depth ensures !Hops(adj, s, q[h].vertex, d) {
      if Hops(adj, s, q[h].vertex, d) { LevelFound(adj, s, q, h, k, q[h].vertex, d); }
    }
  }

  /** Anything nearer than the entry being visited has been visited before it. */
  lemma NearerBefore(adj: Adjacency, s: nat, q: seq<Visit>, h: nat, k: nat, v: nat, d: nat)
    requires Frontier(adj, s, q, h, k) && Hops(adj, s, v, d) && d < q[h].depth
    ensures exists j :: 0 <= j < h && q[j].vertex == v
  {
    LevelFound(adj, s, q, h, k, v, d);
    var j :| 0 <= j < |q| && q[j].vertex == v && q[j].depth <= d;
    assert j < h;
  }

  /** When the last entry has been expanded, every reachable vertex has been found. */
  lemma {:induction false} AllFound(adj: Adjacency, s: nat, q: seq<Visit>, h: nat, v: nat, d: nat)
    requires h < |q| && Entries(adj, s, q) && Frontier(adj, s, q, h, |adj[q[h].vertex]|) && h + 1 == |q|
    requires Hops(adj, s, v, d)
    ensures Found(q, v, d)
    decreases d
  {
    if d == 0 {
      assert q[0].vertex == v;
    } else {
      var u: nat :| Hops(adj, s, u, d - 1) && Edge(adj, u, v);
      AllFound(adj, s, q, h, u, d - 1);
      var j :| 0 <= j < |q| && q[j].vertex == u && q[j].depth <= d - 1;
      var i :| 0 <= i < |adj[u]| && adj[u][i] == v;
      assert Covered(q, adj[u], |adj[u]|, q[j].depth + 1);
      assert Found(q, adj[u][i], q[j].depth + 1);
    }
  }

  // --- Expanding one vertex --------------------------------------------------

  ghost predicate InQueue(q: seq<Visit>, v: nat)
  {
    exists i :: 0 <= i < |q| && q[i].vertex == v
  }

  /** Queue a vertex at depth d unless it is queued already. */
  ghost function Enqueue(q: seq<Visit>, v: nat, d: nat): seq<Visit>
  {
    if InQueue(q, v) then q else q + [Visit(v, d)]
  }

  ghost function Expand(q: seq<Visit>, ns: seq<nat>, d: nat): (r: seq<Visit>)
    ensures q <= r
  {
    if ns == [] then q else Enqueue(Expand(q, ns[..|ns| - 1], d), ns[|ns| - 1], d)
  }

  lemma {:induction false} ExpandConcat(q: seq<Visit>, a: seq<nat>, b: seq<nat>, d: nat)
    ensures Expand(q, a + b, d) == Expand(Expand(q, a, d), b, d)
  {
    if b == [] {
      assert a + b == a;
    } else {
      var n := |b| - 1;
      ExpandConcat(q, a, b[..n], d);
      assert (a + b)[..|a + b| - 1] == a + b[..n];
    }
  }

  lemma EnqueueFrontier(adj: Adjacency, s: nat, q: seq<Visit>, h: nat, k: nat)
    requires Frontier(adj, s, q, h, k) && h < |q| && q[h].vertex < |adj|
    requires k < |adj[q[h].vertex]| && adj[q[h].vertex][k] < |adj|
    ensures Frontier(adj, s, Enqueue(q, adj[q[h].vertex][k], q[h].depth + 1), h, k + 1)
  {
    var w := adj[q[h].vertex][k];
    if InQueue(q, w) {
      var j :| 0 <= j < |q| && q[j].vertex == w;
      FrontierSkip(adj, s, q, h, k, j);
    } else {
      FrontierAdd(adj, s, q, h, k);
    }
  }

  lemma {:induction false} ExpandFrontier(adj: Adjacency, s: nat, q: seq<Visit>, h: nat, k: nat)
    requires Closed(adj) && Frontier(adj, s, q, h, 0) && h < |q| && q[h].vertex < |adj| && k <= |adj[q[h].vertex]|
    ensures Frontier(adj, s, Expand(q, adj[q[h].vertex][..k], q[h].depth + 1), h, k)
  {
    hide Frontier;
    if k > 0 {
      var ns, d := adj[q[h].vertex], q[h].depth + 1;
      ExpandFrontier(adj, s, q, h, k - 1);
      var q1 := Expand(q, ns[..k - 1], d);
      assert ns[..k][..k - 1] == ns[..k - 1];
      assert Expand(q, ns[..k], d) == Enqueue(q1, ns[k - 1], d);
      assert Within(ns, |adj|);
      assert q1[h] == q[h];
      EnqueueFrontier(adj, s, q1, h, k - 1);
    }
  }

  /** Distinct vertices of a graph of n. */
  ghost predicate Roster(q: seq<Visit>, n: nat)
  {
    && (forall i :: 0 <= i < |q| ==> q[i].vertex < n)
    && (forall i, j :: 0 <= i < j < |q| ==> q[i].vertex != q[j].vertex)
  }

  /** A vertex not yet queued leaves room: marking before queueing bounds the queue by one
      entry per vertex. */
  lemma RosterFits(q: seq<Visit>, n: nat)
    requires Roster(q, n)
    ensures |q| <= n
    ensures forall w :: 0 <= w < n && !InQueue(q, w) ==> |q| < n
  {
    var l := seq(|q|, i requires 0 <= i < |q| => q[i].vertex);
    PigeonHole(l, n);
    forall w | 0 <= w < n && !InQueue(q, w) ensures |q| < n {
      assert w !in l;
    }
  }

  // --- The visited sequence --------------------------------------------------

  /** Called with everything visited so far, the newest last; false stops the walk. */
  type Visitor = seq<Visit> -> bool

  /** The walk went on after each of the first n visits. */
  ghost predicate WentOn(visit: Visitor, trace: seq<Visit>, n: nat)
    requires n <= |trace|
  {
    forall i :: 0 < i <= n ==> visit(trace[..i])
  }

  /** Everything fewer than d hops from s has been visited. */
  ghost predicate NearVisited(adj: Adjacency, s: nat, trace: seq<Visit>, d: nat)
  {
    forall v: nat, d': nat :: Hops(adj, s, v, d') && d' < d ==> InQueue(trace, v)
  }

  /** Everything reachable from s has been visited. */
  ghost predicate AllVisited(adj: Adjacency, s: nat, trace: seq<Visit>)
  {
    forall v: nat, d: nat :: Hops(adj, s, v, d) ==> InQueue(trace, v)
  }

  ghost predicate Distances(adj: Adjacency, s: nat, q: seq<Visit>, n: nat)
  {
    forall i :: 0 <= i < n && i < |q| ==> Distance(adj, s, q[i].vertex, q[i].depth)
  }

  /** What a breadth-first walk from s shows its visitor: each vertex once, in order of
      distance and labelled with it, nothing nearer left out, and everything reachable
      unless the visitor stopped it. */
  ghost predicate BfsTrace(adj: Adjacency, s: nat, visit: Visitor, trace: seq<Visit>)
  {
    && Entries(adj, s, trace) && Distances(adj, s, trace, |trace|)
    && WentOn(visit, trace, |trace| - 1)
    && NearVisited(adj, s, trace, trace[|trace| - 1].depth)
    && (visit(trace) ==> AllVisited(adj, s, trace))
  }

  /** The first h entries of the queue have been visited and expanded. */
  ghost predicate Progress(adj: Adjacency, s: nat, visit: Visitor, q: seq<Visit>, h: nat)
  {
    && h <= |q| && Entries(adj, s, q) && Distances(adj, s, q, h) && WentOn(visit, q, h)
    && (h < |q| ==> Frontier(adj, s, q, h, 0))
    && (h == |q| ==> AllVisited(adj, s, q))
  }

  lemma ProgressStart(adj: Adjacency, s: nat, visit: Visitor)
    requires s < |adj|
    ensures Progress(adj, s, visit, [Visit(s, 0)], 0)
  {
    FrontierStart(adj, s);
  }

  lemma PrefixEntries(adj: Adjacency, s: nat, q: seq<Visit>, n: nat)
    requires Entries(adj, s, q) && 0 < n <= |q|
    ensures Entries(adj, s, q[..n])
  {
  }

  lemma NearBefore(adj: Adjacency, s: nat, q: seq<Visit>, h: nat)
    requires Frontier(adj, s, q, h, 0)
    ensures NearVisited(adj, s, q[..h + 1], q[h].depth)
  {
    var trace := q[..h + 1];
    forall v: nat, d: nat | Hops(adj, s, v, d) && d < q[h].depth ensures InQueue(trace, v) {
      NearerBefore(adj, s, q, h, 0, v, d);
      var j :| 0 <= j < h && q[j].vertex == v;
      assert trace[j].vertex == v;
    }
  }

  lemma PrefixWentOn(visit: Visitor, q: seq<Visit>, r: seq<Visit>, n: nat)
    requires n <= |q| && n <= |r| && q[..n] == r[..n] && WentOn(visit, q, n)
    ensures WentOn(visit, r, n)
  {
    forall i | 0 < i <= n ensures visit(r[..i]) { assert r[..i] == r[..n][..i] == q[..n][..i] == q[..i]; }
  }

  lemma ProgressStop(adj: Adjacency, s: nat, visit: Visitor, q: seq<Visit>, h: nat)
    requires Progress(adj, s, visit, q, h) && h < |q| && !visit(q[..h + 1])
    ensures BfsTrace(adj, s, visit, q[..h + 1])
  {
    PrefixEntries(adj, s, q, h + 1);
    HeadDistance(adj, s, q, h, 0);
    assert q[..h + 1][..h] == q[..h];
    PrefixWentOn(visit, q, q[..h + 1], h);
    NearBefore(adj, s, q, h);
  }

  lemma ExpandedAll(adj: Adjacency, s: nat, q: seq<Visit>, h: nat)
    requires h < |q| && Entries(adj, s, q) && Frontier(adj, s, q, h, |adj[q[h].vertex]|) && h + 1 == |q|
    ensures AllVisited(adj, s, q)
  {
    forall v: nat, d: nat | Hops(adj, s, v, d) ensures InQueue(q, v) {
      AllFound(adj, s, q, h, v, d);
    }
  }

  /** Expanding entry h makes h + 1 the frontier, or finishes the search. */
  lemma FrontierNext(adj: Adjacency, s: nat, q: seq<Visit>, h: nat)
    requires Closed(adj) && Frontier(adj, s, q, h, 0) && h < |q| && q[h].vertex < |adj|
    ensures var q' := Expand(q, adj[q[h].vertex], q[h].depth + 1);
            && Entries(adj, s, q')
            && (h + 1 < |q'| ==> Frontier(adj, s, q', h + 1, 0))
            && (h + 1 == |q'| ==> AllVisited(adj, s, q'))
  {
    hide Covered, Hops, Expand, AllVisited;
    var ns := adj[q[h].vertex];
    var q' := Expand(q, ns, q[h].depth + 1);
    ExpandFrontier(adj, s, q, h, |ns|);
    assert ns[..|ns|] == ns;
    assert q'[h] == q[h];
    if h + 1 < |q'| { FrontierAdvance(adj, s, q', h); } else { ExpandedAll(adj, s, q', h); }
  }

  lemma ProgressStep(adj: Adjacency, s: nat, visit: Visitor, q: seq<Visit>, h: nat)
    requires Closed(adj) && Progress(adj, s, visit, q, h) && h < |q| && visit(q[..h + 1])
    ensures Progress(adj, s, visit, Expand(q, adj[q[h].vertex], q[h].depth + 1), h + 1)
  {
    hide Frontier, Distances, WentOn, AllVisited, Hops;
    var q' := Expand(q, adj[q[h].vertex], q[h].depth + 1);
    HeadDone(adj, s, visit, q, h);
    FrontierNext(adj, s, q, h);
    KeptPrefix(adj, s, visit, q, q', h + 1);
  }

  /** The head of the queue, too, has its distance, and the walk went on after it. */
  lemma HeadDone(adj: Adjacency, s: nat, visit: Visitor, q: seq<Visit>, h: nat)
    requires Progress(adj, s, visit, q, h) && h < |q| && visit(q[..h + 1])
    ensures Distances(adj, s, q, h + 1) && WentOn(visit, q, h + 1)
  {
    hide Frontier, AllVisited, Hops, Distance;
    HeadDistance(adj, s, q, h, 0);
  }

  lemma KeptPrefix(adj: Adjacency, s: nat, visit: Visitor, q: seq<Visit>, q': seq<Visit>, n: nat)
    requires n <= |q| && q <= q' && Distances(adj, s, q, n) && WentOn(visit, q, n)
    ensures Distances(adj, s, q', n) && WentOn(visit, q', n)
  {
    assert q'[..n] == q[..n];
    PrefixWentOn(visit, q, q', n);
    forall i | 0 <= i < n ensures Distance(adj, s, q'[i].vertex, q'[i].depth) { assert q'[i] == q[i]; }
  }

  lemma ProgressDone(adj: Adjacency, s: nat, visit: Visitor, q: seq<Visit>)
    requires Progress(adj, s, visit, q, |q|)
    ensures BfsTrace(adj, s, visit, q)
  {
  }
}
