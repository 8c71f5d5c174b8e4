/** Depth-first search with one resumed, tagged edge cursor per stack level. */
module GraphDfs {
  import opened Bits
  import opened Bitmap
  import opened Counting
  import opened GraphPools
  import opened GraphShape
  import opened GraphStructure
  import opened GraphAdjacency
  import opened Traversal

  // --- Cursors ---------------------------------------------------------------

  /** The top bit of a cursor selects the in-list. */
  const CURSOR_IN: nat := 0x8000_0000
  const CURSOR_MASK: nat := 0x7FFF_FFFF

  function Tag(side: Side, e: nat): nat
  {
    if side == Out then e else Or(e, CURSOR_IN)
  }

  lemma TagBit()
    ensures CURSOR_IN == Pow2(31)
  {
    assert Pow2(7) == 128 by {
      assert Pow2(7) == 2 * Pow2(6) == 4 * Pow2(5) == 8 * Pow2(4) == 16 * Pow2(3) == 32 * Pow2(2);
    }
    Pow2Square(7);
    assert Pow2(15) == 2 * Pow2(14);
    Pow2Square(15);
    assert Pow2(31) == 2 * Pow2(30);
  }

  /** Below the capacity ceiling a tagged index decodes to its edge and its side, and is
      never the invalid index. */
  lemma TagDecodes(side: Side, e: nat)
    requires e < MAX_CAPACITY
    ensures And(Tag(side, e), CURSOR_MASK) == e
    ensures And(Tag(side, e), CURSOR_IN) != 0 <==> side == In
    ensures Tag(side, e) != INVALID_INDEX
  {
    hide Pow2, And, Or, Bit;
    TagBit();
    OrFlag(e, 31);
    AndMask(Tag(side, e), 31);
    AndFlag(Tag(side, e), 31);
    SmallBit(e, 31);
    OrBit(e, 31, 31);
    DivModUnique(e, CURSOR_IN, 0, e);
    DivModUnique(e + CURSOR_IN, CURSOR_IN, 1, e);
  }

  function FirstCursor(p: Pools, v: nat, incident: bool): nat
    requires v < |p.vertices|
  {
    if p.vertices[v].outs.head != INVALID_INDEX then p.vertices[v].outs.head
    else if !incident || p.vertices[v].ins.head == INVALID_INDEX then INVALID_INDEX
    else Or(p.vertices[v].ins.head, CURSOR_IN)
  }

  function NextCursor(p: Pools, v: nat, cursor: nat, incident: bool): nat
    requires v < |p.vertices| && And(cursor, CURSOR_MASK) < |p.edges|
  {
    var index := And(cursor, CURSOR_MASK);
    if And(cursor, CURSOR_IN) != 0 then
      var next := p.edges[index].ins.next;
      if next == INVALID_INDEX then INVALID_INDEX else Or(next, CURSOR_IN)
    else
      var next := p.edges[index].outs.next;
      if next != INVALID_INDEX then next
      else
        var head := p.vertices[v].ins.head;
        if !incident || head == INVALID_INDEX then INVALID_INDEX else Or(head, CURSOR_IN)
  }

  /** One edge of a vertex's walk: which list, which edge. */
  datatype Step = Step(side: Side, edge: nat)

  /** The edges of v in walking order. */
  function Incident(sh: Shape, directed: bool, v: nat): (r: seq<Step>)
    requires v < |sh.outs| && v < |sh.ins|
    ensures |r| == |sh.outs[v]| + if directed then 0 else |sh.ins[v]|
  {
    seq(|sh.outs[v]|, k requires 0 <= k < |sh.outs[v]| => Step(Out, sh.outs[v][k])) +
    (if directed then [] else seq(|sh.ins[v]|, k requires 0 <= k < |sh.ins[v]| => Step(In, sh.ins[v][k])))
  }

  /** The cursor that stands at position k of v's walk. */
  function CursorAt(sh: Shape, directed: bool, v: nat, k: nat): nat
    requires v < |sh.outs| && v < |sh.ins|
  {
    var steps := Incident(sh, directed, v);
    if k < |steps| then Tag(steps[k].side, steps[k].edge) else INVALID_INDEX
  }

  /** Both lists of v, as the cursor needs them. */
  ghost predicate BothLists(p: Pools, sh: Shape, v: nat)
  {
    && v < |p.vertices| && v < |sh.outs| && v < |sh.ins| && p.vertices[v].active && |p.edges| <= MAX_CAPACITY
    && ListOk(v, p.vertices[v], p.edges, Out, sh.outs[v]) && ListOk(v, p.vertices[v], p.edges, In, sh.ins[v])
  }

  lemma FirstCursorIs(p: Pools, sh: Shape, directed: bool, v: nat)
    requires BothLists(p, sh, v)
    ensures FirstCursor(p, v, !directed) == CursorAt(sh, directed, v, 0)
  {
    if sh.outs[v] != [] { assert NodeOk(p.edges, Out, v, sh.outs[v], 0); }
    if sh.ins[v] != [] { assert NodeOk(p.edges, In, v, sh.ins[v], 0); }
  }

  lemma NextCursorIs(p: Pools, sh: Shape, directed: bool, v: nat, k: nat)
    requires BothLists(p, sh, v) && k < |Incident(sh, directed, v)|
    ensures CursorAt(sh, directed, v, k) != INVALID_INDEX
    ensures And(CursorAt(sh, directed, v, k), CURSOR_MASK) < |p.edges|
    ensures NextCursor(p, v, CursorAt(sh, directed, v, k), !directed) == CursorAt(sh, directed, v, k + 1)
  {
    var outs, ins := sh.outs[v], sh.ins[v];
    var step := Incident(sh, directed, v)[k];
    if k < |outs| {
      assert NodeOk(p.edges, Out, v, outs, k);
      TagDecodes(Out, outs[k]);
      if k + 1 < |outs| { assert NodeOk(p.edges, Out, v, outs, k + 1); }
      if ins != [] { assert NodeOk(p.edges, In, v, ins, 0); }
    } else {
      var j := k - |outs|;
      assert NodeOk(p.edges, In, v, ins, j);
      TagDecodes(In, ins[j]);
      if j + 1 < |ins| { assert NodeOk(p.edges, In, v, ins, j + 1); }
    }
  }

  /** The vertex a cursor leads to. */
  function CursorTarget(p: Pools, cursor: nat): nat
    requires And(cursor, CURSOR_MASK) < |p.edges|
  {
    var e := p.edges[And(cursor, CURSOR_MASK)];
    if And(cursor, CURSOR_IN) != 0 then e.src else e.dst
  }

  lemma CursorTargetIs(p: Pools, sh: Shape, directed: bool, v: nat, k: nat)
    requires BothLists(p, sh, v) && ListsInPool(p, sh) && k < |Incident(sh, directed, v)|
    ensures And(CursorAt(sh, directed, v, k), CURSOR_MASK) < |p.edges|
    ensures |NeighboursOf(p, sh, directed, v)| == |Incident(sh, directed, v)|
    ensures CursorTarget(p, CursorAt(sh, directed, v, k)) == NeighboursOf(p, sh, directed, v)[k]
  {
    var step := Incident(sh, directed, v)[k];
    if k < |sh.outs[v]| {
      assert NodeOk(p.edges, Out, v, sh.outs[v], k);
    } else {
      assert NodeOk(p.edges, In, v, sh.ins[v], k - |sh.outs[v]|);
    }
    TagDecodes(step.side, step.edge);
  }

  // --- The explicit stack ----------------------------------------------------

  /** What the scratch stands for: the vertices on the stack, how far each has been walked,
      and everything marked. */
  datatype Stack = Stack(vertices: seq<nat>, walked: seq<nat>, seen: set<nat>)

  /** A stack of distinct marked vertices, each walked part of the way. */
  ghost predicate StackOk(adj: Adjacency, st: Stack)
  {
    && |st.walked| == |st.vertices| && Counting.Distinct(st.vertices)
    && (forall i :: 0 <= i < |st.vertices| ==>
          && st.vertices[i] < |adj| && st.vertices[i] in st.seen && st.walked[i] <= |adj[st.vertices[i]]|)
  }

  /** What each level still has to walk. */
  ghost function FramesOf(adj: Adjacency, st: Stack): (r: seq<seq<nat>>)
    requires StackOk(adj, st)
    ensures |r| == |st.vertices|
    ensures forall i :: 0 <= i < |r| ==> r[i] == adj[st.vertices[i]][st.walked[i]..]
    ensures Closed(adj) ==> Frames(adj, r)
  {
    var r := seq(|st.vertices|, i requires 0 <= i < |st.vertices| => adj[st.vertices[i]][st.walked[i]..]);
    assert Closed(adj) ==> Frames(adj, r) by {
      if Closed(adj) {
        forall i | 0 <= i < |r| ensures Within(r[i], |adj|) { assert Within(adj[st.vertices[i]], |adj|); }
      }
    }
    r
  }

  ghost function Rest(adj: Adjacency, st: Stack): seq<Visit>
    requires Closed(adj) && StackOk(adj, st)
  {
    DfsStack(adj, FramesOf(adj, st), st.seen)
  }

  ghost function Popped(st: Stack): Stack
    requires st.vertices != [] && |st.walked| == |st.vertices|
  {
    var n := |st.vertices| - 1;
    st.(vertices := st.vertices[..n], walked := st.walked[..n])
  }

  ghost function Stepped(st: Stack): Stack
    requires st.vertices != [] && |st.walked| == |st.vertices|
  {
    var n := |st.vertices| - 1;
    st.(walked := st.walked[n := st.walked[n] + 1])
  }

  ghost function Pushed(st: Stack, v: nat): Stack
  {
    Stack(st.vertices + [v], st.walked + [0], st.seen + {v})
  }

  ghost function Top(st: Stack): nat
    requires st.vertices != []
  {
    st.vertices[|st.vertices| - 1]
  }

  ghost predicate AtEnd(adj: Adjacency, st: Stack)
    requires StackOk(adj, st) && st.vertices != []
  {
    st.walked[|st.vertices| - 1] == |adj[Top(st)]|
  }

  /** The neighbour the top cursor stands at. */
  ghost function Facing(adj: Adjacency, st: Stack): nat
    requires StackOk(adj, st) && st.vertices != [] && !AtEnd(adj, st)
  {
    adj[Top(st)][st.walked[|st.vertices| - 1]]
  }

  lemma PopRest(adj: Adjacency, st: Stack)
    requires Closed(adj) && StackOk(adj, st) && st.vertices != [] && AtEnd(adj, st)
    ensures StackOk(adj, Popped(st)) && Rest(adj, Popped(st)) == Rest(adj, st)
    ensures Pending(FramesOf(adj, Popped(st))) < Pending(FramesOf(adj, st))
  {
    var frames := FramesOf(adj, st);
    var n := |frames| - 1;
    StackPop(adj, frames, st.seen);
    assert FramesOf(adj, Popped(st)) == frames[..n];
  }

  lemma StepFrames(adj: Adjacency, st: Stack)
    requires StackOk(adj, st) && st.vertices != [] && !AtEnd(adj, st)
    ensures StackOk(adj, Stepped(st))
    ensures var frames := FramesOf(adj, st);
            var n := |frames| - 1;
            && frames[n] != [] && frames[n][0] == Facing(adj, st)
            && FramesOf(adj, Stepped(st)) == frames[..n] + [frames[n][1..]]
            && Pending(FramesOf(adj, Stepped(st))) < Pending(frames)
  {
    var frames, after := FramesOf(adj, st), FramesOf(adj, Stepped(st));
    var n := |frames| - 1;
    assert after[n] == frames[n][1..];
    assert after == frames[..n] + [frames[n][1..]];
    assert after[..n] == frames[..n];
  }

  lemma SkipRest(adj: Adjacency, st: Stack)
    requires Closed(adj) && StackOk(adj, st) && st.vertices != [] && !AtEnd(adj, st) && Facing(adj, st) in st.seen
    ensures StackOk(adj, Stepped(st)) && Rest(adj, Stepped(st)) == Rest(adj, st)
  {
    StepFrames(adj, st);
    StackSkip(adj, FramesOf(adj, st), st.seen);
  }

  lemma PushRest(adj: Adjacency, st: Stack)
    requires Closed(adj) && StackOk(adj, st) && st.vertices != [] && !AtEnd(adj, st) && Facing(adj, st) !in st.seen
    ensures var x := Facing(adj, st);
            var st' := Pushed(Stepped(st), x);
            && x < |adj| && StackOk(adj, st')
            && Rest(adj, st) == [Visit(x, |st.vertices|)] + Rest(adj, st')
  {
    hide Dfs, DfsStack;
    var x := Facing(adj, st);
    assert Within(adj[Top(st)], |adj|);
    StepFrames(adj, st);
    StackPush(adj, FramesOf(adj, st), st.seen);
    var st' := Pushed(Stepped(st), x);
    assert FramesOf(adj, st') == FramesOf(adj, Stepped(st)) + [adj[x]];
  }

  // --- The walk --------------------------------------------------------------

  /** The scratch holds the stack's vertices in its first half and their cursors in its
      second; the marked vertices are those seen. */
  ghost predicate Scratch(sh: Shape, directed: bool, st: Stack, work: seq<nat>, cap: nat, words: seq<nat>, n: nat)
  {
    && |work| == 2 * cap && |st.vertices| <= cap && |st.walked| == |st.vertices|
    && n <= cap && n <= 64 * |words| && |sh.outs| == |sh.ins| == n
    && (forall i :: 0 <= i < |st.vertices| ==>
          && st.vertices[i] < n && work[i] == st.vertices[i]
          && work[cap + i] == CursorAt(sh, directed, st.vertices[i], st.walked[i]))
    && (forall v :: 0 <= v < n ==> (Marked(words, v) <==> v in st.seen))
  }

  /** What the visitor is shown: a prefix of the recursive order, all of it unless the
      visitor stopped it. */
  ghost predicate DfsTrace(adj: Adjacency, s: nat, visit: Visitor, trace: seq<Visit>)
    requires Closed(adj) && s < |adj|
  {
    && trace != [] && trace <= DfsOrder(adj, s)
    && WentOn(visit, trace, |trace| - 1)
    && (visit(trace) ==> trace == DfsOrder(adj, s))
  }

  /** Every vertex on the stack is live, with both its lists in order. */
  ghost predicate StackLive(p: Pools, sh: Shape, st: Stack)
  {
    forall i :: 0 <= i < |st.vertices| ==> BothLists(p, sh, st.vertices[i])
  }

  /** Moving the top cursor on is a step of the stack. */
  lemma ScratchSteps(sh: Shape, directed: bool, st: Stack, work: seq<nat>, cap: nat, words: seq<nat>, n: nat, c: nat)
    requires Scratch(sh, directed, st, work, cap, words, n) && st.vertices != []
    requires var top := |st.vertices| - 1;
             c == CursorAt(sh, directed, st.vertices[top], st.walked[top] + 1)
    ensures Scratch(sh, directed, Stepped(st), work[cap + |st.vertices| - 1 := c], cap, words, n)
  {
    hide CursorAt, Marked;
  }

  /** Moves the top cursor on and returns the neighbour it stood at. */
  method Advance(p: Pools, directed: bool, work: array<nat>, cap: nat, top: nat,
                 ghost sh: Shape, ghost st: Stack, ghost words: seq<nat>)
    returns (next: nat)
    requires Scratch(sh, directed, st, work[..], cap, words, |p.vertices|) && ListsInPool(p, sh)
    requires st.vertices != [] && top == |st.vertices| - 1 && BothLists(p, sh, st.vertices[top])
    requires st.walked[top] < |Incident(sh, directed, st.vertices[top])|
    modifies work
    ensures Scratch(sh, directed, Stepped(st), work[..], cap, words, |p.vertices|)
    ensures st.walked[top] < |NeighboursOf(p, sh, directed, st.vertices[top])|
    ensures next == NeighboursOf(p, sh, directed, st.vertices[top])[st.walked[top]]
  {
    hide And, Or, NextCursor, CursorTarget, NeighboursOf, Incident, CursorAt, BothLists, Marked, ListsInPool;
    ghost var v, k := st.vertices[top], st.walked[top];
    NextCursorIs(p, sh, directed, v, k);
    CursorTargetIs(p, sh, directed, v, k);
    ScratchSteps(sh, directed, st, work[..], cap, words, |p.vertices|, CursorAt(sh, directed, v, k + 1));
    var c := work[cap + top];
    work[cap + top] := NextCursor(p, work[top], c, !directed);
    next := CursorTarget(p, c);
  }

  /** Marks a new vertex. */
  method MarkSeen(visited: array<nat>, v: nat, ghost sh: Shape, ghost directed: bool, ghost st: Stack,
                  ghost work: seq<nat>, ghost cap: nat, ghost n: nat)
    requires Scratch(sh, directed, st, work, cap, visited[..], n) && v < n
    modifies visited
    ensures Scratch(sh, directed, st.(seen := st.seen + {v}), work, cap, visited[..], n)
  {
    Mark(visited, v);
  }

  /** Pushes a marked vertex with its first cursor. */
  method Push(p: Pools, directed: bool, work: array<nat>, cap: nat, depth: nat, v: nat,
              ghost sh: Shape, ghost st: Stack, ghost words: seq<nat>)
    requires Scratch(sh, directed, st, work[..], cap, words, |p.vertices|) && BothLists(p, sh, v)
    requires depth == |st.vertices| < cap
    modifies work
    ensures Scratch(sh, directed, st.(vertices := st.vertices + [v], walked := st.walked + [0]),
                    work[..], cap, words, |p.vertices|)
  {
    hide ListOk, Incident, And, Or;
    FirstCursorIs(p, sh, directed, v);
    work[depth] := v;
    work[cap + depth] := FirstCursor(p, v, !directed);
  }

  lemma LiveLists(p: Pools, sh: Shape, v: nat)
    requires Sides(p, sh) && |p.edges| <= MAX_CAPACITY && ListsInPool(p, sh) && v in ActiveVertices(p.vertices)
    ensures BothLists(p, sh, v)
  {
  }

  lemma IncidentCount(p: Pools, sh: Shape, directed: bool, v: nat)
    requires ListsInPool(p, sh) && v < |p.vertices|
    ensures |Incident(sh, directed, v)| == |NeighboursOf(p, sh, directed, v)|
  {
  }

  lemma CursorEnds(p: Pools, sh: Shape, directed: bool, v: nat, k: nat)
    requires BothLists(p, sh, v) && k <= |Incident(sh, directed, v)|
    ensures CursorAt(sh, directed, v, k) == INVALID_INDEX <==> k == |Incident(sh, directed, v)|
  {
    if k < |Incident(sh, directed, v)| { NextCursorIs(p, sh, directed, v, k); }
  }

  /** Vertices on the stack are distinct and live: there is room for one more that is
      neither, and never more levels than live vertices. */
  lemma StackFits(p: Pools, sh: Shape, adj: Adjacency, st: Stack)
    requires StackOk(adj, st) && StackLive(p, sh, st)
    ensures |st.vertices| <= |ActiveVertices(p.vertices)|
    ensures forall x :: x in ActiveVertices(p.vertices) && x !in st.seen ==> |st.vertices| < |ActiveVertices(p.vertices)|
  {
    var on, live := Elements(st.vertices), ActiveVertices(p.vertices);
    forall v | v in on ensures v in live {
      var i :| 0 <= i < |st.vertices| && st.vertices[i] == v;
      assert BothLists(p, sh, st.vertices[i]);
    }
    SubsetCount(on, live);
    forall x | x in live && x !in st.seen ensures |st.vertices| < |live| {
      assert x !in on;
    }
  }

  lemma ActiveFits(vs: seq<VertexRec>)
    ensures |ActiveVertices(vs)| <= |vs|
  {
    assert ActiveVertices(vs) <= Below(|vs|);
    SubsetCount(ActiveVertices(vs), Below(|vs|));
  }

  /** Everything the loop keeps. */
  /** Every vertex was visited at less than this depth, so its level of the stack, which
      the depth counts from 0, was one of the first n. */
  ghost predicate ShallowerThan(trace: seq<Visit>, n: nat)
  {
    forall i :: 0 <= i < |trace| ==> trace[i].depth < n
  }

  lemma OneDeeper(trace: seq<Visit>, x: Visit, n: nat)
    requires x.depth < n
    ensures ShallowerThan(trace, n) ==> ShallowerThan(trace + [x], n)
  {
  }

  lemma SomeLive(vs: seq<VertexRec>, v: nat)
    requires v in ActiveVertices(vs)
    ensures |ActiveVertices(vs)| > 0
  {
  }

  ghost predicate Walking(p: Pools, sh: Shape, directed: bool, start: nat, visit: Visitor, st: Stack, trace: seq<Visit>)
    requires Walkable(p, sh, start) && Closed(Adjacent(p, sh, directed))
  {
    var adj := Adjacent(p, sh, directed);
    && StackOk(adj, st) && StackLive(p, sh, st)
    && trace != [] && trace + Rest(adj, st) == DfsOrder(adj, start) && WentOn(visit, trace, |trace|)
  }

  /** The step that meets a vertex for the first time. */
  lemma WalkPush(p: Pools, sh: Shape, directed: bool, start: nat, visit: Visitor, st: Stack, trace: seq<Visit>)
    requires Walkable(p, sh, start) && Closed(Adjacent(p, sh, directed))
    requires Walking(p, sh, directed, start, visit, st, trace)
    requires st.vertices != [] && !AtEnd(Adjacent(p, sh, directed), st)
    requires Facing(Adjacent(p, sh, directed), st) !in st.seen
    ensures var x := Facing(Adjacent(p, sh, directed), st);
            var st', trace' := Pushed(Stepped(st), x), trace + [Visit(x, |st.vertices|)];
            && x in ActiveVertices(p.vertices) && BothLists(p, sh, x)
            && |st.vertices| < |ActiveVertices(p.vertices)|
            && (if visit(trace') then Walking(p, sh, directed, start, visit, st', trace')
                else DfsTrace(Adjacent(p, sh, directed), start, visit, trace'))
            && Unseen(Adjacent(p, sh, directed), st'.seen) < Unseen(Adjacent(p, sh, directed), st.seen)
  {
    hide Dfs, DfsStack, SideOk, BothLists, FramesOf;
    var adj := Adjacent(p, sh, directed);
    var x, n := Facing(adj, st), |st.vertices|;
    var st', trace' := Pushed(Stepped(st), x), trace + [Visit(x, n)];
    PushRest(adj, st);
    NeighbourActive(p, sh, directed, Top(st), st.walked[n - 1]);
    LiveLists(p, sh, x);
    StackFits(p, sh, adj, st);
    SeenGrows(adj, st.seen, st'.seen);
    TraceGrows(visit, trace, Visit(x, n));
    assert trace + Rest(adj, st) == trace' + Rest(adj, st');
  }

  lemma TraceGrows(visit: Visitor, trace: seq<Visit>, x: Visit)
    requires WentOn(visit, trace, |trace|)
    ensures WentOn(visit, trace + [x], |trace|)
    ensures visit(trace + [x]) ==> WentOn(visit, trace + [x], |trace| + 1)
  {
    var trace' := trace + [x];
    assert trace'[..|trace|] == trace[..|trace|];
    PrefixWentOn(visit, trace, trace', |trace|);
    assert trace'[..|trace| + 1] == trace';
  }

  lemma WalkSkip(p: Pools, sh: Shape, directed: bool, start: nat, visit: Visitor, st: Stack, trace: seq<Visit>)
    requires Walkable(p, sh, start) && Closed(Adjacent(p, sh, directed))
    requires Walking(p, sh, directed, start, visit, st, trace)
    requires st.vertices != [] && !AtEnd(Adjacent(p, sh, directed), st)
    requires Facing(Adjacent(p, sh, directed), st) in st.seen
    ensures Walking(p, sh, directed, start, visit, Stepped(st), trace)
    ensures Pending(FramesOf(Adjacent(p, sh, directed), Stepped(st))) < Pending(FramesOf(Adjacent(p, sh, directed), st))
  {
    hide Dfs, DfsStack, SideOk, BothLists;
    SkipRest(Adjacent(p, sh, directed), st);
    StepFrames(Adjacent(p, sh, directed), st);
  }

  lemma WalkPop(p: Pools, sh: Shape, directed: bool, start: nat, visit: Visitor, st: Stack, trace: seq<Visit>)
    requires Walkable(p, sh, start) && Closed(Adjacent(p, sh, directed))
    requires Walking(p, sh, directed, start, visit, st, trace)
    requires st.vertices != [] && AtEnd(Adjacent(p, sh, directed), st)
    ensures Walking(p, sh, directed, start, visit, Popped(st), trace)
    ensures Pending(FramesOf(Adjacent(p, sh, directed), Popped(st))) < Pending(FramesOf(Adjacent(p, sh, directed), st))
  {
    hide Dfs, DfsStack, SideOk, BothLists;
    PopRest(Adjacent(p, sh, directed), st);
  }

  /** Marks and stacks the start vertex in cleared scratch. */
  method Begin(p: Pools, directed: bool, start: nat, work: array<nat>, cap: nat, visited: array<nat>, ghost sh: Shape)
    requires Walkable(p, sh, start) && work != visited
    requires work.Length == 2 * cap && |p.vertices| <= cap && |p.vertices| <= 64 * visited.Length
    modifies work, visited
    ensures Scratch(sh, directed, Stack([start], [0], {start}), work[..], cap, visited[..], |p.vertices|)
  {
    hide SideOk;
    ghost var n := |p.vertices|;
    Clear(visited);
    ghost var empty := Stack([], [], {});
    assert Scratch(sh, directed, empty, work[..], cap, visited[..], n);
    MarkSeen(visited, start, sh, directed, empty, work[..], cap, n);
    LiveLists(p, sh, start);
    Push(p, directed, work, cap, 0, start, sh, empty.(seen := {} + {start}), visited[..]);
    assert {} + {start} == {start} && [] + [start] == [start] && [] + [0] == [0];
  }

  lemma WalkStart(p: Pools, sh: Shape, directed: bool, start: nat, visit: Visitor)
    requires Walkable(p, sh, start) && Closed(Adjacent(p, sh, directed))
    ensures var trace, st := [Visit(start, 0)], Stack([start], [0], {start});
            if visit(trace) then Walking(p, sh, directed, start, visit, st, trace)
            else DfsTrace(Adjacent(p, sh, directed), start, visit, trace)
  {
    hide Dfs, DfsStack, SideOk, ListOk, NeighboursOf;
    var adj := Adjacent(p, sh, directed);
    var trace, st := [Visit(start, 0)], Stack([start], [0], {start});
    LiveLists(p, sh, start);
    StackStart(adj, start);
    assert FramesOf(adj, st) == [adj[start]];
    TraceGrows(visit, [], Visit(start, 0));
    assert [] + [Visit(start, 0)] == trace;
    assert DfsOrder(adj, start) == trace + Rest(adj, st);
  }

  /** One turn of the loop: pop a finished level, skip a vertex seen before, or visit a new
      one and push it. */
  method Turn(p: Pools, directed: bool, visit: Visitor, work: array<nat>, cap: nat, visited: array<nat>,
              depth: nat, trace: seq<Visit>, ghost sh: Shape, ghost start: nat, ghost st: Stack)
    returns (stop: bool, depth': nat, trace': seq<Visit>, ghost st': Stack)
    requires Walkable(p, sh, start) && Closed(Adjacent(p, sh, directed)) && work != visited
    requires Walking(p, sh, directed, start, visit, st, trace) && depth == |st.vertices| > 0
    requires Scratch(sh, directed, st, work[..], cap, visited[..], |p.vertices|)
    modifies work, visited
    ensures stop ==> DfsTrace(Adjacent(p, sh, directed), start, visit, trace')
    ensures ShallowerThan(trace, |ActiveVertices(p.vertices)|) ==> ShallowerThan(trace', |ActiveVertices(p.vertices)|)
    ensures !stop ==>
              && Walking(p, sh, directed, start, visit, st', trace') && depth' == |st'.vertices|
              && Scratch(sh, directed, st', work[..], cap, visited[..], |p.vertices|)
              && var adj := Adjacent(p, sh, directed);
                 (Unseen(adj, st'.seen) < Unseen(adj, st.seen)
                  || (st'.seen == st.seen && Pending(FramesOf(adj, st')) < Pending(FramesOf(adj, st))))
  {
    hide Dfs, DfsStack, SideOk, ListOk, FramesOf, NeighboursOf, Pending, WentOn, DfsOrder, Incident, BothLists, Marked, And, Or, ShallowerThan;
    ghost var adj := Adjacent(p, sh, directed);
    var top := depth - 1;
    ghost var v, k := st.vertices[top], st.walked[top];
    assert BothLists(p, sh, v);
    IncidentCount(p, sh, directed, v);
    CursorEnds(p, sh, directed, v, k);
    if work[cap + top] == INVALID_INDEX {
      WalkPop(p, sh, directed, start, visit, st, trace);
      return false, top, trace, Popped(st);
    }
    var next := Advance(p, directed, work, cap, top, sh, st, visited[..]);
    assert next == Facing(adj, st);
    assert Within(adj[v], |adj|);
    var seen := Test(visited, next);
    if seen {
      WalkSkip(p, sh, directed, start, visit, st, trace);
      return false, depth, trace, Stepped(st);
    }
    WalkPush(p, sh, directed, start, visit, st, trace);
    ActiveFits(p.vertices);
    MarkSeen(visited, next, sh, directed, Stepped(st), work[..], cap, |p.vertices|);
    trace' := trace + [Visit(next, depth)];
    OneDeeper(trace, Visit(next, depth), |ActiveVertices(p.vertices)|);
    if !visit(trace') { return true, depth, trace', st; }
    Push(p, directed, work, cap, depth, next, sh, Stepped(st).(seen := st.seen + {next}), visited[..]);
    st' := Pushed(Stepped(st), next);
    stop, depth' := false, depth + 1;
  }

  /** Depth-first search. */
  method Walk(p: Pools, directed: bool, start: nat, visit: Visitor, work: array<nat>, cap: nat, visited: array<nat>,
              ghost sh: Shape)
    returns (trace: seq<Visit>)
    requires Walkable(p, sh, start) && Closed(Adjacent(p, sh, directed)) && work != visited
    requires work.Length == 2 * cap && |p.vertices| <= cap && |p.vertices| <= 64 * visited.Length
    modifies work, visited
    ensures DfsTrace(Adjacent(p, sh, directed), start, visit, trace)
    ensures ShallowerThan(trace, |ActiveVertices(p.vertices)|)
  {
    hide Dfs, DfsStack, SideOk, ListOk, FramesOf, NeighboursOf, Pending, WentOn, DfsOrder, Scratch, Unseen, BothLists;
    ghost var adj := Adjacent(p, sh, directed);
    WalkStart(p, sh, directed, start, visit);
    Begin(p, directed, start, work, cap, visited, sh);
    trace := [Visit(start, 0)];
    SomeLive(p.vertices, start);
    if !visit(trace) { return; }
    ghost var st := Stack([start], [0], {start});
    var depth := 1;
    while depth > 0
      invariant depth == |st.vertices| && ShallowerThan(trace, |ActiveVertices(p.vertices)|)
      invariant Walking(p, sh, directed, start, visit, st, trace)
      invariant Scratch(sh, directed, st, work[..], cap, visited[..], |p.vertices|)
      decreases Unseen(adj, st.seen), Pending(FramesOf(adj, st))
    {
      var stop;
      stop, depth, trace, st := Turn(p, directed, visit, work, cap, visited, depth, trace, sh, start, st);
      if stop { return; }
    }
    WalkDone(p, sh, directed, start, visit, st, trace);
  }

  lemma WalkDone(p: Pools, sh: Shape, directed: bool, start: nat, visit: Visitor, st: Stack, trace: seq<Visit>)
    requires Walkable(p, sh, start) && Closed(Adjacent(p, sh, directed))
    requires Walking(p, sh, directed, start, visit, st, trace) && st.vertices == []
    ensures DfsTrace(Adjacent(p, sh, directed), start, visit, trace)
  {
    hide Dfs, SideOk;
    var adj := Adjacent(p, sh, directed);
    assert FramesOf(adj, st) == [];
    assert trace[..|trace|] == trace;
    assert trace + [] == trace;
  }
}
