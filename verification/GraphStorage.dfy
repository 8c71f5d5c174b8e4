/** The blocks behind the graph, and every byte of them.

    The allocator is an oracle that may refuse any request; a refused resize keeps the old
    block. Its ledger records what is outstanding. */
module GraphStorage {
  import opened GraphPools

  const MIN_CAPACITY: nat := 8
  const VERTEX_BYTES: nat := 32
  const EDGE_BYTES: nat := 32
  const WEIGHT_BYTES: nat := 8
  const WORK_BYTES: nat := 8
  const WORD_BYTES: nat := 8

  datatype Status = Ok | Invalid | Stale | NotFound | Exists | Full | NoMemory | Overflow

  datatype Kind = VertexBlock | EdgeBlock | WeightBlock | WorkBlock | VisitedBlock

  /** The growth curve: a first jump, then half again, up to the ceiling. */
  function NextCapacity(capacity: nat): (r: nat)
    requires capacity <= MAX_CAPACITY
    ensures MIN_CAPACITY <= r <= MAX_CAPACITY && (capacity < MAX_CAPACITY ==> r > capacity)
    ensures capacity < MIN_CAPACITY ==> r == MIN_CAPACITY
    ensures capacity >= MIN_CAPACITY ==> 2 * r <= 3 * capacity && (2 * r + 1 >= 3 * capacity || r == MAX_CAPACITY)
  {
    if capacity < MIN_CAPACITY then MIN_CAPACITY
    else if capacity > MAX_CAPACITY - capacity / 2 then MAX_CAPACITY
    else capacity + capacity / 2
  }

  function Clamp(capacity: nat, ceiling: nat): nat
  {
    if ceiling != 0 && capacity > ceiling then ceiling else capacity
  }

  /** What a pool grows to for a batch: along the curve, or further if the batch needs it,
      up to the ceiling. */
  function BulkTarget(capacity: nat, needed: nat, ceiling: nat): nat
    requires capacity <= MAX_CAPACITY
  {
    var curve := NextCapacity(capacity);
    Clamp(if needed > curve then needed else curve, ceiling)
  }

  /** The capacity a pool has once room for a batch has been granted. */
  function BulkCapacity(capacity: nat, needed: nat, ceiling: nat): (r: nat)
    requires capacity <= MAX_CAPACITY
    ensures r >= capacity
    ensures r >= needed || AtCeiling(r, ceiling)
  {
    var target := BulkTarget(capacity, needed, ceiling);
    if needed <= capacity || target <= capacity then capacity else target
  }

  /** The pool cannot grow further. */
  predicate AtCeiling(capacity: nat, ceiling: nat)
  {
    capacity >= MAX_CAPACITY || (ceiling != 0 && capacity >= ceiling)
  }

  /** Words of a bitmap with one bit a vertex, and none to spare. */
  function Words(capacity: nat): (r: nat)
    ensures 64 * r >= capacity && (r > 0 ==> 64 * (r - 1) < capacity)
  {
    (capacity + 63) / 64
  }

  /** The recorded size of every block, in bytes. */
  datatype Sizes = Sizes(vertices: nat, edges: nat, weights: nat, work: nat, visited: nat) {
    function Of(k: Kind): nat
    {
      match k
      case VertexBlock => vertices
      case EdgeBlock => edges
      case WeightBlock => weights
      case WorkBlock => work
      case VisitedBlock => visited
    }

    function Set(k: Kind, bytes: nat): (r: Sizes)
      ensures r.Of(k) == bytes && forall j :: j != k ==> r.Of(j) == Of(j)
    {
      match k
      case VertexBlock => this.(vertices := bytes)
      case EdgeBlock => this.(edges := bytes)
      case WeightBlock => this.(weights := bytes)
      case WorkBlock => this.(work := bytes)
      case VisitedBlock => this.(visited := bytes)
    }

    function Total(): nat
    {
      vertices + edges + weights + work + visited
    }
  }

  const NoSizes := Sizes(0, 0, 0, 0, 0)

  /** A block is held for kind k exactly if it has a size, which is what was granted. */
  ghost predicate Granted(ledger: map<nat, nat>, held: map<Kind, nat>, k: Kind, bytes: nat)
  {
    if bytes == 0 then k !in held else k in held && held[k] in ledger && ledger[held[k]] == bytes
  }

  ghost predicate Owned(held: map<Kind, nat>, b: nat)
  {
    exists k :: k in held && held[k] == b
  }

  /** Blocks and sizes agree: the ledger grants each kind exactly its size, in a block of
      its own, and nothing else is outstanding. */
  ghost predicate Accounts(ledger: map<nat, nat>, held: map<Kind, nat>, sizes: Sizes)
  {
    && (forall k :: Granted(ledger, held, k, sizes.Of(k)))
    && (forall j, k :: j in held && k in held && j != k ==> held[j] != held[k])
    && (forall b :: b in ledger ==> Owned(held, b))
  }

  // --- Adding up the ledger --------------------------------------------------

  ghost function Sum(m: map<nat, nat>): nat
    decreases |m|
  {
    if m == map[] then 0 else
    var k :| k in m;
    m[k] + Sum(m - {k})
  }

  lemma {:induction false} SumTake(m: map<nat, nat>, k: nat)
    requires k in m
    ensures Sum(m) == m[k] + Sum(m - {k})
    decreases |m|
  {
    var j :| j in m && Sum(m) == m[j] + Sum(m - {j});
    if j != k {
      SumTake(m - {j}, k);
      SumTake(m - {k}, j);
      assert m - {j} - {k} == m - {k} - {j};
    }
  }

  ghost function Dropped(ledger: map<nat, nat>, held: map<Kind, nat>, k: Kind): map<nat, nat>
  {
    if k in held then ledger - {held[k]} else ledger
  }

  /** Dropping a kind drops its block. */
  lemma DropKind(ledger: map<nat, nat>, held: map<Kind, nat>, sizes: Sizes, k: Kind)
    requires Accounts(ledger, held, sizes)
    ensures Accounts(Dropped(ledger, held, k), held - {k}, sizes.Set(k, 0))
  {
    var ledger', held' := Dropped(ledger, held, k), held - {k};
    forall j ensures Granted(ledger', held', j, sizes.Set(k, 0).Of(j)) {
      assert Granted(ledger, held, j, sizes.Of(j));
    }
    forall b | b in ledger' ensures Owned(held', b) {
      assert Owned(held, b);
      var j :| j in held && held[j] == b;
      assert j in held' && held'[j] == b;
    }
  }

  lemma DropSum(ledger: map<nat, nat>, held: map<Kind, nat>, sizes: Sizes, k: Kind)
    requires Accounts(ledger, held, sizes)
    ensures Sum(ledger) == sizes.Of(k) + Sum(Dropped(ledger, held, k))
  {
    assert Granted(ledger, held, k, sizes.Of(k));
    if k in held { SumTake(ledger, held[k]); }
  }

  /** The bytes outstanding are the sum of the recorded block sizes. */
  lemma OutstandingExact(ledger: map<nat, nat>, held: map<Kind, nat>, sizes: Sizes)
    requires Accounts(ledger, held, sizes)
    ensures Sum(ledger) == sizes.Total()
  {
    hide Accounts, Sum;
    DropSum(ledger, held, sizes, VertexBlock);
    DropKind(ledger, held, sizes, VertexBlock);
    var l1, h1, s1 := Dropped(ledger, held, VertexBlock), held - {VertexBlock}, sizes.Set(VertexBlock, 0);
    DropSum(l1, h1, s1, EdgeBlock);
    DropKind(l1, h1, s1, EdgeBlock);
    var l2, h2, s2 := Dropped(l1, h1, EdgeBlock), h1 - {EdgeBlock}, s1.Set(EdgeBlock, 0);
    DropSum(l2, h2, s2, WeightBlock);
    DropKind(l2, h2, s2, WeightBlock);
    var l3, h3, s3 := Dropped(l2, h2, WeightBlock), h2 - {WeightBlock}, s2.Set(WeightBlock, 0);
    DropSum(l3, h3, s3, WorkBlock);
    DropKind(l3, h3, s3, WorkBlock);
    var l4, h4, s4 := Dropped(l3, h3, WorkBlock), h3 - {WorkBlock}, s3.Set(WorkBlock, 0);
    DropSum(l4, h4, s4, VisitedBlock);
    DropKind(l4, h4, s4, VisitedBlock);
    NothingHeld(Dropped(l4, h4, VisitedBlock), h4 - {VisitedBlock}, s4.Set(VisitedBlock, 0));
  }

  lemma NothingHeld(ledger: map<nat, nat>, held: map<Kind, nat>, sizes: Sizes)
    requires Accounts(ledger, held, sizes) && sizes == NoSizes
    ensures ledger == map[] && Sum(ledger) == 0
  {
    forall k ensures k !in held { assert Granted(ledger, held, k, sizes.Of(k)); }
    assert forall b :: !Owned(held, b);
    assert ledger == map[];
  }

  /** A block takes kind k's place. */
  lemma Moved(was: map<nat, nat>, now: map<nat, nat>, held: map<Kind, nat>, sizes: Sizes,
              kind: Kind, mem: nat, bytes: nat)
    requires Accounts(was, held, sizes) && bytes > 0
    requires mem !in Dropped(was, held, kind) && now == Dropped(was, held, kind)[mem := bytes]
    ensures Accounts(now, held[kind := mem], sizes.Set(kind, bytes))
  {
    hide Accounts;
    DropKind(was, held, sizes, kind);
    AddKind(Dropped(was, held, kind), held - {kind}, sizes.Set(kind, 0), kind, mem, bytes);
    assert (held - {kind})[kind := mem] == held[kind := mem];
    assert sizes.Set(kind, 0).Set(kind, bytes) == sizes.Set(kind, bytes);
  }

  lemma AddKind(ledger: map<nat, nat>, held: map<Kind, nat>, sizes: Sizes, kind: Kind, mem: nat, bytes: nat)
    requires Accounts(ledger, held, sizes) && kind !in held && mem !in ledger && bytes > 0
    ensures Accounts(ledger[mem := bytes], held[kind := mem], sizes.Set(kind, bytes))
  {
    var ledger', held' := ledger[mem := bytes], held[kind := mem];
    forall j ensures Granted(ledger', held', j, sizes.Set(kind, bytes).Of(j)) {
      assert Granted(ledger, held, j, sizes.Of(j));
    }
    forall j, k | j in held' && k in held' && j != k ensures held'[j] != held'[k] {
      assert Granted(ledger, held, j, sizes.Of(j)) && Granted(ledger, held, k, sizes.Of(k));
    }
    forall b | b in ledger' ensures Owned(held', b) {
      if b == mem {
        assert held'[kind] == b;
      } else {
        assert Owned(held, b);
        var j :| j in held && held[j] == b;
        assert held'[j] == b;
      }
    }
  }

  lemma FreshBlock(m: map<nat, nat>)
    ensures exists b: nat :: b !in m
  {
    var b := Above(m.Keys);
    assert b !in m;
  }

  ghost function Above(s: set<nat>): (b: nat)
    ensures forall x :: x in s ==> x < b
  {
    if s == {} then 0 else
    var x :| x in s;
    var b := Above(s - {x});
    assert forall y :: y in s ==> y == x || y in s - {x};
    if b <= x then x + 1 else b
  }

  // --- The blocks ------------------------------------------------------------

  class Storage {
    /** The allocator: what is outstanding, how often it was called and how often it
        refused, and whether it can resize in place. */
    var ledger: map<nat, nat>
    var calls: nat
    var refusals: nat
    const canResize: bool

    const weighted: bool
    const growable: bool
    const initialVertices: nat
    const initialEdges: nat
    const maxVertices: nat
    const maxEdges: nat

    var held: map<Kind, nat>
    var vertexCapacity: nat
    var edgeCapacity: nat
    var weightCapacity: nat
    var workCapacity: nat
    var visitedWords: nat

    function Recorded(): Sizes
      reads this
    {
      Sizes(vertexCapacity * VERTEX_BYTES, edgeCapacity * EDGE_BYTES, weightCapacity * WEIGHT_BYTES,
            workCapacity * WORK_BYTES, visitedWords * WORD_BYTES)
    }

    ghost predicate Capped()
      reads this
    {
      && vertexCapacity <= MAX_CAPACITY && edgeCapacity <= MAX_CAPACITY
      && initialVertices <= MAX_CAPACITY && initialEdges <= MAX_CAPACITY
    }

    /** Every byte is accounted for, weights cover the edges they belong to, and a fixed
        graph has all it will ever need. */
    ghost predicate Valid()
      reads this
    {
      && Accounts(ledger, held, Recorded()) && Capped()
      && (weighted ==> weightCapacity >= edgeCapacity) && (!weighted ==> weightCapacity == 0)
      && (!growable ==>
            && vertexCapacity == initialVertices && edgeCapacity == initialEdges
            && (weighted ==> weightCapacity == edgeCapacity)
            && workCapacity >= vertexCapacity && visitedWords >= Words(vertexCapacity))
    }

    constructor (canResize: bool, weighted: bool, growable: bool, vertices: nat, edges: nat, maxV: nat, maxE: nat)
      requires vertices <= MAX_CAPACITY && edges <= MAX_CAPACITY
      ensures ledger == map[] && calls == 0 && Accounts(ledger, held, Recorded()) && Capped()
      ensures vertexCapacity == 0 && edgeCapacity == 0 && weightCapacity == 0 && workCapacity == 0 && visitedWords == 0
      ensures this.weighted == weighted && this.growable == growable && this.canResize == canResize
      ensures initialVertices == vertices && initialEdges == edges
      ensures maxVertices == (if growable then maxV else vertices) && maxEdges == (if growable then maxE else edges)
    {
      this.canResize := canResize;
      this.weighted, this.growable := weighted, growable;
      this.initialVertices, this.initialEdges := vertices, edges;
      this.maxVertices := if growable then maxV else vertices;
      this.maxEdges := if growable then maxE else edges;
      ledger, calls, refusals, held := map[], 0, 0, map[];
      vertexCapacity, edgeCapacity, weightCapacity, workCapacity, visitedWords := 0, 0, 0, 0, 0;
    }

    // --- The allocator hooks -------------------------------------------------

    method Alloc(bytes: nat) returns (granted: bool, block: nat)
      modifies this`ledger, this`calls, this`refusals
      ensures calls == old(calls) + 1 && refusals == old(refusals) + if granted then 0 else 1
      ensures granted ==> block !in old(ledger) && ledger == old(ledger)[block := bytes]
      ensures !granted ==> ledger == old(ledger)
    {
      calls := calls + 1;
      granted := *;
      block :| block !in ledger by { FreshBlock(ledger); }
      if granted { ledger := ledger[block := bytes]; } else { refusals := refusals + 1; }
    }

    /** Moves a block to a new size; on refusal it keeps the old one. */
    method Realloc(block: nat, oldBytes: nat, newBytes: nat) returns (granted: bool, moved: nat)
      requires block in ledger && ledger[block] == oldBytes
      modifies this`ledger, this`calls, this`refusals
      ensures calls == old(calls) + 1 && refusals == old(refusals) + if granted then 0 else 1
      ensures granted ==> moved !in old(ledger) - {block} && ledger == (old(ledger) - {block})[moved := newBytes]
      ensures !granted ==> ledger == old(ledger)
    {
      calls := calls + 1;
      granted := *;
      var others := ledger - {block};
      moved :| moved !in others by { FreshBlock(others); }
      if granted { ledger := others[moved := newBytes]; } else { refusals := refusals + 1; }
    }

    /** Takes a block back; the caller must name its exact size. */
    method Free(block: nat, bytes: nat)
      requires block in ledger && ledger[block] == bytes
      modifies this`ledger, this`calls
      ensures calls == old(calls) + 1 && ledger == old(ledger) - {block}
    {
      calls := calls + 1;
      ledger := ledger - {block};
    }

    // --- Resizing one block --------------------------------------------------

    /** Gets a block of the new size in place of the old one: by resizing where the hooks
        can, else by taking the new before giving back the old. */
    method Obtain(kind: Kind, oldBytes: nat, newBytes: nat) returns (granted: bool, mem: nat)
      requires kind in held ==> held[kind] in ledger && ledger[held[kind]] == oldBytes
      modifies this`ledger, this`calls, this`refusals
      ensures refusals == old(refusals) + if granted then 0 else 1
      ensures granted ==> mem !in Dropped(old(ledger), held, kind)
                          && ledger == Dropped(old(ledger), held, kind)[mem := newBytes]
      ensures !granted ==> ledger == old(ledger)
      ensures calls == old(calls) + if kind in held && !canResize && granted then 2 else 1
    {
      if kind !in held {
        granted, mem := Alloc(newBytes);
      } else if canResize {
        granted, mem := Realloc(held[kind], oldBytes, newBytes);
      } else {
        granted, mem := Alloc(newBytes);
        if granted { Free(held[kind], oldBytes); }
      }
    }

    /** One helper for all blocks. On success the block has the new size, which the caller
        then records; on refusal nothing has changed. */
    method ResizeBlock(kind: Kind, oldBytes: nat, newBytes: nat) returns (status: Status)
      requires Accounts(ledger, held, Recorded()) && oldBytes == Recorded().Of(kind)
      modifies this`ledger, this`calls, this`refusals, this`held
      ensures status in {Ok, NoMemory}
      ensures Accounts(ledger, held, if status == Ok then Recorded().Set(kind, newBytes) else Recorded())
      ensures newBytes == oldBytes ==> status == Ok && calls == old(calls)
      ensures status == NoMemory ==> ledger == old(ledger) && held == old(held)
      ensures refusals == old(refusals) + if status == NoMemory then 1 else 0
      ensures newBytes != oldBytes && newBytes > 0 ==>
                calls == old(calls) + if kind in old(held) && !canResize && status == Ok then 2 else 1
      ensures newBytes != oldBytes && newBytes == 0 ==> status == Ok && calls == old(calls) + 1
    {
      ghost var sizes := Recorded();
      assert Granted(ledger, held, kind, sizes.Of(kind));
      hide Accounts;
      if newBytes == oldBytes {
        assert sizes.Set(kind, newBytes) == sizes;
        return Ok;
      }
      if newBytes == 0 {
        DropKind(ledger, held, sizes, kind);
        if kind in held { Free(held[kind], oldBytes); }
        held := held - {kind};
        return Ok;
      }
      var granted, mem := Obtain(kind, oldBytes, newBytes);
      if !granted { return NoMemory; }
      Moved(old(ledger), ledger, held, sizes, kind, mem, newBytes);
      held := held[kind := mem];
      status := Ok;
    }

    // --- Capacities ----------------------------------------------------------

    method SetVertexCapacity(capacity: nat, watermark: nat) returns (status: Status)
      requires Accounts(ledger, held, Recorded()) && watermark <= vertexCapacity
      modifies this`ledger, this`calls, this`refusals, this`held, this`vertexCapacity
      ensures Accounts(ledger, held, Recorded())
      ensures status == Ok ==> vertexCapacity == capacity <= MAX_CAPACITY || vertexCapacity == capacity == old(vertexCapacity)
      ensures status != Ok ==> vertexCapacity == old(vertexCapacity) && ledger == old(ledger) && held == old(held)
      ensures status == Ok ==> watermark <= vertexCapacity
      ensures capacity == old(vertexCapacity) ==> status == Ok && calls == old(calls)
      ensures status in {Ok, Overflow, Invalid, NoMemory}
      ensures status == Overflow <==> capacity != old(vertexCapacity) && capacity > MAX_CAPACITY
      ensures status == Invalid <==> capacity != old(vertexCapacity) && capacity <= MAX_CAPACITY && capacity < watermark
      ensures refusals == old(refusals) + if status == NoMemory then 1 else 0
    {
      hide Accounts;
      if capacity == vertexCapacity { return Ok; }
      if capacity > MAX_CAPACITY { return Overflow; }
      if capacity < watermark { return Invalid; }
      ghost var sizes := Recorded();
      status := ResizeBlock(VertexBlock, vertexCapacity * VERTEX_BYTES, capacity * VERTEX_BYTES);
      if status != Ok { return; }
      vertexCapacity := capacity;
      assert Recorded() == sizes.Set(VertexBlock, capacity * VERTEX_BYTES);
    }

    method ResizeWeights(capacity: nat) returns (status: Status)
      requires Accounts(ledger, held, Recorded())
      modifies this`ledger, this`calls, this`refusals, this`held, this`weightCapacity
      ensures Accounts(ledger, held, Recorded()) && status in {Ok, NoMemory}
      ensures !weighted || capacity == old(weightCapacity) ==>
                status == Ok && calls == old(calls) && weightCapacity == old(weightCapacity)
      ensures weighted && status == Ok ==> weightCapacity == capacity
      ensures status != Ok ==> weightCapacity == old(weightCapacity)
      ensures refusals == old(refusals) + if status == NoMemory then 1 else 0
    {
      hide Accounts;
      if !weighted || capacity == weightCapacity { return Ok; }
      ghost var sizes := Recorded();
      status := ResizeBlock(WeightBlock, weightCapacity * WEIGHT_BYTES, capacity * WEIGHT_BYTES);
      if status != Ok { return; }
      weightCapacity := capacity;
      assert Recorded() == sizes.Set(WeightBlock, capacity * WEIGHT_BYTES);
    }

    method ResizeEdges(capacity: nat) returns (status: Status)
      requires Accounts(ledger, held, Recorded())
      modifies this`ledger, this`calls, this`refusals, this`held, this`edgeCapacity
      ensures Accounts(ledger, held, Recorded()) && status in {Ok, NoMemory}
      ensures status == Ok ==> edgeCapacity == capacity
      ensures status != Ok ==> edgeCapacity == old(edgeCapacity)
      ensures refusals == old(refusals) + if status == NoMemory then 1 else 0
    {
      hide Accounts;
      ghost var sizes := Recorded();
      status := ResizeBlock(EdgeBlock, edgeCapacity * EDGE_BYTES, capacity * EDGE_BYTES);
      if status != Ok { return; }
      edgeCapacity := capacity;
      assert Recorded() == sizes.Set(EdgeBlock, capacity * EDGE_BYTES);
    }

    /** Weights are resized before the pool grows and after it shrinks, so whatever is
        refused they still cover it. */
    method SetEdgeCapacity(capacity: nat, watermark: nat) returns (status: Status)
      requires Accounts(ledger, held, Recorded()) && watermark <= edgeCapacity
      requires (weighted ==> weightCapacity >= edgeCapacity) && (!weighted ==> weightCapacity == 0)
      modifies this`ledger, this`calls, this`refusals, this`held, this`edgeCapacity, this`weightCapacity
      ensures Accounts(ledger, held, Recorded())
      ensures (weighted ==> weightCapacity >= edgeCapacity) && (!weighted ==> weightCapacity == 0)
      ensures status == Ok ==> edgeCapacity == capacity && (weighted ==> weightCapacity == capacity)
      ensures watermark <= edgeCapacity
      ensures edgeCapacity == old(edgeCapacity) || edgeCapacity == capacity <= MAX_CAPACITY
      ensures capacity == old(edgeCapacity) && (weighted ==> old(weightCapacity) == capacity) ==>
                status == Ok && calls == old(calls) && weightCapacity == old(weightCapacity)
      ensures status in {Ok, Overflow, Invalid, NoMemory}
      ensures status == Invalid ==> capacity < watermark
      ensures status == Overflow ==> capacity > MAX_CAPACITY
      ensures capacity > old(edgeCapacity) && status != Ok ==> edgeCapacity == old(edgeCapacity)
      ensures refusals == old(refusals) + if status == NoMemory then 1 else 0
    {
      hide Accounts;
      if capacity == edgeCapacity {
        status := ResizeWeights(capacity);
        return;
      }
      if capacity > MAX_CAPACITY { return Overflow; }
      if capacity < watermark { return Invalid; }
      var growing := capacity > edgeCapacity;
      if growing {
        status := ResizeWeights(capacity);
        if status != Ok { return; }
      }
      status := ResizeEdges(capacity);
      if status != Ok { return; }
      if !growing { status := ResizeWeights(capacity); }
    }

    // --- Traversal scratch ---------------------------------------------------

    /** Sizes the scratch for the vertex capacity; nothing is asked of the allocator once
        it is large enough. */
    method EnsureScratch() returns (status: Status)
      requires Accounts(ledger, held, Recorded())
      modifies this`ledger, this`calls, this`refusals, this`held, this`workCapacity, this`visitedWords
      ensures Accounts(ledger, held, Recorded()) && status in {Ok, NoMemory}
      ensures workCapacity >= old(workCapacity) && visitedWords >= old(visitedWords)
      ensures status == Ok ==> workCapacity >= vertexCapacity && visitedWords >= Words(vertexCapacity)
      ensures old(workCapacity >= vertexCapacity && visitedWords >= Words(vertexCapacity)) ==>
                status == Ok && calls == old(calls) && ledger == old(ledger)
      ensures refusals == old(refusals) + if status == NoMemory then 1 else 0
      ensures workCapacity != old(workCapacity) ==> workCapacity == vertexCapacity
      ensures visitedWords != old(visitedWords) ==> visitedWords == Words(vertexCapacity)
    {
      hide Accounts;
      var capacity := vertexCapacity;
      if capacity == 0 { return Ok; }
      var words := Words(capacity);
      if workCapacity >= capacity && visitedWords >= words { return Ok; }
      if workCapacity < capacity {
        ghost var sizes := Recorded();
        status := ResizeBlock(WorkBlock, workCapacity * WORK_BYTES, capacity * WORK_BYTES);
        if status != Ok { return; }
        workCapacity := capacity;
        assert Recorded() == sizes.Set(WorkBlock, capacity * WORK_BYTES);
      }
      if visitedWords < words {
        ghost var sizes := Recorded();
        status := ResizeBlock(VisitedBlock, visitedWords * WORD_BYTES, words * WORD_BYTES);
        if status != Ok { return; }
        visitedWords := words;
        assert Recorded() == sizes.Set(VisitedBlock, words * WORD_BYTES);
      }
      status := Ok;
    }

    method ReleaseBlock(kind: Kind, bytes: nat)
      requires Accounts(ledger, held, Recorded()) && bytes == Recorded().Of(kind)
      modifies this`ledger, this`calls, this`held
      ensures Accounts(ledger, held, Recorded().Set(kind, 0))
    {
      ghost var sizes := Recorded();
      assert Granted(ledger, held, kind, sizes.Of(kind));
      hide Accounts;
      DropKind(ledger, held, sizes, kind);
      if kind in held { Free(held[kind], bytes); }
      held := held - {kind};
    }

    method FreeScratch()
      requires Accounts(ledger, held, Recorded())
      modifies this`ledger, this`calls, this`held, this`workCapacity, this`visitedWords
      ensures Accounts(ledger, held, Recorded()) && workCapacity == 0 && visitedWords == 0
    {
      hide Accounts;
      ghost var sizes := Recorded();
      ReleaseBlock(WorkBlock, workCapacity * WORK_BYTES);
      workCapacity := 0;
      assert Recorded() == sizes.Set(WorkBlock, 0);
      sizes := Recorded();
      ReleaseBlock(VisitedBlock, visitedWords * WORD_BYTES);
      visitedWords := 0;
      assert Recorded() == sizes.Set(VisitedBlock, 0);
    }

    // --- What the graph asks for ---------------------------------------------

    /** Reserves the configured capacities, and a fixed graph's scratch with them; on
        refusal everything is given back. */
    method Init() returns (status: Status)
      requires Accounts(ledger, held, Recorded()) && Recorded() == NoSizes && Capped()
      modifies this
      ensures status == Ok ==> Valid() && vertexCapacity == initialVertices && edgeCapacity == initialEdges
      ensures status != Ok ==> ledger == map[] && Recorded() == NoSizes
      ensures status in {Ok, NoMemory}
      ensures refusals == old(refusals) + if status == NoMemory then 1 else 0
    {
      hide Accounts;
      status := SetVertexCapacity(initialVertices, 0);
      if status == Ok { status := SetEdgeCapacity(initialEdges, 0); }
      if status == Ok && !growable { status := EnsureScratch(); }
      if status != Ok { Destroy(); }
    }

    /** Returns every block with its exact size; nothing stays outstanding. */
    method Destroy()
      requires Accounts(ledger, held, Recorded())
      modifies this
      ensures ledger == map[] && Recorded() == NoSizes && refusals == old(refusals)
    {
      hide Accounts;
      ghost var sizes := Recorded();
      ReleaseBlock(VertexBlock, vertexCapacity * VERTEX_BYTES);
      vertexCapacity := 0;
      assert Recorded() == sizes.Set(VertexBlock, 0);
      sizes := Recorded();
      ReleaseBlock(EdgeBlock, edgeCapacity * EDGE_BYTES);
      edgeCapacity := 0;
      assert Recorded() == sizes.Set(EdgeBlock, 0);
      sizes := Recorded();
      ReleaseBlock(WeightBlock, weightCapacity * WEIGHT_BYTES);
      weightCapacity := 0;
      assert Recorded() == sizes.Set(WeightBlock, 0);
      FreeScratch();
      NothingHeld(ledger, held, Recorded());
    }

    /** What growth and shrinkage leave alone, whatever is refused. */
    twostate predicate Steady()
      reads this
    {
      && vertexCapacity >= old(vertexCapacity) && edgeCapacity >= old(edgeCapacity)
      && (!growable ==> calls == old(calls) && ledger == old(ledger))
    }

    method GrowVertices(watermark: nat) returns (status: Status)
      requires Valid() && watermark <= vertexCapacity
      modifies this
      ensures Valid() && Steady()
      ensures status == Ok ==> vertexCapacity > old(vertexCapacity)
      ensures status != Ok ==> vertexCapacity == old(vertexCapacity)
      ensures edgeCapacity == old(edgeCapacity)
      ensures status in {Ok, Full, NoMemory}
      ensures refusals == old(refusals) + if status == NoMemory then 1 else 0
      ensures status == Full <==> !growable || AtCeiling(old(vertexCapacity), maxVertices)
      ensures status == Ok ==> vertexCapacity == Clamp(NextCapacity(old(vertexCapacity)), maxVertices)
    {
      hide Accounts;
      if !growable { return Full; }
      var next := Clamp(NextCapacity(vertexCapacity), maxVertices);
      if next <= vertexCapacity { return Full; }
      status := SetVertexCapacity(next, watermark);
    }

    method GrowEdges(watermark: nat) returns (status: Status)
      requires Valid() && watermark <= edgeCapacity
      modifies this
      ensures Valid() && Steady()
      ensures status == Ok ==> edgeCapacity > old(edgeCapacity)
      ensures status != Ok ==> edgeCapacity == old(edgeCapacity)
      ensures vertexCapacity == old(vertexCapacity)
      ensures status in {Ok, Full, NoMemory}
      ensures refusals == old(refusals) + if status == NoMemory then 1 else 0
      ensures status == Full <==> !growable || AtCeiling(old(edgeCapacity), maxEdges)
      ensures status == Ok ==> edgeCapacity == Clamp(NextCapacity(old(edgeCapacity)), maxEdges)
    {
      hide Accounts;
      if !growable { return Full; }
      var next := Clamp(NextCapacity(edgeCapacity), maxEdges);
      if next <= edgeCapacity { return Full; }
      status := SetEdgeCapacity(next, watermark);
    }

    method ReserveVertices(capacity: nat, watermark: nat) returns (status: Status)
      requires Valid() && watermark <= vertexCapacity
      modifies this
      ensures Valid() && Steady() && (status == Ok ==> vertexCapacity >= capacity)
      ensures capacity <= old(vertexCapacity) ==> status == Ok && calls == old(calls)
      ensures status == Full <==> capacity > old(vertexCapacity) && (!growable || (maxVertices != 0 && capacity > maxVertices))
      ensures status == Overflow <==> status != Full && capacity > old(vertexCapacity) && capacity > MAX_CAPACITY
      ensures status in {Ok, Full, Overflow, NoMemory} && refusals == old(refusals) + if status == NoMemory then 1 else 0
      ensures status != Ok ==> vertexCapacity == old(vertexCapacity)
      ensures edgeCapacity == old(edgeCapacity)
      ensures status == Ok ==> vertexCapacity == if capacity <= old(vertexCapacity) then old(vertexCapacity) else capacity
    {
      hide Accounts;
      if capacity <= vertexCapacity { return Ok; }
      if !growable { return Full; }
      if maxVertices != 0 && capacity > maxVertices { return Full; }
      if capacity > MAX_CAPACITY { return Overflow; }
      status := SetVertexCapacity(capacity, watermark);
    }

    method ReserveEdges(capacity: nat, watermark: nat) returns (status: Status)
      requires Valid() && watermark <= edgeCapacity
      modifies this
      ensures Valid() && Steady() && (status == Ok ==> edgeCapacity >= capacity)
      ensures capacity <= old(edgeCapacity) ==> status == Ok && calls == old(calls)
      ensures status == Full <==> capacity > old(edgeCapacity) && (!growable || (maxEdges != 0 && capacity > maxEdges))
      ensures status == Overflow <==> status != Full && capacity > old(edgeCapacity) && capacity > MAX_CAPACITY
      ensures status in {Ok, Full, Overflow, NoMemory} && refusals == old(refusals) + if status == NoMemory then 1 else 0
      ensures status != Ok ==> edgeCapacity == old(edgeCapacity)
      ensures vertexCapacity == old(vertexCapacity)
      ensures status == Ok ==> edgeCapacity == if capacity <= old(edgeCapacity) then old(edgeCapacity) else capacity
    {
      hide Accounts;
      if capacity <= edgeCapacity { return Ok; }
      if !growable { return Full; }
      if maxEdges != 0 && capacity > maxEdges { return Full; }
      if capacity > MAX_CAPACITY { return Overflow; }
      status := SetEdgeCapacity(capacity, watermark);
    }

    /** Sizes the scratch before a walk; a fixed graph already has it. */
    method ReserveTraversal() returns (status: Status)
      requires Valid()
      modifies this
      ensures Valid() && Steady() && vertexCapacity == old(vertexCapacity) && edgeCapacity == old(edgeCapacity)
      ensures status == Ok ==> workCapacity >= vertexCapacity && 64 * visitedWords >= vertexCapacity
      ensures !growable ==> status == Ok
      ensures status in {Ok, NoMemory}
      ensures refusals == old(refusals) + if status == NoMemory then 1 else 0
      ensures workCapacity != old(workCapacity) ==> workCapacity == vertexCapacity
      ensures visitedWords != old(visitedWords) ==> visitedWords == Words(vertexCapacity)
    {
      hide Accounts;
      status := EnsureScratch();
    }

    /** Gives back what lies above the high-water marks, and the scratch. */
    method ShrinkToFit(vertexMark: nat, edgeMark: nat) returns (status: Status)
      requires Valid() && vertexMark <= vertexCapacity && edgeMark <= edgeCapacity
      modifies this
      ensures Valid() && vertexMark <= vertexCapacity && edgeMark <= edgeCapacity
      ensures !growable ==> status == Ok && calls == old(calls)
      ensures growable && status == Ok ==> vertexCapacity == vertexMark && edgeCapacity == edgeMark
      ensures status == Ok <==> refusals == old(refusals)
      ensures growable ==> workCapacity == 0 && visitedWords == 0
    {
      hide Accounts;
      if !growable { return Ok; }
      status := SetVertexCapacity(vertexMark, vertexMark);
      var edgeStatus := SetEdgeCapacity(edgeMark, edgeMark);
      if status == Ok { status := edgeStatus; }
      FreeScratch();
    }

    /** Back to the configured capacities, for a graph that has dropped everything. */
    method ResetCapacity() returns (status: Status)
      requires Valid()
      modifies this
      ensures Valid()
      ensures !growable ==> status == Ok && calls == old(calls)
      ensures status == Ok ==> vertexCapacity == initialVertices && edgeCapacity == initialEdges
      ensures status == Ok <==> refusals == old(refusals)
    {
      hide Accounts;
      status := SetVertexCapacity(initialVertices, 0);
      var edgeStatus := SetEdgeCapacity(initialEdges, 0);
      if status == Ok { status := edgeStatus; }
    }
  }
}
