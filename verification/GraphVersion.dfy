/** The version that iterators check, and the phases that hold it still. */
module GraphVersion {
  import opened GraphPools
  import opened GraphStructure

  /** The version, whether an update phase is open, and whether it has changed anything. */
  datatype Clock = Clock(version: nat, open: bool, dirty: bool)

  function Touched(c: Clock): Clock
  {
    if c.open then c.(dirty := true) else c.(version := c.version + 1)
  }

  function Begun(c: Clock): Clock
  {
    if c.open then c else Clock(c.version, true, false)
  }

  function Committed(c: Clock): Clock
  {
    if !c.open then c
    else Clock(if c.dirty then c.version + 1 else c.version, false, false)
  }

  /** A batch opens a phase of its own unless one is open. */
  function BatchBegun(c: Clock): Clock
  {
    c.(open := true)
  }

  function BatchEnded(c: Clock, outer: bool): Clock
  {
    if outer then c else Committed(c)
  }

  function TouchedTimes(c: Clock, n: nat): (r: Clock)
    ensures c.open ==> r == c.(dirty := c.dirty || n > 0)
  {
    if n == 0 then c else Touched(TouchedTimes(c, n - 1))
  }

  /** A batch of n mutations. */
  function Batched(c: Clock, n: nat): Clock
  {
    BatchEnded(TouchedTimes(BatchBegun(c), n), c.open)
  }

  // --- Whole programs --------------------------------------------------------

  datatype Act = Mutation | Batch(added: nat)

  /** What a program does: acts outside any phase, and phases of acts. */
  datatype Part = Outside(act: Act) | Phase(acts: seq<Act>)

  function AfterAct(c: Clock, a: Act): Clock
  {
    if a.Mutation? then Touched(c) else Batched(c, a.added)
  }

  function AfterActs(c: Clock, acts: seq<Act>): Clock
    decreases |acts|
  {
    if acts == [] then c else AfterActs(AfterAct(c, acts[0]), acts[1..])
  }

  function AfterPart(c: Clock, p: Part): Clock
  {
    if p.Outside? then AfterAct(c, p.act) else Committed(AfterActs(Begun(c), p.acts))
  }

  function AfterParts(c: Clock, parts: seq<Part>): Clock
    decreases |parts|
  {
    if parts == [] then c else AfterParts(AfterPart(c, parts[0]), parts[1..])
  }

  predicate Mutates(a: Act)
  {
    a.Mutation? || a.added > 0
  }

  /** Whether a part changes the topology at all. */
  predicate Changes(p: Part)
  {
    if p.Outside? then Mutates(p.act) else exists k :: 0 <= k < |p.acts| && Mutates(p.acts[k])
  }

  function Changing(parts: seq<Part>): nat
  {
    if parts == [] then 0 else (if Changes(parts[0]) then 1 else 0) + Changing(parts[1..])
  }

  /** Inside a phase the version stands, whatever is batched there. */
  lemma {:induction false} PhaseHolds(c: Clock, acts: seq<Act>)
    requires c.open
    ensures AfterActs(c, acts).open && AfterActs(c, acts).version == c.version
    ensures AfterActs(c, acts).dirty <==> c.dirty || exists k :: 0 <= k < |acts| && Mutates(acts[k])
    decreases |acts|
  {
    if acts != [] {
      var rest := acts[1..];
      PhaseHolds(AfterAct(c, acts[0]), rest);
      assert (exists k :: 0 <= k < |acts| && Mutates(acts[k]))
             <==> Mutates(acts[0]) || exists k :: 0 <= k < |rest| && Mutates(rest[k]) by {
        if k :| 0 <= k < |acts| && Mutates(acts[k]) && k > 0 { assert rest[k - 1] == acts[k]; }
        if k :| 0 <= k < |rest| && Mutates(rest[k]) { assert acts[k + 1] == rest[k]; }
      }
    }
  }

  /** The version steps once for each mutation outside a phase and once for each batch or
      phase that changes anything, however much it changes. */
  lemma {:induction false} VersionCounts(c: Clock, parts: seq<Part>)
    requires !c.open && !c.dirty
    ensures AfterParts(c, parts) == c.(version := c.version + Changing(parts))
    decreases |parts|
  {
    if parts != [] {
      if parts[0].Phase? { PhaseHolds(Begun(c), parts[0].acts); }
      VersionCounts(AfterPart(c, parts[0]), parts[1..]);
    }
  }

  // --- What stood at each version --------------------------------------------

  /** The pools and what their links encode, at some moment. */
  datatype Snapshot = Snapshot(pools: Pools, shape: Shape)

  /** Nothing is dirty outside a phase, and versions only grow. */
  ghost predicate Timely(c: Clock, past: map<nat, Snapshot>)
  {
    && (!c.open ==> !c.dirty)
    && c.version in past && forall v :: v in past ==> v <= c.version
  }

  /** Unless a phase has changed something, the topology is the one its version names. */
  ghost predicate Kept(c: Clock, past: map<nat, Snapshot>, now: Snapshot)
  {
    Timely(c, past) && (c.dirty || past[c.version] == now)
  }

  ghost predicate Extends(was: map<nat, Snapshot>, now: map<nat, Snapshot>)
  {
    forall v :: v in was ==> v in now && now[v] == was[v]
  }

  /** A new version is recorded with the topology it names. */
  ghost function Noted(c: Clock, past: map<nat, Snapshot>, now: Snapshot): map<nat, Snapshot>
  {
    if c.version in past then past else past[c.version := now]
  }
}
