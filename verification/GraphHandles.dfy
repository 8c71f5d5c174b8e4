/** Handles and the generations that make them go stale.

    Both pools work alike: a slot's generation is 1 when it is first taken and is bumped
    each time the slot is retired, so it records the number of retirements, modulo the
    2^32 - 1 generations there are. */
module GraphHandles {
  import opened Bits
  import opened GraphPools

  datatype Handle = Handle(index: nat, generation: nat)

  /** Generations there are: 0 is no handle. */
  const CYCLE: nat := UINT32_MAX

  function GenerationAfter(retired: nat): (g: nat)
    ensures 0 < g <= UINT32_MAX
  {
    1 + retired % CYCLE
  }

  lemma BumpStep(retired: nat)
    ensures Bump(GenerationAfter(retired)) == GenerationAfter(retired + 1)
  {
  }

  /** A handle given out: its slot, and how often the slot had been retired by then. */
  datatype Issue = Issue(slot: nat, retired: nat)

  function HandleOf(x: Issue): Handle
  {
    Handle(x.slot, GenerationAfter(x.retired))
  }

  /** How often each slot has been retired, and every handle given out, in order. */
  datatype Past = Past(retired: seq<nat>, issued: seq<Issue>)

  const NoPast := Past([], [])

  ghost predicate GenerationsOk(gens: seq<nat>, past: Past)
  {
    && |past.retired| == |gens|
    && forall i :: 0 <= i < |gens| ==> gens[i] == GenerationAfter(past.retired[i])
  }

  /** A handle's slot has been retired since, or still holds what it was given out for. */
  ghost predicate IssueOk(x: Issue, active: set<nat>, past: Past)
  {
    && x.slot < |past.retired| && x.retired <= past.retired[x.slot]
    && (x.retired == past.retired[x.slot] ==> x.slot in active)
  }

  ghost predicate Ascending(issued: seq<Issue>)
  {
    forall j, k :: 0 <= j < k < |issued| && issued[j].slot == issued[k].slot ==> issued[j].retired < issued[k].retired
  }

  /** What the generations and the live slots of a pool owe to its past. */
  ghost predicate PastOk(gens: seq<nat>, active: set<nat>, past: Past)
  {
    && GenerationsOk(gens, past)
    && (forall j :: 0 <= j < |past.issued| ==> IssueOk(past.issued[j], active, past))
    && Ascending(past.issued)
    && (forall i :: i in active ==> i < |gens| && Issue(i, past.retired[i]) in past.issued)
  }

  predicate Live(gens: seq<nat>, active: set<nat>, h: Handle)
  {
    h.index in active && h.index < |gens| && gens[h.index] == h.generation
  }

  // --- Steps -----------------------------------------------------------------

  /** Taking slot i, recycled or new, gives out a handle. */
  function Given(past: Past, i: nat): Past
    requires i <= |past.retired|
  {
    var retired := if i == |past.retired| then past.retired + [0] else past.retired;
    Past(retired, past.issued + [Issue(i, retired[i])])
  }

  lemma GivenOk(gens: seq<nat>, gens': seq<nat>, active: set<nat>, past: Past, i: nat)
    requires PastOk(gens, active, past) && i !in active && i <= |gens|
    requires gens' == if i == |gens| then gens + [1] else gens
    ensures i <= |past.retired| && PastOk(gens', active + {i}, Given(past, i))
    ensures HandleOf(Issue(i, Given(past, i).retired[i])) == Handle(i, gens'[i])
  {
    var past' := Given(past, i);
    var x := Issue(i, past'.retired[i]);
    assert past'.issued[|past.issued|] == x;
    forall j | 0 <= j < |past'.issued| ensures IssueOk(past'.issued[j], active + {i}, past') {
      if j < |past.issued| { assert IssueOk(past.issued[j], active, past); }
    }
    forall j | 0 <= j < |past.issued| && past.issued[j].slot == i ensures past.issued[j].retired < x.retired {
      assert IssueOk(past.issued[j], active, past);
    }
    forall k | k in active + {i} ensures k < |gens'| && Issue(k, past'.retired[k]) in past'.issued {
      if k != i { assert Issue(k, past.retired[k]) in past.issued; }
    }
  }

  /** Retiring the slots of a set. */
  function Retired(past: Past, gone: set<nat>): Past
  {
    past.(retired := seq(|past.retired|, i requires 0 <= i < |past.retired| =>
                           past.retired[i] + if i in gone then 1 else 0))
  }

  lemma RetiredOk(gens: seq<nat>, gens': seq<nat>, active: set<nat>, past: Past, gone: set<nat>)
    requires PastOk(gens, active, past) && gone <= active && |gens'| == |gens|
    requires forall i :: 0 <= i < |gens| ==> gens'[i] == if i in gone then Bump(gens[i]) else gens[i]
    ensures PastOk(gens', active - gone, Retired(past, gone))
  {
    var past' := Retired(past, gone);
    forall i | 0 <= i < |gens| ensures gens'[i] == GenerationAfter(past'.retired[i]) {
      BumpStep(past.retired[i]);
    }
    forall j | 0 <= j < |past.issued| ensures IssueOk(past.issued[j], active - gone, past') {
      assert IssueOk(past.issued[j], active, past);
    }
    forall k | k in active - gone ensures k < |gens'| && Issue(k, past'.retired[k]) in past'.issued {
      assert Issue(k, past.retired[k]) in past.issued;
    }
  }

  // --- What handles promise --------------------------------------------------

  lemma GenerationsMeet(a: nat, b: nat)
    requires a <= b
    ensures GenerationAfter(a) == GenerationAfter(b) <==> (b - a) % CYCLE == 0
  {
    var d := b - a;
    DivModUnique(b, CYCLE, b / CYCLE, b % CYCLE);
    if a % CYCLE == b % CYCLE {
      DivModUnique(d, CYCLE, b / CYCLE - a / CYCLE, 0);
    }
    if d % CYCLE == 0 {
      DivModUnique(b, CYCLE, a / CYCLE + d / CYCLE, a % CYCLE);
    }
  }

  /** Two adds return the same handle exactly if they took the same slot and it was
      retired a multiple of 2^32 - 1 times in between. */
  lemma SameHandle(gens: seq<nat>, active: set<nat>, past: Past, j: nat, k: nat)
    requires PastOk(gens, active, past) && j < k < |past.issued|
    ensures var x, y := past.issued[j], past.issued[k];
            HandleOf(x) == HandleOf(y) <==> x.slot == y.slot && (y.retired - x.retired) % CYCLE == 0
  {
    var x, y := past.issued[j], past.issued[k];
    if x.slot == y.slot { GenerationsMeet(x.retired, y.retired); }
  }

  /** Until some slot has been retired 2^32 - 1 times, no two adds return the same handle. */
  lemma HandlesDistinct(gens: seq<nat>, active: set<nat>, past: Past)
    requires PastOk(gens, active, past)
    requires forall i :: 0 <= i < |past.retired| ==> past.retired[i] < CYCLE
    ensures forall j, k :: 0 <= j < k < |past.issued| ==> HandleOf(past.issued[j]) != HandleOf(past.issued[k])
  {
    forall j, k | 0 <= j < k < |past.issued| ensures HandleOf(past.issued[j]) != HandleOf(past.issued[k]) {
      SameHandle(gens, active, past, j, k);
      assert IssueOk(past.issued[k], active, past) && IssueOk(past.issued[j], active, past);
    }
  }

  /** A handle is accepted exactly if its slot is live and has been retired a multiple of
      2^32 - 1 times since the handle was given out. So it is accepted until its slot is
      retired, and from then on rejected until the count comes round. */
  lemma AcceptedExactly(gens: seq<nat>, active: set<nat>, past: Past, j: nat)
    requires PastOk(gens, active, past) && j < |past.issued|
    ensures var x := past.issued[j];
            x.slot < |past.retired| && x.retired <= past.retired[x.slot]
    ensures var x := past.issued[j];
            var since := past.retired[x.slot] - x.retired;
            && (Live(gens, active, HandleOf(x)) <==> x.slot in active && since % CYCLE == 0)
            && (since == 0 ==> Live(gens, active, HandleOf(x)))
            && (0 < since < CYCLE ==> !Live(gens, active, HandleOf(x)))
  {
    var x := past.issued[j];
    assert IssueOk(x, active, past);
    GenerationsMeet(x.retired, past.retired[x.slot]);
  }

  /** Every live handle was given out, and none has generation 0. */
  lemma LiveWasIssued(gens: seq<nat>, active: set<nat>, past: Past, h: Handle)
    requires PastOk(gens, active, past) && Live(gens, active, h)
    ensures h.generation != 0
    ensures exists j :: 0 <= j < |past.issued| && HandleOf(past.issued[j]) == h
  {
    var x := Issue(h.index, past.retired[h.index]);
    assert x in past.issued;
    var j :| 0 <= j < |past.issued| && past.issued[j] == x;
    assert HandleOf(past.issued[j]) == h;
  }
}
