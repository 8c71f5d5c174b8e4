/** What the ring guarantees its callers, over every run. */
module QueueTheorems {
  import opened QueueMachine
  import opened QueueInvariant
  import opened Bits

  // --- Exclusive access ------------------------------------------------------

  /** The thread holds the claim on position p, as producer or as consumer; only then
      does it read or write the data of the cell serving p. */
  predicate Holds(pc: Pc, p: nat)
  {
    Producing(pc, p) || Consuming(pc, p)
  }

  lemma HolderRecorded(s: State, t: nat, p: nat)
    requires Inv(s) && t < |s.machine.threads| && Holds(s.machine.threads[t].pc, p)
    ensures Producing(s.machine.threads[t].pc, p) ==> p in s.history.producers && s.history.producers[p] == t
    ensures Consuming(s.machine.threads[t].pc, p) ==> p in s.history.consumers && s.history.consumers[p] == t
  {
    assert Local(s.machine, s.history, t);
  }

  /** At most one thread holds a cell, whatever position it claimed it through, so
      no two data accesses to one cell can race. */
  lemma ExclusiveCells(cap: nat, threads: nat, events: seq<Event>, t: nat, u: nat, p: nat, q: nat)
    requires cap >= 2 && Scheduled(events, threads) && t < threads && u < threads
    requires var m := Run(cap, threads, events).machine;
             Holds(m.threads[t].pc, p) && Holds(m.threads[u].pc, q) && p % cap == q % cap
    ensures t == u && p == q
  {
    RunInv(cap, threads, events);
    var s := Run(cap, threads, events);
    HolderRecorded(s, t, p);
    HolderRecorded(s, u, q);
    ClaimsDisjoint(s, p, q);
    ClaimsDisjoint(s, q, p);
  }

  /** Sequence x marks cell i as free for p (x == p) or filled by p (x == p + 1). */
  predicate Marks(cap: nat, i: nat, x: nat, p: nat)
    requires cap > 0
  {
    p % cap == i && (x == p || x == p + 1)
  }

  ghost predicate Marked(m: Machine, i: nat)
    requires m.cap > 0 && i < |m.cells|
  {
    exists p :: Marks(m.cap, i, m.cells[i].sequence, p)
  }

  /** Counters stay within a capacity of each other, and every cell's sequence is p
      (free for p) or p + 1 (filled by p) for a position p that the cell serves. */
  lemma RingShape(cap: nat, threads: nat, events: seq<Event>)
    requires cap >= 2 && Scheduled(events, threads)
    ensures var m := Run(cap, threads, events).machine;
            && m.tail <= m.head <= m.tail + cap
            && m.cap == cap && |m.cells| == cap
            && forall i :: 0 <= i < cap ==> Marked(m, i)
  {
    RunInv(cap, threads, events);
    var s := Run(cap, threads, events);
    var m, h := s.machine, s.history;
    forall i | 0 <= i < cap ensures Marked(m, i) {
      assert FreeCell(m, h, i) || FilledCell(m, h, i);
      var x := m.cells[i].sequence;
      assert Marks(cap, i, x, if FreeCell(m, h, i) then x else x - 1);
    }
  }

  // --- First in, first out ---------------------------------------------------

  /** Every value handed to a consumer for position p is the value the producer of
      position p was given; once no consumer is between winning the tail and reading
      its cell, the dequeued sequence is a prefix of the enqueued one. */
  lemma Fifo(cap: nat, threads: nat, events: seq<Event>)
    requires cap >= 2 && Scheduled(events, threads)
    ensures var s := Run(cap, threads, events);
            var m, h := s.machine, s.history;
            && |h.enqueued| == m.head && m.tail <= m.head
            && (forall p :: p in h.got ==> p < m.tail && h.got[p] == h.enqueued[p])
            && ((forall t :: 0 <= t < threads ==> !m.threads[t].pc.DeqLoadData?) ==>
                  && (forall p :: 0 <= p < m.tail ==> p in h.got)
                  && seq(m.tail, p requires 0 <= p < m.tail && p in h.got => h.got[p]) == h.enqueued[..m.tail])
  {
    RunInv(cap, threads, events);
  }

  /** Nothing is lost: a position that was enqueued and not yet claimed by a consumer
      is either still being written by its producer or sits in its cell. */
  lemma NothingLost(cap: nat, threads: nat, events: seq<Event>, p: nat)
    requires cap >= 2 && Scheduled(events, threads)
    requires var m := Run(cap, threads, events).machine; m.tail <= p < m.head
    ensures var s := Run(cap, threads, events);
            var m, h := s.machine, s.history;
            || (exists t :: 0 <= t < threads && Producing(m.threads[t].pc, p))
            || (|m.cells| == cap && p < |h.enqueued| && m.cells[p % cap] == Cell(p + 1, h.enqueued[p]))
  {
    RunInv(cap, threads, events);
    var s := Run(cap, threads, events);
    var m, h := s.machine, s.history;
    if p in h.producers {
      assert ProducerAt(m, h, p);
    } else {
      LiveCell(s, p);
    }
  }

  /** The cell of a position between the counters names that position. */
  lemma LiveCell(s: State, p: nat)
    requires Inv(s) && s.machine.tail <= p < s.machine.head
    ensures p in s.history.producers || s.machine.cells[p % s.machine.cap] == Cell(p + 1, s.history.enqueued[p])
    ensures SequenceAt(s.machine, p) in {p, p + 1}
  {
    var m, h := s.machine, s.history;
    var i := p % m.cap;
    var x := m.cells[i].sequence;
    assert FreeCell(m, h, i) || FilledCell(m, h, i);
    if FreeCell(m, h, i) { SameResidue(x, p, m.cap); } else { SameResidue(x - 1, p, m.cap); }
  }

  // --- Bulk calls ------------------------------------------------------------

  /** The values at the positions tagged with one call, in position order. */
  function Select(values: seq<Pointer>, tags: seq<Tag>, tag: Tag): seq<Pointer>
    requires |tags| <= |values|
  {
    if tags == [] then []
    else
      var n := |tags| - 1;
      Select(values, tags[..n], tag) + (if tags[n] == tag then [values[n]] else [])
  }

  lemma {:induction false} SelectGrow(values: seq<Pointer>, v: Pointer, tags: seq<Tag>, tag: Tag)
    requires |tags| <= |values|
    ensures Select(values + [v], tags, tag) == Select(values, tags, tag)
  {
    if tags != [] {
      SelectGrow(values, v, tags[..|tags| - 1], tag);
    }
  }

  lemma {:induction false} SelectAbsent(values: seq<Pointer>, tags: seq<Tag>, tag: Tag)
    requires |tags| <= |values| && tag !in tags
    ensures Select(values, tags, tag) == []
  {
    if tags != [] {
      SelectAbsent(values, tags[..|tags| - 1], tag);
    }
  }

  predicate Claimed(pc: Pc) { pc.EnqStoreData? || pc.EnqPublish? || pc.DeqLoadData? || pc.DeqRelease? }

  /** A thread's current (or last) call has put in and taken out just these values. */
  ghost predicate CallMatches(th: Thread, enqueued: seq<Pointer>, put: seq<Pointer>, taken: seq<Pointer>)
  {
    match th.call
    case Enqueue(items, done) =>
      var claimed := if Claimed(th.pc) then done + 1 else done;
      claimed <= |items| && put == items[..claimed] && taken == []
    case Dequeue(want, out) =>
      && |out| <= want && put == []
      && (if Claimed(th.pc) then th.pc.pos < |enqueued| && taken == out + [enqueued[th.pc.pos]] else taken == out)
    case _ => put == [] && taken == []
  }

  ghost predicate CallAccounted(h: History, t: nat, th: Thread)
    requires |h.enqueuers| == |h.enqueued| && |h.dequeuers| <= |h.enqueued|
  {
    var tag := Tag(t, th.calls);
    CallMatches(th, h.enqueued, Select(h.enqueued, h.enqueuers, tag), Select(h.enqueued, h.dequeuers, tag))
  }

  /** Tags name calls that have begun. */
  ghost predicate TagsBegun(h: History, threads: seq<Thread>, tags: seq<Tag>)
  {
    forall p :: 0 <= p < |tags| ==> tags[p].thread < |threads| && tags[p].call <= threads[tags[p].thread].calls
  }

  ghost predicate Accounted(s: State)
    requires Inv(s)
  {
    && TagsBegun(s.history, s.machine.threads, s.history.enqueuers)
    && TagsBegun(s.history, s.machine.threads, s.history.dequeuers)
    && forall t :: 0 <= t < |s.machine.threads| ==> CallAccounted(s.history, t, s.machine.threads[t])
  }

  lemma BeginAccounted(s: State, t: nat, choice: Choice)
    requires Inv(s) && Accounted(s) && t < |s.machine.threads| && s.machine.threads[t].pc.Idle?
    requires Inv(Stepped(s, t, choice))
    ensures Accounted(Stepped(s, t, choice))
  {
    hide Cells, Locals, Claims, Handed, Classify, AfterEnqueue, AfterDequeue, ThreadShaped, Select;
    var h, th := s.history, s.machine.threads[t];
    var s' := Stepped(s, t, choice);
    assert CallAccounted(h, t, th);
    var tag := Tag(t, th.calls + 1);
    assert tag !in h.enqueuers && tag !in h.dequeuers;
    SelectAbsent(h.enqueued, h.enqueuers, tag);
    SelectAbsent(h.enqueued, h.dequeuers, tag);
    forall u | 0 <= u < |s.machine.threads| ensures CallAccounted(s'.history, u, s'.machine.threads[u]) {
      assert CallAccounted(h, u, s.machine.threads[u]);
    }
  }

  /** An enqueue by another call leaves this one's account as it was. */
  lemma OtherEnqueue(h: History, h': History, v: Pointer, tag: Tag, u: nat, th: Thread)
    requires |h.enqueuers| == |h.enqueued| && |h.dequeuers| <= |h.enqueued| && CallAccounted(h, u, th)
    requires h'.enqueued == h.enqueued + [v] && h'.enqueuers == h.enqueuers + [tag] && h'.dequeuers == h.dequeuers
    requires tag != Tag(u, th.calls)
    ensures CallAccounted(h', u, th)
  {
    var own := Tag(u, th.calls);
    SelectGrow(h.enqueued, v, h.enqueuers, own);
    SelectGrow(h.enqueued, v, h.dequeuers, own);
    assert h'.enqueuers[..|h.enqueuers|] == h.enqueuers;
  }

  /** The call that won the head has put in one more of its items. */
  lemma OwnEnqueue(h: History, h': History, t: nat, th: Thread, pos: nat)
    requires |h.enqueuers| == |h.enqueued| && |h.dequeuers| <= |h.enqueued| && CallAccounted(h, t, th)
    requires th.pc.EnqCas? && th.call.Enqueue? && th.call.done < |th.call.items|
    requires h'.enqueued == h.enqueued + [th.call.items[th.call.done]] && h'.dequeuers == h.dequeuers
    requires h'.enqueuers == h.enqueuers + [Tag(t, th.calls)]
    ensures CallAccounted(h', t, th.(pc := EnqStoreData(pos)))
  {
    var own, v := Tag(t, th.calls), th.call.items[th.call.done];
    SelectGrow(h.enqueued, v, h.enqueuers, own);
    SelectGrow(h.enqueued, v, h.dequeuers, own);
    assert h'.enqueuers[..|h.enqueuers|] == h.enqueuers;
  }

  lemma EnqueueWinAccounted(s: State, t: nat, choice: Choice)
    requires Inv(s) && Accounted(s) && t < |s.machine.threads|
    requires s.machine.threads[t].pc.EnqCas? && Wins(s.machine, t, choice)
    requires Inv(Stepped(s, t, choice))
    ensures Accounted(Stepped(s, t, choice))
  {
    hide Cells, Locals, Claims, Handed, Classify, Begin, AfterEnqueue, AfterDequeue, Select, CallMatches;
    var h, th := s.history, s.machine.threads[t];
    var s' := Stepped(s, t, choice);
    assert ThreadShaped(th);
    forall u | 0 <= u < |s.machine.threads| ensures CallAccounted(s'.history, u, s'.machine.threads[u]) {
      assert CallAccounted(h, u, s.machine.threads[u]);
      if u == t {
        OwnEnqueue(h, s'.history, t, th, th.pc.pos);
      } else {
        OtherEnqueue(h, s'.history, th.call.items[th.call.done], Tag(t, th.calls), u, s.machine.threads[u]);
      }
    }
  }

  /** A dequeue by another call leaves this one's account as it was. */
  lemma OtherDequeue(h: History, h': History, tag: Tag, u: nat, th: Thread)
    requires |h.enqueuers| == |h.enqueued| && |h.dequeuers| < |h.enqueued| && CallAccounted(h, u, th)
    requires h'.enqueued == h.enqueued && h'.enqueuers == h.enqueuers && h'.dequeuers == h.dequeuers + [tag]
    requires tag != Tag(u, th.calls)
    ensures CallAccounted(h', u, th)
  {
    assert h'.dequeuers[..|h.dequeuers|] == h.dequeuers;
  }

  /** The call that won the tail has the value at that position to its account. */
  lemma OwnDequeue(h: History, h': History, t: nat, th: Thread)
    requires |h.enqueuers| == |h.enqueued| && |h.dequeuers| < |h.enqueued| && CallAccounted(h, t, th)
    requires th.pc.DeqCas? && th.call.Dequeue?
    requires h'.enqueued == h.enqueued && h'.enqueuers == h.enqueuers && h'.dequeuers == h.dequeuers + [Tag(t, th.calls)]
    ensures CallAccounted(h', t, th.(pc := DeqLoadData(|h.dequeuers|)))
  {
    assert h'.dequeuers[..|h.dequeuers|] == h.dequeuers;
  }

  lemma DequeueWinAccounted(s: State, t: nat, choice: Choice)
    requires Inv(s) && Accounted(s) && t < |s.machine.threads|
    requires s.machine.threads[t].pc.DeqCas? && Wins(s.machine, t, choice)
    requires Inv(Stepped(s, t, choice))
    ensures Accounted(Stepped(s, t, choice))
  {
    hide Cells, Locals, Claims, Handed, Classify, Begin, AfterEnqueue, AfterDequeue, Select, CallMatches;
    var h, th := s.history, s.machine.threads[t];
    var s' := Stepped(s, t, choice);
    assert ThreadShaped(th);
    forall u | 0 <= u < |s.machine.threads| ensures CallAccounted(s'.history, u, s'.machine.threads[u]) {
      assert CallAccounted(h, u, s.machine.threads[u]);
      if u == t {
        OwnDequeue(h, s'.history, t, th);
      } else {
        OtherDequeue(h, s'.history, Tag(t, th.calls), u, s.machine.threads[u]);
      }
    }
  }

  /** The other steps leave both orders alone. */
  lemma QuietAccounted(s: State, t: nat, choice: Choice)
    requires Inv(s) && Accounted(s) && t < |s.machine.threads|
    requires !s.machine.threads[t].pc.Idle? && !Wins(s.machine, t, choice)
    requires Inv(Stepped(s, t, choice))
    ensures Accounted(Stepped(s, t, choice))
  {
    var h, th := s.history, s.machine.threads[t];
    var s' := Stepped(s, t, choice);
    assert Local(s.machine, h, t) && CallAccounted(h, t, th);
    var tag := Tag(t, th.calls);
    QuietHistory(s.machine, h, t, choice);
    QuietOwnCall(s.machine, h, t, choice,
                 Select(h.enqueued, h.enqueuers, tag), Select(h.enqueued, h.dequeuers, tag));
    forall u | 0 <= u < |s.machine.threads| ensures CallAccounted(s'.history, u, s'.machine.threads[u]) {
      assert CallAccounted(h, u, s.machine.threads[u]);
    }
  }

  lemma QuietHistory(m: Machine, h: History, t: nat, choice: Choice)
    requires Shaped(m) && t < |m.threads| && !m.threads[t].pc.Idle? && !Wins(m, t, choice)
    ensures var h' := Record(m, h, t, choice);
            h'.enqueued == h.enqueued && h'.enqueuers == h.enqueuers && h'.dequeuers == h.dequeuers
    ensures Step(m, t, choice).threads[t].calls == m.threads[t].calls
  {
  }

  lemma QuietOwnCall(m: Machine, h: History, t: nat, choice: Choice, put: seq<Pointer>, taken: seq<Pointer>)
    requires Shaped(m) && Counters(m, h) && t < |m.threads| && Local(m, h, t)
    requires CallMatches(m.threads[t], h.enqueued, put, taken)
    requires !m.threads[t].pc.Idle? && !Wins(m, t, choice)
    ensures CallMatches(Step(m, t, choice).threads[t], h.enqueued, put, taken)
  {
  }

  lemma {:induction false} RunAccounted(cap: nat, threads: nat, events: seq<Event>)
    requires cap >= 2 && Scheduled(events, threads)
    ensures Inv(Run(cap, threads, events)) && Accounted(Run(cap, threads, events))
  {
    RunInv(cap, threads, events);
    if events != [] {
      var n := |events| - 1;
      RunAccounted(cap, threads, events[..n]);
      var s, t, choice := Run(cap, threads, events[..n]), events[n].thread, events[n].choice;
      assert Run(cap, threads, events) == Stepped(s, t, choice);
      if s.machine.threads[t].pc.Idle? {
        BeginAccounted(s, t, choice);
      } else if !Wins(s.machine, t, choice) {
        QuietAccounted(s, t, choice);
      } else if s.machine.threads[t].pc.EnqCas? {
        EnqueueWinAccounted(s, t, choice);
      } else {
        DequeueWinAccounted(s, t, choice);
      }
    }
  }

  /** A finished bulk enqueue contributed exactly the first `done` items of its array,
      in order and nothing else; a finished bulk dequeue returned exactly the values of
      the positions it won, in queue order. */
  lemma BulkOrder(cap: nat, threads: nat, events: seq<Event>, t: nat)
    requires cap >= 2 && Scheduled(events, threads) && t < threads
    requires Run(cap, threads, events).machine.threads[t].pc.Idle?
    ensures var s := Run(cap, threads, events);
            var h, th := s.history, s.machine.threads[t];
            var tag := Tag(t, th.calls);
            && |h.enqueuers| == |h.enqueued| && |h.dequeuers| <= |h.enqueued|
            && (th.call.Enqueue? ==>
                  th.call.done <= |th.call.items| &&
                  Select(h.enqueued, h.enqueuers, tag) == th.call.items[..th.call.done])
            && (th.call.Dequeue? ==>
                  |th.call.out| <= th.call.want && Select(h.enqueued, h.dequeuers, tag) == th.call.out)
  {
    RunAccounted(cap, threads, events);
    var s := Run(cap, threads, events);
    assert CallAccounted(s.history, t, s.machine.threads[t]);
  }

  // --- Why an operation fails ------------------------------------------------

  /** Position q was claimed by a producer and has not been released by a consumer. */
  ghost predicate Occupied(s: State, q: nat)
  {
    q < s.machine.head && (q >= s.machine.tail || q in s.history.consumers)
  }

  /** Position q has been claimed by a producer and its value published. */
  ghost predicate Published(s: State, q: nat)
  {
    q < s.machine.head && q !in s.history.producers
  }

  /** At its sequence load an enqueue fails exactly when its position is the head and
      the cell is still occupied by the position one capacity earlier; it reloads only
      when another producer has moved the head on. */
  lemma EnqueueVerdict(s: State, t: nat)
    requires Inv(s) && t < |s.machine.threads| && s.machine.threads[t].pc.EnqLoadSequence?
    ensures var m := s.machine;
            var pos := m.threads[t].pc.pos;
            var verdict := Classify(pos, SequenceAt(m, pos), m.cap);
            && (verdict == Fail <==> pos == m.head && pos >= m.cap && Occupied(s, pos - m.cap))
            && (verdict == Reload ==> pos < m.head)
  {
    var m, h := s.machine, s.history;
    var pos := m.threads[t].pc.pos;
    var i := pos % m.cap;
    var x := m.cells[i].sequence;
    assert Local(m, h, t);
    assert FreeCell(m, h, i) || FilledCell(m, h, i);
    if pos >= m.cap && pos - m.cap in h.consumers {
      assert ConsumerAt(m, h, pos - m.cap);
      ModStep(pos - m.cap, m.cap);
    }
    if FreeCell(m, h, i) {
      if x < pos + m.cap && pos < x + m.cap { SameResidue(x, pos, m.cap); }
      if x < pos { FreeBehind(m, x, pos); }
    } else {
      if x - 1 < pos + m.cap && pos < x - 1 + m.cap { SameResidue(x - 1, pos, m.cap); }
      if x - 1 < pos { FreeBehind(m, x - 1, pos); }
    }
  }

  /** A congruent position below pos and within a capacity of it is one lap behind. */
  lemma FreeBehind(m: Machine, x: nat, pos: nat)
    requires m.cap >= 2 && x % m.cap == pos % m.cap && x < pos
    ensures x + m.cap <= pos
    ensures pos <= x + m.cap ==> pos == x + m.cap
  {
    if pos < x + m.cap { SameResidue(x, pos, m.cap); }
  }

  /** A dequeue fails exactly when its position is the tail and is not yet published;
      it reloads only when another consumer has moved the tail on. */
  lemma DequeueVerdict(s: State, t: nat)
    requires Inv(s) && t < |s.machine.threads| && s.machine.threads[t].pc.DeqLoadSequence?
    ensures var m := s.machine;
            var pos := m.threads[t].pc.pos;
            var verdict := Classify(pos + 1, SequenceAt(m, pos), m.cap);
            && (verdict == Fail <==> pos == m.tail && !Published(s, pos))
            && (verdict == Reload ==> pos < m.tail)
  {
    var m, h := s.machine, s.history;
    var pos := m.threads[t].pc.pos;
    var i := pos % m.cap;
    var x := m.cells[i].sequence;
    assert Local(m, h, t);
    assert FreeCell(m, h, i) || FilledCell(m, h, i);
    if pos in h.producers { assert ProducerAt(m, h, pos); }
    if FreeCell(m, h, i) {
      if x < pos + m.cap && pos < x + m.cap { SameResidue(x, pos, m.cap); }
      if pos < x { FreeBehind(m, pos, x); }
    } else {
      if x - 1 < pos + m.cap && pos < x - 1 + m.cap { SameResidue(x - 1, pos, m.cap); }
      if x - 1 < pos { FreeBehind(m, x - 1, pos); }
      if pos < x - 1 { FreeBehind(m, pos, x - 1); }
    }
  }

  // --- With no other operation in flight -------------------------------------

  /** No thread holds a claim on any cell. */
  ghost predicate Quiescent(s: State)
  {
    s.history.producers == map[] && s.history.consumers == map[]
  }

  /** Thread t runs n steps alone, its compare-and-swaps not failing spuriously. */
  function Solo(s: State, t: nat, n: nat): (r: State)
    requires Shaped(s.machine) && t < |s.machine.threads|
    ensures Shaped(r.machine) && |r.machine.threads| == |s.machine.threads| && r.machine.cap == s.machine.cap
    decreases n
  {
    if n == 0 then s else Solo(Stepped(s, t, Advance(false)), t, n - 1)
  }

  lemma {:induction false} SoloInv(s: State, t: nat, n: nat)
    requires Inv(s) && t < |s.machine.threads|
    ensures Inv(Solo(s, t, n))
    decreases n
  {
    if n > 0 {
      StepInv(s, t, Advance(false));
      SoloInv(Stepped(s, t, Advance(false)), t, n - 1);
    }
  }

  /** From its compare-and-swap on the current head, a lone producer finishes. */
  lemma ProducerFinishes(s: State, t: nat)
    requires Shaped(s.machine) && t < |s.machine.threads| && s.machine.threads[t].pc == EnqCas(s.machine.head)
    requires Quiescent(s)
    ensures var r, th := Solo(s, t, 3), s.machine.threads[t];
            && Quiescent(r) && r.machine.tail == s.machine.tail
            && r.history.enqueued == s.history.enqueued + [th.call.items[th.call.done]]
            && r.machine.threads[t] == AfterEnqueue(th)
  {
    var s1 := Stepped(s, t, Advance(false));
    var s2 := Stepped(s1, t, Advance(false));
    var s3 := Stepped(s2, t, Advance(false));
    assert Solo(s, t, 3) == Solo(s1, t, 2) == Solo(s2, t, 1) == Solo(s3, t, 0) == s3;
    assert s3.history.producers == map[];
  }

  lemma ConsumerFinishes(s: State, t: nat)
    requires Shaped(s.machine) && t < |s.machine.threads| && s.machine.threads[t].pc == DeqCas(s.machine.tail)
    requires Quiescent(s)
    ensures var r, th := Solo(s, t, 3), s.machine.threads[t];
            && Quiescent(r) && r.machine.head == s.machine.head && r.machine.tail == s.machine.tail + 1
            && r.history.enqueued == s.history.enqueued
            && r.machine.threads[t] == AfterDequeue(th, s.machine.cells[s.machine.tail % s.machine.cap].data)
  {
    var s1 := Stepped(s, t, Advance(false));
    var s2 := Stepped(s1, t, Advance(false));
    var s3 := Stepped(s2, t, Advance(false));
    assert Solo(s, t, 3) == Solo(s1, t, 2) == Solo(s2, t, 1) == Solo(s3, t, 0) == s3;
    assert s3.history.consumers == map[];
  }

  /** Alone, an enqueue fails exactly when the ring is full, and otherwise appends its
      item in five steps and leaves no claim behind. */
  lemma EnqueueAlone(s: State, t: nat)
    requires Inv(s) && Quiescent(s) && t < |s.machine.threads| && s.machine.threads[t].pc == EnqLoadHead
    ensures var th, h := s.machine.threads[t], s.history;
            if s.machine.head - s.machine.tail == s.machine.cap then
              Solo(s, t, 2) == s.(machine := WithPc(s.machine, t, Idle))
            else
              var r := Solo(s, t, 5);
              && Inv(r) && Quiescent(r) && r.machine.tail == s.machine.tail
              && r.history.enqueued == h.enqueued + [th.call.items[th.call.done]]
              && r.machine.threads[t] == AfterEnqueue(th)
  {
    hide Solo, Step, Record, AfterEnqueue, Classify, Quiescent;
    if s.machine.head - s.machine.tail == s.machine.cap { FullAlone(s, t); } else { RoomAlone(s, t); }
  }

  lemma FullAlone(s: State, t: nat)
    requires Inv(s) && Quiescent(s) && t < |s.machine.threads| && s.machine.threads[t].pc == EnqLoadHead
    requires s.machine.head - s.machine.tail == s.machine.cap
    ensures Solo(s, t, 2) == s.(machine := WithPc(s.machine, t, Idle))
  {
    hide Cells, Claims, Handed, Begin, AfterEnqueue, AfterDequeue;
    var m, pos := s.machine, s.machine.head;
    var s1 := Stepped(s, t, Advance(false));
    assert s1.machine.threads[t].pc == EnqLoadSequence(pos);
    StepInv(s, t, Advance(false));
    EnqueueVerdict(s1, t);
    var s2 := Stepped(s1, t, Advance(false));
    assert Occupied(s1, pos - m.cap);
    assert s2.machine.threads == m.threads[t := m.threads[t].(pc := Idle)];
    assert Solo(s, t, 2) == Solo(s1, t, 1) == Solo(s2, t, 0);
  }

  lemma RoomAlone(s: State, t: nat)
    requires Inv(s) && Quiescent(s) && t < |s.machine.threads| && s.machine.threads[t].pc == EnqLoadHead
    requires s.machine.head - s.machine.tail != s.machine.cap
    ensures var r, th := Solo(s, t, 5), s.machine.threads[t];
            && Inv(r) && Quiescent(r) && r.machine.tail == s.machine.tail
            && r.history.enqueued == s.history.enqueued + [th.call.items[th.call.done]]
            && r.machine.threads[t] == AfterEnqueue(th)
  {
    hide Cells, Claims, Handed, Begin, AfterDequeue;
    var m, pos := s.machine, s.machine.head;
    var s1 := Stepped(s, t, Advance(false));
    assert s1.machine.threads[t].pc == EnqLoadSequence(pos);
    StepInv(s, t, Advance(false));
    EnqueueVerdict(s1, t);
    var s2 := Stepped(s1, t, Advance(false));
    assert s2.machine.threads[t] == m.threads[t].(pc := EnqCas(pos));
    ProducerFinishes(s2, t);
    assert Solo(s, t, 5) == Solo(s1, t, 4) == Solo(s2, t, 3);
    SoloInv(s, t, 5);
  }

  /** Alone, a dequeue fails exactly when the ring is empty, and otherwise takes the
      oldest value in five steps. */
  lemma DequeueAlone(s: State, t: nat)
    requires Inv(s) && Quiescent(s) && t < |s.machine.threads| && s.machine.threads[t].pc == DeqLoadTail
    ensures var th, h := s.machine.threads[t], s.history;
            if s.machine.head == s.machine.tail then
              Solo(s, t, 2) == s.(machine := WithPc(s.machine, t, Idle))
            else
              var r := Solo(s, t, 5);
              && Inv(r) && Quiescent(r)
              && r.machine.head == s.machine.head && r.machine.tail == s.machine.tail + 1
              && r.history.enqueued == h.enqueued && s.machine.tail < |h.enqueued|
              && r.machine.threads[t] == AfterDequeue(th, h.enqueued[s.machine.tail])
  {
    var m, pos := s.machine, s.machine.tail;
    var s1 := Stepped(s, t, Advance(false));
    assert s1.machine.threads[t].pc == DeqLoadSequence(pos);
    StepInv(s, t, Advance(false));
    DequeueVerdict(s1, t);
    var s2 := Stepped(s1, t, Advance(false));
    if m.head != m.tail {
      assert s2.machine.threads[t] == m.threads[t].(pc := DeqCas(pos));
      TailCellFilled(s);
      ConsumerFinishes(s2, t);
      assert Solo(s, t, 5) == Solo(s1, t, 4) == Solo(s2, t, 3);
      SoloInv(s, t, 5);
    } else {
      assert s2.machine.threads == m.threads[t := m.threads[t].(pc := Idle)];
      assert Solo(s, t, 2) == Solo(s1, t, 1) == Solo(s2, t, 0);
    }
  }

  /** The size estimate: the two loads never underflow, and the answer is at least the
      true size at the second load, at most the capacity, and exact if the tail held. */
  lemma SizeEstimate(s: State, t: nat, choice: Choice)
    requires Inv(s) && t < |s.machine.threads| && s.machine.threads[t].pc.SizeLoadHead?
    ensures var m, x := s.machine, s.machine.threads[t].pc.sampled;
            var call := Step(m, t, choice).threads[t].call;
            && x <= m.head
            && call.Size? && m.head - m.tail <= call.answer <= m.cap
            && (m.tail == x ==> call.answer == m.head - m.tail)
  {
    assert Local(s.machine, s.history, t);
  }

  // --- A failed enqueue does not imply a full ring ---------------------------

  lemma RunExtend(cap: nat, threads: nat, events: seq<Event>, e: Event) returns (more: seq<Event>)
    requires cap >= 2 && Scheduled(events, threads) && e.thread < threads
    ensures more == events + [e] && Scheduled(more, threads)
    ensures Run(cap, threads, more) == Stepped(Run(cap, threads, events), e.thread, e.choice)
  {
    more := events + [e];
    assert more[..|more| - 1] == events;
  }

  lemma RunMany(cap: nat, threads: nat, events: seq<Event>, t: nat, n: nat) returns (more: seq<Event>)
    requires cap >= 2 && Scheduled(events, threads) && t < threads
    ensures Scheduled(more, threads)
    ensures Run(cap, threads, more) == Solo(Run(cap, threads, events), t, n)
    decreases n
  {
    if n == 0 {
      more := events;
    } else {
      more := RunExtend(cap, threads, events, Event(t, Advance(false)));
      more := RunMany(cap, threads, more, t, n - 1);
    }
  }

  lemma {:induction false} SoloOthers(s: State, t: nat, n: nat, u: nat)
    requires Shaped(s.machine) && t < |s.machine.threads| && u < |s.machine.threads| && u != t
    ensures Solo(s, t, n).machine.threads[u] == s.machine.threads[u]
    decreases n
  {
    if n > 0 { SoloOthers(Stepped(s, t, Advance(false)), t, n - 1, u); }
  }

  /** An idle thread begins a dequeue and stalls right after winning the tail. */
  lemma ConsumerStalls(cap: nat, threads: nat, events: seq<Event>, u: nat) returns (more: seq<Event>)
    requires cap >= 2 && Scheduled(events, threads) && u < threads
    requires var s := Run(cap, threads, events);
             Quiescent(s) && s.machine.tail < s.machine.head && s.machine.threads[u].pc.Idle?
    ensures Scheduled(more, threads)
    ensures var s, r := Run(cap, threads, events), Run(cap, threads, more);
            && r.machine.head == s.machine.head && r.machine.tail == s.machine.tail + 1
            && s.machine.tail in r.history.consumers
            && forall t :: 0 <= t < threads && t != u ==> r.machine.threads[t] == s.machine.threads[t]
  {
    var s := Run(cap, threads, events);
    more := RunExtend(cap, threads, events, Event(u, BeginDequeue(1)));
    more := RunExtend(cap, threads, more, Event(u, Advance(false)));
    var s2 := Run(cap, threads, more);
    assert s2.machine.threads[u].pc == DeqLoadSequence(s.machine.tail);
    RunInv(cap, threads, more);
    DequeueVerdict(s2, u);
    more := RunExtend(cap, threads, more, Event(u, Advance(false)));
    more := RunExtend(cap, threads, more, Event(u, Advance(false)));
  }

  /** Thread 0 completes one item of its bulk enqueue while thread 1 stays idle. */
  lemma ProducerAdvances(events: seq<Event>) returns (more: seq<Event>)
    requires Scheduled(events, 2)
    requires var s := Run(2, 2, events);
             && Quiescent(s) && s.machine.tail == 0 && |s.history.enqueued| < 2
             && s.machine.threads[0].pc.EnqLoadHead? && s.machine.threads[0].call.done + 1 < |s.machine.threads[0].call.items|
    ensures Scheduled(more, 2)
    ensures var s, r := Run(2, 2, events), Run(2, 2, more);
            && Quiescent(r) && r.machine.tail == 0 && |r.history.enqueued| == |s.history.enqueued| + 1
            && r.machine.threads[0] == AfterEnqueue(s.machine.threads[0])
            && r.machine.threads[1] == s.machine.threads[1]
  {
    var s := Run(2, 2, events);
    RunInv(2, 2, events);
    EnqueueAlone(s, 0);
    SoloOthers(s, 0, 5, 1);
    more := RunMany(2, 2, events, 0, 5);
  }

  /** While a consumer sits between winning position 0 and releasing its cell, an enqueue
      at the head fails although the ring holds one value less than its capacity. */
  lemma FailsBelowCapacity(x: Pointer) returns (events: seq<Event>)
    ensures Scheduled(events, 2)
    ensures var m := Run(2, 2, events).machine;
            && m.head - m.tail < m.cap
            && m.threads[0].pc == EnqLoadSequence(m.head)
            && Classify(m.head, SequenceAt(m, m.head), m.cap) == Fail
  {
    events := RunExtend(2, 2, [], Event(0, BeginEnqueue([x, x, x])));
    events := ProducerAdvances(events);
    events := ProducerAdvances(events);
    assert Run(2, 2, events).machine.head == 2 by { RunInv(2, 2, events); }
    events := ConsumerStalls(2, 2, events, 1);
    events := RunExtend(2, 2, events, Event(0, Advance(false)));
    RunInv(2, 2, events);
    EnqueueVerdict(Run(2, 2, events), 0);
  }
}
