/** The inductive invariant of the ring over all interleavings. */
module QueueInvariant {
  import opened QueueMachine
  import opened Bits

  /** The sequence number of the cell that serves position p. */
  function SequenceAt(m: Machine, p: nat): nat
    requires m.cap >= 2 && |m.cells| == m.cap
  {
    m.cells[p % m.cap].sequence
  }

  predicate Producing(pc: Pc, p: nat)
  {
    (pc.EnqStoreData? || pc.EnqPublish?) && pc.pos == p
  }

  predicate Consuming(pc: Pc, p: nat)
  {
    (pc.DeqLoadData? || pc.DeqRelease?) && pc.pos == p
  }

  /** Cell i is free for the position its sequence names. */
  ghost predicate FreeCell(m: Machine, h: History, i: nat)
    requires Shaped(m) && i < m.cap
  {
    var s := m.cells[i].sequence;
    && s % m.cap == i
    && m.tail <= s < m.tail + m.cap
    && (s < m.head ==> s in h.producers)
  }

  /** Cell i holds the value of the position before its sequence. */
  ghost predicate FilledCell(m: Machine, h: History, i: nat)
    requires Shaped(m) && i < m.cap && |h.enqueued| == m.head
  {
    var s := m.cells[i].sequence;
    && s >= 1 && (s - 1) % m.cap == i
    && s - 1 < m.head <= s - 1 + m.cap
    && m.cells[i].data == h.enqueued[s - 1]
    && (s - 1 < m.tail ==> s - 1 in h.consumers)
  }

  ghost predicate Counters(m: Machine, h: History)
  {
    && m.tail <= m.head <= m.tail + m.cap
    && |h.enqueued| == |h.enqueuers| == m.head
    && |h.dequeuers| == m.tail
  }

  ghost predicate Cells(m: Machine, h: History)
    requires Shaped(m) && Counters(m, h)
  {
    forall i :: 0 <= i < m.cap ==> FreeCell(m, h, i) || FilledCell(m, h, i)
  }

  /** What thread t knows at its program counter. */
  ghost predicate Local(m: Machine, h: History, t: nat)
    requires Shaped(m) && Counters(m, h) && t < |m.threads|
  {
    match m.threads[t].pc
    case EnqLoadSequence(p) => p <= m.head
    case EnqCas(p) => p <= m.head && (p == m.head ==> SequenceAt(m, p) == p)
    case EnqStoreData(p) => p in h.producers && h.producers[p] == t
    case EnqPublish(p) => p in h.producers && h.producers[p] == t
    case DeqLoadSequence(p) => p <= m.tail
    case DeqCas(p) => p <= m.tail && (p == m.tail ==> SequenceAt(m, p) == p + 1)
    case DeqLoadData(p) => p in h.consumers && h.consumers[p] == t
    case DeqRelease(p, v) => p in h.consumers && h.consumers[p] == t && p < m.head && v == h.enqueued[p]
    case SizeLoadHead(x) => x <= m.tail
    case _ => true
  }

  ghost predicate Locals(m: Machine, h: History)
    requires Shaped(m) && Counters(m, h)
  {
    forall t :: 0 <= t < |m.threads| ==> Local(m, h, t)
  }

  /** A producer holds its position until it publishes: the cell still names it. */
  ghost predicate ProducerAt(m: Machine, h: History, p: nat)
    requires Shaped(m) && Counters(m, h) && p in h.producers
  {
    var t := h.producers[p];
    && t < |m.threads| && p < m.head
    && Producing(m.threads[t].pc, p)
    && SequenceAt(m, p) == p
    && (if m.threads[t].pc.EnqPublish? then m.cells[p % m.cap].data == h.enqueued[p]
        else m.threads[t].call.items[m.threads[t].call.done] == h.enqueued[p])
  }

  ghost predicate ConsumerAt(m: Machine, h: History, p: nat)
    requires Shaped(m) && Counters(m, h) && p in h.consumers
  {
    var t := h.consumers[p];
    && t < |m.threads| && p < m.tail
    && Consuming(m.threads[t].pc, p)
    && SequenceAt(m, p) == p + 1
  }

  ghost predicate Claims(m: Machine, h: History)
    requires Shaped(m) && Counters(m, h)
  {
    && (forall p :: p in h.producers ==> ProducerAt(m, h, p))
    && (forall p :: p in h.consumers ==> ConsumerAt(m, h, p))
  }

  /** What has been handed out: each position yields the value enqueued there. */
  ghost predicate Handed(m: Machine, h: History)
    requires Shaped(m) && Counters(m, h)
  {
    && (forall p :: p in h.got ==> p < m.tail && h.got[p] == h.enqueued[p])
    && (forall p :: 0 <= p < m.tail && p !in h.got ==>
          p in h.consumers && h.consumers[p] < |m.threads| && m.threads[h.consumers[p]].pc == DeqLoadData(p))
  }

  ghost predicate Inv(s: State)
  {
    var m, h := s.machine, s.history;
    && Shaped(m) && Counters(m, h)
    && Cells(m, h) && Locals(m, h) && Claims(m, h) && Handed(m, h)
  }

  // --- Residues --------------------------------------------------------------

  lemma SameResidue(a: nat, b: nat, cap: nat)
    requires cap > 0 && a % cap == b % cap && a < b + cap && b < a + cap
    ensures a == b
  {
    var q := a / cap - b / cap;
    assert a - b == cap * q;
    if q > 0 { MulMono(cap, 1, q); }
    if q < 0 { MulMono(cap, 1, -q); }
  }

  lemma NextResidue(a: nat, cap: nat)
    requires cap >= 2
    ensures (a + 1) % cap != a % cap
  {
    if (a + 1) % cap == a % cap { SameResidue(a + 1, a, cap); }
  }

  lemma InitInv(cap: nat, threads: nat)
    requires cap >= 2
    ensures Inv(State(Init(cap, threads), NoHistory))
  {
    var m := Init(cap, threads);
    forall i | 0 <= i < cap ensures FreeCell(m, NoHistory, i) {
      DivModUnique(i, cap, 0, i);
    }
  }

  // --- One lemma for each kind of step ---------------------------------------

  /** Steps that only move a thread's own program counter. */
  lemma QuietStep(s: State, t: nat, th: Thread)
    requires Inv(s) && t < |s.machine.threads|
    requires ThreadShaped(th)
    requires var pc := s.machine.threads[t].pc;
             !(pc.EnqStoreData? || pc.EnqPublish? || pc.DeqLoadData? || pc.DeqRelease?)
    requires var pc := th.pc;
             !(pc.EnqStoreData? || pc.EnqPublish? || pc.DeqLoadData? || pc.DeqRelease?)
    requires var m := s.machine.(threads := s.machine.threads[t := th]);
             Shaped(m) && Local(m, s.history, t)
    ensures Inv(s.(machine := s.machine.(threads := s.machine.threads[t := th])))
  {
    var m, h := s.machine, s.history;
    var m' := m.(threads := m.threads[t := th]);
    forall i | 0 <= i < m.cap ensures FreeCell(m', h, i) || FilledCell(m', h, i) {
      assert FreeCell(m, h, i) || FilledCell(m, h, i);
    }
    forall p | p in h.producers ensures ProducerAt(m', h, p) { assert ProducerAt(m, h, p); }
    forall p | p in h.consumers ensures ConsumerAt(m', h, p) { assert ConsumerAt(m, h, p); }
    forall u | 0 <= u < |m.threads| ensures Local(m', h, u) {
      if u != t { assert Local(m, h, u); }
    }
  }

  lemma EnqueueWin(s: State, t: nat, choice: Choice)
    requires Inv(s) && t < |s.machine.threads|
    requires s.machine.threads[t].pc.EnqCas? && Wins(s.machine, t, choice)
    ensures Inv(Stepped(s, t, choice))
  {
    hide Classify, Begin, AfterEnqueue, AfterDequeue, ThreadShaped, Cells, Claims, Locals;
    EnqueueWinCells(s, t, choice);
    EnqueueWinClaims(s, t, choice);
    EnqueueWinLocals(s, t, choice);
  }

  lemma EnqueueWinCells(s: State, t: nat, choice: Choice)
    requires Inv(s) && t < |s.machine.threads|
    requires s.machine.threads[t].pc.EnqCas? && Wins(s.machine, t, choice)
    ensures var s' := Stepped(s, t, choice);
            Counters(s'.machine, s'.history) && Cells(s'.machine, s'.history)
  {
    hide Classify, Begin, AfterEnqueue, AfterDequeue, ThreadShaped, Handed;
    var m, h := s.machine, s.history;
    var s' := Stepped(s, t, choice);
    var m', h' := s'.machine, s'.history;
    var pos := m.threads[t].pc.pos;
    assert Local(m, h, t);
    HeadCellFree(s);
    forall i | 0 <= i < m.cap ensures FreeCell(m', h', i) || FilledCell(m', h', i) {
      assert FreeCell(m, h, i) || FilledCell(m, h, i);
      if !FreeCell(m, h, i) && m.head == m.cells[i].sequence - 1 + m.cap {
        ModStep(m.cells[i].sequence - 1, m.cap);
      }
    }
  }

  lemma EnqueueWinClaims(s: State, t: nat, choice: Choice)
    requires Inv(s) && t < |s.machine.threads|
    requires s.machine.threads[t].pc.EnqCas? && Wins(s.machine, t, choice)
    ensures var s' := Stepped(s, t, choice);
            Counters(s'.machine, s'.history) && Claims(s'.machine, s'.history)
  {
    hide Classify, Begin, AfterEnqueue, AfterDequeue, ThreadShaped, Handed;
    var m, h := s.machine, s.history;
    var s' := Stepped(s, t, choice);
    var m', h' := s'.machine, s'.history;
    var pos := m.threads[t].pc.pos;
    assert Local(m, h, t);
    HeadCellFree(s);
    forall p | p in h'.producers ensures ProducerAt(m', h', p) {
      if p != pos { assert ProducerAt(m, h, p); }
    }
    forall p | p in h'.consumers ensures ConsumerAt(m', h', p) { assert ConsumerAt(m, h, p); }
  }

  lemma EnqueueWinLocals(s: State, t: nat, choice: Choice)
    requires Inv(s) && t < |s.machine.threads|
    requires s.machine.threads[t].pc.EnqCas? && Wins(s.machine, t, choice)
    ensures var s' := Stepped(s, t, choice);
            Counters(s'.machine, s'.history) && Locals(s'.machine, s'.history)
  {
    hide Classify, Begin, AfterEnqueue, AfterDequeue, ThreadShaped, Handed;
    var m, h := s.machine, s.history;
    var s' := Stepped(s, t, choice);
    var m', h' := s'.machine, s'.history;
    var pos := m.threads[t].pc.pos;
    assert Local(m, h, t);
    HeadCellFree(s);
    forall u | 0 <= u < |m.threads| ensures Local(m', h', u) {
      assert Local(m, h, u);
      if u != t && (m.threads[u].pc.EnqStoreData? || m.threads[u].pc.EnqPublish?) {
        assert ProducerAt(m, h, m.threads[u].pc.pos);
      }
    }
  }

  function Stepped(s: State, t: nat, choice: Choice): State
    requires Shaped(s.machine) && t < |s.machine.threads|
  {
    State(Step(s.machine, t, choice), Record(s.machine, s.history, t, choice))
  }

  /** A cell whose sequence is the head is free for it, so the ring has room. */
  lemma HeadCellFree(s: State)
    requires Inv(s) && SequenceAt(s.machine, s.machine.head) == s.machine.head
    ensures s.machine.head < s.machine.tail + s.machine.cap
  {
    var m, h := s.machine, s.history;
    var i := m.head % m.cap;
    assert FreeCell(m, h, i) || FilledCell(m, h, i);
    if !FreeCell(m, h, i) { NextResidue(m.head - 1, m.cap); }
  }

  /** Two claims on one cell are claims on one position. */
  lemma ClaimsDisjoint(s: State, p: nat, q: nat)
    requires Inv(s) && p % s.machine.cap == q % s.machine.cap
    ensures p in s.history.producers && q in s.history.producers ==> p == q
    ensures p in s.history.consumers && q in s.history.consumers ==> p == q
    ensures !(p in s.history.producers && q in s.history.consumers)
  {
    var m, h := s.machine, s.history;
    if p in h.producers { assert ProducerAt(m, h, p); }
    if q in h.producers { assert ProducerAt(m, h, q); }
    if p in h.consumers { assert ConsumerAt(m, h, p); }
    if q in h.consumers { assert ConsumerAt(m, h, q); }
    NextResidue(q, m.cap);
  }

  lemma EnqueueStore(s: State, t: nat, choice: Choice)
    requires Inv(s) && t < |s.machine.threads|
    requires s.machine.threads[t].pc.EnqStoreData?
    ensures Inv(Stepped(s, t, choice))
  {
    hide Classify, Begin, AfterEnqueue, AfterDequeue, ThreadShaped, Cells, Claims, Locals;
    EnqueueStoreCells(s, t, choice);
    EnqueueStoreClaims(s, t, choice);
    EnqueueStoreLocals(s, t, choice);
  }

  lemma EnqueueStoreCells(s: State, t: nat, choice: Choice)
    requires Inv(s) && t < |s.machine.threads|
    requires s.machine.threads[t].pc.EnqStoreData?
    ensures var s' := Stepped(s, t, choice);
            Counters(s'.machine, s'.history) && Cells(s'.machine, s'.history)
  {
    hide Classify, Begin, AfterEnqueue, AfterDequeue, ThreadShaped, Handed;
    var m, h := s.machine, s.history;
    var m' := Stepped(s, t, choice).machine;
    var pos := m.threads[t].pc.pos;
    assert Local(m, h, t);
    assert ProducerAt(m, h, pos);
    forall i | 0 <= i < m.cap ensures FreeCell(m', h, i) || FilledCell(m', h, i) {
      assert FreeCell(m, h, i) || FilledCell(m, h, i);
      if i == pos % m.cap && !FreeCell(m, h, i) { NextResidue(pos - 1, m.cap); }
    }
  }

  lemma EnqueueStoreClaims(s: State, t: nat, choice: Choice)
    requires Inv(s) && t < |s.machine.threads|
    requires s.machine.threads[t].pc.EnqStoreData?
    ensures var s' := Stepped(s, t, choice);
            Counters(s'.machine, s'.history) && Claims(s'.machine, s'.history)
  {
    hide Classify, Begin, AfterEnqueue, AfterDequeue, ThreadShaped, Cells, Handed;
    var m, h := s.machine, s.history;
    var m' := Stepped(s, t, choice).machine;
    var pos := m.threads[t].pc.pos;
    assert Local(m, h, t);
    assert ProducerAt(m, h, pos);
    forall p | p in h.producers ensures ProducerAt(m', h, p) {
      assert ProducerAt(m, h, p);
      if p % m.cap == pos % m.cap { ClaimsDisjoint(s, p, pos); }
    }
    forall p | p in h.consumers ensures ConsumerAt(m', h, p) {
      assert ConsumerAt(m, h, p);
      if p % m.cap == pos % m.cap { ClaimsDisjoint(s, pos, p); }
    }
  }

  lemma EnqueueStoreLocals(s: State, t: nat, choice: Choice)
    requires Inv(s) && t < |s.machine.threads|
    requires s.machine.threads[t].pc.EnqStoreData?
    ensures var s' := Stepped(s, t, choice);
            Counters(s'.machine, s'.history) && Locals(s'.machine, s'.history)
  {
    hide Classify, Begin, AfterEnqueue, AfterDequeue, ThreadShaped, Cells, Handed;
    var m, h := s.machine, s.history;
    var m' := Stepped(s, t, choice).machine;
    assert Local(m, h, t);
    forall u | 0 <= u < |m.threads| ensures Local(m', h, u) { assert Local(m, h, u); }
  }

  /** The cell a producer is about to publish is free for its position. */
  lemma ProducerCell(s: State, pos: nat)
    requires Inv(s) && pos in s.history.producers
    ensures FreeCell(s.machine, s.history, pos % s.machine.cap)
  {
    var m, h := s.machine, s.history;
    assert ProducerAt(m, h, pos);
    assert FreeCell(m, h, pos % m.cap) || FilledCell(m, h, pos % m.cap);
    if pos > 0 { NextResidue(pos - 1, m.cap); }
  }

  lemma PublishCells(s: State, t: nat, choice: Choice)
    requires Inv(s) && t < |s.machine.threads|
    requires s.machine.threads[t].pc.EnqPublish?
    ensures var s' := Stepped(s, t, choice);
            Counters(s'.machine, s'.history) && Cells(s'.machine, s'.history)
  {
    hide Classify, Begin, AfterEnqueue, AfterDequeue, ThreadShaped;
    var m, h := s.machine, s.history;
    var s' := Stepped(s, t, choice);
    var m', h' := s'.machine, s'.history;
    var pos := m.threads[t].pc.pos;
    var c := pos % m.cap;
    assert Local(m, h, t);
    assert ProducerAt(m, h, pos);
    ProducerCell(s, pos);
    assert FilledCell(m', h', c);
    forall i | 0 <= i < m.cap && i != c ensures FreeCell(m', h', i) || FilledCell(m', h', i) {
      assert FreeCell(m, h, i) || FilledCell(m, h, i);
      assert m'.cells[i] == m.cells[i];
    }
  }

  lemma PublishLocals(s: State, t: nat, choice: Choice)
    requires Inv(s) && t < |s.machine.threads|
    requires s.machine.threads[t].pc.EnqPublish?
    ensures var s' := Stepped(s, t, choice);
            Counters(s'.machine, s'.history) && Locals(s'.machine, s'.history)
  {
    var m, h := s.machine, s.history;
    var s' := Stepped(s, t, choice);
    var m', h' := s'.machine, s'.history;
    var pos := m.threads[t].pc.pos;
    assert Local(m, h, t);
    assert ProducerAt(m, h, pos);
    forall u | 0 <= u < |m.threads| ensures Local(m', h', u) {
      assert Local(m, h, u);
      if m.threads[u].pc.DeqCas? { NextResidue(m.threads[u].pc.pos, m.cap); }
    }
  }

  lemma EnqueuePublish(s: State, t: nat, choice: Choice)
    requires Inv(s) && t < |s.machine.threads|
    requires s.machine.threads[t].pc.EnqPublish?
    ensures Inv(Stepped(s, t, choice))
  {
    hide Classify, Begin, ThreadShaped, Cells;
    var m, h := s.machine, s.history;
    var s' := Stepped(s, t, choice);
    var m', h' := s'.machine, s'.history;
    var pos := m.threads[t].pc.pos;
    PublishCells(s, t, choice);
    PublishLocals(s, t, choice);
    assert Local(m, h, t);
    forall p | p in h'.producers ensures ProducerAt(m', h', p) {
      assert ProducerAt(m, h, p);
    }
    forall p | p in h'.consumers ensures ConsumerAt(m', h', p) {
      assert ConsumerAt(m, h, p);
      if p % m.cap == pos % m.cap { ClaimsDisjoint(s, pos, p); }
    }
  }

  /** A cell published for the tail holds an enqueued value. */
  lemma TailCellFilled(s: State)
    requires Inv(s) && SequenceAt(s.machine, s.machine.tail) == s.machine.tail + 1
    ensures s.machine.tail < s.machine.head
    ensures s.machine.cells[s.machine.tail % s.machine.cap].data == s.history.enqueued[s.machine.tail]
  {
    var m, h := s.machine, s.history;
    var i := m.tail % m.cap;
    assert FreeCell(m, h, i) || FilledCell(m, h, i);
    NextResidue(m.tail, m.cap);
  }

  lemma DequeueWinLocals(s: State, t: nat, choice: Choice)
    requires Inv(s) && t < |s.machine.threads|
    requires s.machine.threads[t].pc.DeqCas? && Wins(s.machine, t, choice)
    ensures var s' := Stepped(s, t, choice);
            Counters(s'.machine, s'.history) && Locals(s'.machine, s'.history)
  {
    hide Classify, Begin, AfterEnqueue, AfterDequeue, ThreadShaped, Cells, Handed;
    var m, h := s.machine, s.history;
    var s' := Stepped(s, t, choice);
    var m', h' := s'.machine, s'.history;
    assert Local(m, h, t);
    TailCellFilled(s);
    forall u | 0 <= u < |m.threads| ensures Local(m', h', u) {
      assert Local(m, h, u);
      if u != t && (m.threads[u].pc.DeqLoadData? || m.threads[u].pc.DeqRelease?) {
        assert ConsumerAt(m, h, m.threads[u].pc.pos);
      }
    }
  }

  lemma DequeueWin(s: State, t: nat, choice: Choice)
    requires Inv(s) && t < |s.machine.threads|
    requires s.machine.threads[t].pc.DeqCas? && Wins(s.machine, t, choice)
    ensures Inv(Stepped(s, t, choice))
  {
    hide Classify, Begin, AfterEnqueue, AfterDequeue, ThreadShaped, Cells, Claims, Locals;
    DequeueWinCells(s, t, choice);
    DequeueWinClaims(s, t, choice);
    DequeueWinLocals(s, t, choice);
  }

  lemma DequeueWinCells(s: State, t: nat, choice: Choice)
    requires Inv(s) && t < |s.machine.threads|
    requires s.machine.threads[t].pc.DeqCas? && Wins(s.machine, t, choice)
    ensures var s' := Stepped(s, t, choice);
            Counters(s'.machine, s'.history) && Cells(s'.machine, s'.history)
  {
    hide Classify, Begin, AfterEnqueue, AfterDequeue, ThreadShaped, Handed;
    var m, h := s.machine, s.history;
    var s' := Stepped(s, t, choice);
    var m', h' := s'.machine, s'.history;
    var pos := m.threads[t].pc.pos;
    assert Local(m, h, t);
    TailCellFilled(s);
    forall i | 0 <= i < m.cap ensures FreeCell(m', h', i) || FilledCell(m', h', i) {
      assert FreeCell(m, h, i) || FilledCell(m, h, i);
    }
  }

  lemma DequeueWinClaims(s: State, t: nat, choice: Choice)
    requires Inv(s) && t < |s.machine.threads|
    requires s.machine.threads[t].pc.DeqCas? && Wins(s.machine, t, choice)
    ensures var s' := Stepped(s, t, choice);
            Counters(s'.machine, s'.history) && Claims(s'.machine, s'.history)
  {
    hide Classify, Begin, AfterEnqueue, AfterDequeue, ThreadShaped, Handed;
    var m, h := s.machine, s.history;
    var s' := Stepped(s, t, choice);
    var m', h' := s'.machine, s'.history;
    var pos := m.threads[t].pc.pos;
    assert Local(m, h, t);
    TailCellFilled(s);
    forall p | p in h'.producers ensures ProducerAt(m', h', p) { assert ProducerAt(m, h, p); }
    forall p | p in h'.consumers ensures ConsumerAt(m', h', p) {
      if p != pos { assert ConsumerAt(m, h, p); }
    }
  }

  /** A consumer about to read its cell finds the value enqueued at its position. */
  lemma LoadedValue(s: State, t: nat)
    requires Inv(s) && t < |s.machine.threads| && s.machine.threads[t].pc.DeqLoadData?
    ensures var m, h, pos := s.machine, s.history, s.machine.threads[t].pc.pos;
            pos < m.tail && pos < |h.enqueued| && m.cells[pos % m.cap].data == h.enqueued[pos]
  {
    var m, h, pos := s.machine, s.history, s.machine.threads[t].pc.pos;
    var c := pos % m.cap;
    assert Local(m, h, t);
    assert ConsumerAt(m, h, pos);
    assert FreeCell(m, h, c) || FilledCell(m, h, c);
    if !FilledCell(m, h, c) { NextResidue(pos, m.cap); }
  }

  lemma DequeueLoad(s: State, t: nat, choice: Choice)
    requires Inv(s) && t < |s.machine.threads|
    requires s.machine.threads[t].pc.DeqLoadData?
    ensures Inv(Stepped(s, t, choice))
  {
    hide Classify, Begin, AfterEnqueue, AfterDequeue, ThreadShaped, Cells, Claims, Locals;
    LoadedValue(s, t);
    DequeueLoadCells(s, t, choice);
    DequeueLoadClaims(s, t, choice);
    DequeueLoadLocals(s, t, choice);
  }

  lemma DequeueLoadCells(s: State, t: nat, choice: Choice)
    requires Inv(s) && t < |s.machine.threads|
    requires s.machine.threads[t].pc.DeqLoadData?
    ensures var s' := Stepped(s, t, choice);
            Counters(s'.machine, s'.history) && Cells(s'.machine, s'.history)
  {
    hide Classify, Begin, AfterEnqueue, AfterDequeue, ThreadShaped, Handed;
    var m, h := s.machine, s.history;
    var s' := Stepped(s, t, choice);
    var m', h' := s'.machine, s'.history;
    var pos := m.threads[t].pc.pos;
    assert Local(m, h, t);
    forall i | 0 <= i < m.cap ensures FreeCell(m', h', i) || FilledCell(m', h', i) {
      assert FreeCell(m, h, i) || FilledCell(m, h, i);
    }
  }

  lemma DequeueLoadClaims(s: State, t: nat, choice: Choice)
    requires Inv(s) && t < |s.machine.threads|
    requires s.machine.threads[t].pc.DeqLoadData?
    ensures var s' := Stepped(s, t, choice);
            Counters(s'.machine, s'.history) && Claims(s'.machine, s'.history)
  {
    hide Classify, Begin, AfterEnqueue, AfterDequeue, ThreadShaped, Handed, Cells;
    var m, h := s.machine, s.history;
    var s' := Stepped(s, t, choice);
    var m', h' := s'.machine, s'.history;
    var pos := m.threads[t].pc.pos;
    assert Local(m, h, t);
    forall p | p in h'.producers ensures ProducerAt(m', h', p) { assert ProducerAt(m, h, p); }
    forall p | p in h'.consumers ensures ConsumerAt(m', h', p) { assert ConsumerAt(m, h, p); }
  }

  lemma DequeueLoadLocals(s: State, t: nat, choice: Choice)
    requires Inv(s) && t < |s.machine.threads|
    requires s.machine.threads[t].pc.DeqLoadData?
    ensures var s' := Stepped(s, t, choice);
            Counters(s'.machine, s'.history) && Locals(s'.machine, s'.history)
  {
    hide Classify, Begin, AfterEnqueue, AfterDequeue, ThreadShaped, Handed;
    var m, h := s.machine, s.history;
    var s' := Stepped(s, t, choice);
    var m', h' := s'.machine, s'.history;
    var pos := m.threads[t].pc.pos;
    assert Local(m, h, t);
    LoadedValue(s, t);
    forall u | 0 <= u < |m.threads| ensures Local(m', h', u) { assert Local(m, h, u); }
  }

  lemma ReleaseCells(s: State, t: nat, choice: Choice)
    requires Inv(s) && t < |s.machine.threads|
    requires s.machine.threads[t].pc.DeqRelease?
    ensures var s' := Stepped(s, t, choice);
            Counters(s'.machine, s'.history) && Cells(s'.machine, s'.history)
  {
    hide Classify, Begin, AfterEnqueue, AfterDequeue, ThreadShaped;
    var m, h := s.machine, s.history;
    var s' := Stepped(s, t, choice);
    var m', h' := s'.machine, s'.history;
    var pos := m.threads[t].pc.pos;
    var c := pos % m.cap;
    assert Local(m, h, t);
    assert ConsumerAt(m, h, pos);
    assert FreeCell(m, h, c) || FilledCell(m, h, c);
    if !FilledCell(m, h, c) { NextResidue(pos, m.cap); }
    ModStep(pos, m.cap);
    forall i | 0 <= i < m.cap ensures FreeCell(m', h', i) || FilledCell(m', h', i) {
      assert FreeCell(m, h, i) || FilledCell(m, h, i);
      if i == c {
        assert FreeCell(m', h', i);
      } else if FreeCell(m, h, i) {
        assert FreeCell(m', h', i);
      }
    }
  }

  lemma ReleaseLocals(s: State, t: nat, choice: Choice)
    requires Inv(s) && t < |s.machine.threads|
    requires s.machine.threads[t].pc.DeqRelease?
    ensures var s' := Stepped(s, t, choice);
            Counters(s'.machine, s'.history) && Locals(s'.machine, s'.history)
  {
    hide Classify, Begin, ThreadShaped;
    var m, h := s.machine, s.history;
    var s' := Stepped(s, t, choice);
    var m', h' := s'.machine, s'.history;
    var pos := m.threads[t].pc.pos;
    assert Local(m, h, t);
    assert ConsumerAt(m, h, pos);
    forall u | 0 <= u < |m.threads| ensures Local(m', h', u) {
      assert Local(m, h, u);
      if m.threads[u].pc.EnqCas? { NextResidue(pos, m.cap); }
    }
  }

  lemma DequeueRelease(s: State, t: nat, choice: Choice)
    requires Inv(s) && t < |s.machine.threads|
    requires s.machine.threads[t].pc.DeqRelease?
    ensures Inv(Stepped(s, t, choice))
  {
    hide Classify, Begin, ThreadShaped, Cells;
    var m, h := s.machine, s.history;
    var s' := Stepped(s, t, choice);
    var m', h' := s'.machine, s'.history;
    var pos := m.threads[t].pc.pos;
    ReleaseCells(s, t, choice);
    ReleaseLocals(s, t, choice);
    assert Local(m, h, t);
    forall p | p in h'.producers ensures ProducerAt(m', h', p) {
      assert ProducerAt(m, h, p);
      if p % m.cap == pos % m.cap { ClaimsDisjoint(s, p, pos); }
    }
    forall p | p in h'.consumers ensures ConsumerAt(m', h', p) {
      assert ConsumerAt(m, h, p);
      if p % m.cap == pos % m.cap { ClaimsDisjoint(s, p, pos); }
    }
  }

  /** A step that touches no cell and wins no counter changes only its own thread. */
  lemma QuietShape(m: Machine, h: History, t: nat, choice: Choice)
    requires Shaped(m) && Counters(m, h) && t < |m.threads| && Local(m, h, t)
    requires !Wins(m, t, choice)
    requires var pc := m.threads[t].pc;
             !(pc.EnqStoreData? || pc.EnqPublish? || pc.DeqLoadData? || pc.DeqRelease?)
    ensures var m' := Step(m, t, choice);
            var pc' := m'.threads[t].pc;
            && m' == m.(threads := m.threads[t := m'.threads[t]])
            && !(pc'.EnqStoreData? || pc'.EnqPublish? || pc'.DeqLoadData? || pc'.DeqRelease?)
            && Record(m, h, t, choice) == h && Local(m', h, t)
  {
    hide Step, Record, Local;
    if m.threads[t].pc.Idle? { QuietBegin(m, h, t, choice); } else { QuietAdvance(m, h, t, choice); }
  }

  lemma QuietBegin(m: Machine, h: History, t: nat, choice: Choice)
    requires Shaped(m) && Counters(m, h) && t < |m.threads| && m.threads[t].pc.Idle?
    ensures var m' := Step(m, t, choice);
            var pc' := m'.threads[t].pc;
            && m' == m.(threads := m.threads[t := m'.threads[t]])
            && !(pc'.EnqStoreData? || pc'.EnqPublish? || pc'.DeqLoadData? || pc'.DeqRelease?)
            && Record(m, h, t, choice) == h && Local(m', h, t)
  {
    hide Classify, AfterEnqueue, AfterDequeue, ThreadShaped;
  }

  lemma QuietAdvance(m: Machine, h: History, t: nat, choice: Choice)
    requires Shaped(m) && Counters(m, h) && t < |m.threads| && Local(m, h, t)
    requires !Wins(m, t, choice)
    requires var pc := m.threads[t].pc;
             !(pc.Idle? || pc.EnqStoreData? || pc.EnqPublish? || pc.DeqLoadData? || pc.DeqRelease?)
    ensures var m' := Step(m, t, choice);
            var pc' := m'.threads[t].pc;
            && m' == m.(threads := m.threads[t := m'.threads[t]])
            && !(pc'.EnqStoreData? || pc'.EnqPublish? || pc'.DeqLoadData? || pc'.DeqRelease?)
            && Record(m, h, t, choice) == h && Local(m', h, t)
  {
    hide Begin, AfterEnqueue, AfterDequeue, ThreadShaped;
  }

  /** Every step of every thread keeps the invariant. */
  lemma StepInv(s: State, t: nat, choice: Choice)
    requires Inv(s) && t < |s.machine.threads|
    ensures Inv(Stepped(s, t, choice))
  {
    var m, h := s.machine, s.history;
    var m' := Step(m, t, choice);
    assert Local(m, h, t);
    var pc := m.threads[t].pc;
    if pc.EnqStoreData? {
      EnqueueStore(s, t, choice);
    } else if pc.EnqPublish? {
      EnqueuePublish(s, t, choice);
    } else if pc.DeqLoadData? {
      DequeueLoad(s, t, choice);
    } else if pc.DeqRelease? {
      DequeueRelease(s, t, choice);
    } else if !Wins(m, t, choice) {
      QuietShape(m, h, t, choice);
      QuietStep(s, t, m'.threads[t]);
    } else if pc.EnqCas? {
      EnqueueWin(s, t, choice);
    } else {
      DequeueWin(s, t, choice);
    }
  }

  /** The invariant holds after every schedule of every number of threads. */
  lemma {:induction false} RunInv(cap: nat, threads: nat, events: seq<Event>)
    requires cap >= 2 && Scheduled(events, threads)
    ensures Inv(Run(cap, threads, events))
  {
    if events == [] {
      InitInv(cap, threads);
    } else {
      var n := |events| - 1;
      RunInv(cap, threads, events[..n]);
      StepInv(Run(cap, threads, events[..n]), events[n].thread, events[n].choice);
    }
  }
}
