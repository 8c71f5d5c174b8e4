/** The ring on wrapping machine words, and why it behaves as the unbounded one.

    Counters, sequences and positions are words below 2^w; a cell is found by masking
    and the fail test is an unsigned subtraction, as in the program. */
module QueueWords {
  import opened QueueMachine
  import opened QueueInvariant
  import opened QueueTheorems
  import opened Bits

  /** The capacity test made before anything is allocated. */
  predicate AcceptsCapacity(size: nat, width: nat)
  {
    size >= 2 && And(size, size - 1) == 0 && size <= (Pow2(width) - 1) / 2
  }

  /** The accepted capacities are the powers of two from 2 up to a quarter of the
      word range. */
  lemma AcceptedCapacities(size: nat, width: nat)
    ensures AcceptsCapacity(size, width) <==>
            exists k: nat :: 1 <= k && k + 2 <= width && size == Pow2(k)
  {
    hide Pow2, And;
    if AcceptsCapacity(size, width) { var k := AcceptedIsPower(size, width); }
    if k: nat :| 1 <= k && k + 2 <= width && size == Pow2(k) { PowerIsAccepted(k, width); }
  }

  lemma AcceptedIsPower(size: nat, width: nat) returns (k: nat)
    requires AcceptsCapacity(size, width)
    ensures 1 <= k && k + 2 <= width && size == Pow2(k)
  {
    hide And;
    k := PassesTest(size);
    if k + 2 > width { Pow2Mono(width, k + 1); }
  }

  lemma PowerIsAccepted(k: nat, width: nat)
    requires 1 <= k && k + 2 <= width
    ensures AcceptsCapacity(Pow2(k), width)
  {
    hide And;
    PowerPasses(k);
    Pow2Mono(k + 2, width);
    assert Pow2(k + 2) == 2 * Pow2(k + 1) == 4 * Pow2(k);
  }

  lemma {:induction false} Pow2Mono(a: nat, b: nat)
    requires a <= b
    ensures Pow2(a) <= Pow2(b)
  {
    if a < b { Pow2Mono(a, b - 1); }
  }

  // --- The tests on words ----------------------------------------------------

  /** Unsigned subtraction of words below `range`. */
  function Minus(a: nat, b: nat, range: nat): nat
    requires range > 0
  {
    (a - b) % range
  }

  function ClassifyWords(expected: nat, sequence: nat, cap: nat, range: nat): Verdict
    requires range > 0
  {
    if sequence == expected then Claim
    else if Minus(expected, sequence, range) <= cap then Fail
    else Reload
  }

  lemma MinusReduced(a: nat, b: nat, range: nat)
    requires range > 0
    ensures Minus(a % range, b % range, range) == (a - b) % range
  {
    var q := a / range - b / range;
    assert a - b == (a % range - b % range) + q * range;
    IntModShift(a % range - b % range, q, range);
  }

  lemma IntModShift(x: int, q: int, range: nat)
    requires range > 0
    ensures (x + q * range) % range == x % range
  {
    var y := x + q * range;
    var d := y / range - x / range - q;
    assert y % range - x % range == -d * range;
    if d > 0 { MulMono(range, 1, d); }
  }

  lemma ResidueOfNegative(d: nat, range: nat)
    requires range > 0
    ensures (0 - d) % range == if d % range == 0 then 0 else range - d % range
  {
    var r := d % range;
    assert 0 - d == (0 - r) + (0 - d / range) * range;
    IntModShift(0 - r, 0 - d / range, range);
    if r > 0 { IntModShift(0 - r, 1, range); SmallMod(range - r, range); } else { SmallMod(0, range); }
  }

  lemma SmallMod(x: nat, range: nat)
    requires x < range
    ensures x % range == x
  {
    DivModUnique(x, range, 0, x);
  }

  /** On words the test classifies exactly as on unbounded counters when the expected
      position is not behind the cell; when it lags by d > 0, it does so exactly when d
      reduces to something positive and below range - cap. */
  lemma ClassifyExact(expected: nat, sequence: nat, cap: nat, range: nat)
    requires cap < range
    requires sequence < expected ==> expected - sequence <= cap
    ensures ClassifyWords(expected % range, sequence % range, cap, range) == Classify(expected, sequence, cap)
            <==> (sequence > expected ==> 0 < (sequence - expected) % range < range - cap)
  {
    MinusReduced(expected, sequence, range);
    if sequence <= expected {
      SmallMod(expected - sequence, range);
    } else {
      ResidueOfNegative(sequence - expected, range);
      MinusReduced(sequence, expected, range);
    }
    if sequence % range == expected % range {
      SmallMod(0, range);
    }
  }

  // --- The machine on words --------------------------------------------------

  /** The machine as the program stores it: every counter reduced to a word. */
  function Wrap(m: Machine, range: nat): Machine
    requires range > 0
  {
    Machine(m.cap, m.head % range, m.tail % range,
            seq(|m.cells|, i requires 0 <= i < |m.cells| => WrapCell(m.cells[i], range)),
            seq(|m.threads|, t requires 0 <= t < |m.threads| => WrapThread(m.threads[t], range)))
  }

  function WrapCell(c: Cell, range: nat): Cell
    requires range > 0
  {
    Cell(c.sequence % range, c.data)
  }

  function WrapThread(th: Thread, range: nat): Thread
    requires range > 0
  {
    th.(pc := WrapPc(th.pc, range))
  }

  function WrapPc(pc: Pc, range: nat): Pc
    requires range > 0
  {
    match pc
    case EnqLoadSequence(p) => EnqLoadSequence(p % range)
    case EnqCas(p) => EnqCas(p % range)
    case EnqStoreData(p) => EnqStoreData(p % range)
    case EnqPublish(p) => EnqPublish(p % range)
    case DeqLoadSequence(p) => DeqLoadSequence(p % range)
    case DeqCas(p) => DeqCas(p % range)
    case DeqLoadData(p) => DeqLoadData(p % range)
    case DeqRelease(p, v) => DeqRelease(p % range, v)
    case SizeLoadHead(x) => SizeLoadHead(x % range)
    case _ => pc
  }

  function Index(m: Machine, p: nat): nat
    requires m.cap >= 2
  {
    And(p, m.cap - 1)
  }

  /** One step of thread t, with the program's word arithmetic. */
  function WordStep(m: Machine, t: nat, choice: Choice, range: nat): (r: Machine)
    requires Shaped(m) && t < |m.threads| && range > 0
    ensures Shaped(r) && |r.threads| == |m.threads|
  {
    var th := m.threads[t];
    match th.pc
    case Idle => m.(threads := m.threads[t := Begin(th, choice)])

    case EnqLoadHead => WithPc(m, t, EnqLoadSequence(m.head))
    case EnqLoadSequence(pos) =>
      (match ClassifyWords(pos, m.cells[Index(m, pos)].sequence, m.cap, range)
       case Claim => WithPc(m, t, EnqCas(pos))
       case Fail => WithPc(m, t, Idle)
       case Reload => WithPc(m, t, EnqLoadHead))
    case EnqCas(pos) =>
      if m.head == pos && !(choice.Advance? && choice.spurious)
      then WithPc(m.(head := (pos + 1) % range), t, EnqStoreData(pos))
      else WithPc(m, t, EnqLoadSequence(m.head))
    case EnqStoreData(pos) =>
      var i := Index(m, pos);
      WithPc(m.(cells := m.cells[i := m.cells[i].(data := th.call.items[th.call.done])]), t, EnqPublish(pos))
    case EnqPublish(pos) =>
      var i := Index(m, pos);
      m.(cells := m.cells[i := m.cells[i].(sequence := (pos + 1) % range)],
         threads := m.threads[t := AfterEnqueue(th)])

    case DeqLoadTail => WithPc(m, t, DeqLoadSequence(m.tail))
    case DeqLoadSequence(pos) =>
      (match ClassifyWords((pos + 1) % range, m.cells[Index(m, pos)].sequence, m.cap, range)
       case Claim => WithPc(m, t, DeqCas(pos))
       case Fail => WithPc(m, t, Idle)
       case Reload => WithPc(m, t, DeqLoadTail))
    case DeqCas(pos) =>
      if m.tail == pos && !(choice.Advance? && choice.spurious)
      then WithPc(m.(tail := (pos + 1) % range), t, DeqLoadData(pos))
      else WithPc(m, t, DeqLoadSequence(m.tail))
    case DeqLoadData(pos) => WithPc(m, t, DeqRelease(pos, m.cells[Index(m, pos)].data))
    case DeqRelease(pos, value) =>
      var i := Index(m, pos);
      m.(cells := m.cells[i := m.cells[i].(sequence := (pos + m.cap) % range)],
         threads := m.threads[t := AfterDequeue(th, value)])

    case SizeLoadTail => WithPc(m, t, SizeLoadHead(m.tail))
    case SizeLoadHead(sampled) =>
      var size := Minus(m.head, sampled, range);
      m.(threads := m.threads[t := th.(pc := Idle, call := Size(if size > m.cap then m.cap else size))])
  }

  /** Thread t has not slept through a wrap of the counters: its position lags the
      cell it loads by less than range - cap, and the counter it compares with by
      less than range. */
  ghost predicate Timely(m: Machine, t: nat, range: nat)
    requires Shaped(m) && t < |m.threads|
  {
    match m.threads[t].pc
    case EnqLoadSequence(p) => SequenceAt(m, p) + m.cap < p + range
    case EnqCas(p) => m.head < p + range
    case DeqLoadSequence(p) => SequenceAt(m, p) + m.cap < p + 1 + range
    case DeqCas(p) => m.tail < p + range
    case SizeLoadHead(x) => m.head < x + range
    case _ => true
  }

  lemma WrapShaped(m: Machine, range: nat)
    requires Shaped(m) && range > 0
    ensures Shaped(Wrap(m, range))
  {
    var w := Wrap(m, range);
    forall t | 0 <= t < |m.threads| ensures ThreadShaped(w.threads[t]) {
      assert ThreadShaped(m.threads[t]);
    }
  }

  /** The mask finds the cell of the unbounded position: the capacity divides the range. */
  lemma MaskFindsCell(p: nat, k: nat, width: nat)
    requires k <= width
    ensures And(p % Pow2(width), Pow2(k) - 1) == p % Pow2(k)
  {
    var cap, range := Pow2(k), Pow2(width);
    AndMask(p % range, k);
    var f := PowDivides(k, width);
    ModOfMod(p, cap, f);
  }

  lemma ModOfMod(p: nat, cap: nat, f: nat)
    requires cap > 0 && f > 0
    ensures f * cap > 0 && (p % (f * cap)) % cap == p % cap
  {
    MulMono(cap, 1, f);
    var q, r := p / (f * cap), p % (f * cap);
    var q', r' := r / cap, r % cap;
    Regroup(f, cap, q);
    Regroup(cap, f * q, q');
    DivModUnique(p, cap, f * q + q', r');
  }

  lemma Regroup(a: nat, b: nat, c: nat)
    ensures (a * b) * c == b * (a * c) && a * (b + c) == a * b + a * c
  {
  }

  lemma {:induction false} PowDivides(k: nat, width: nat) returns (f: nat)
    requires k <= width
    ensures f > 0 && Pow2(width) == f * Pow2(k)
  {
    if k == width {
      f := 1;
    } else {
      var g := PowDivides(k, width - 1);
      f := 2 * g;
    }
  }

  lemma SumReduced(a: nat, b: nat, range: nat)
    requires range > 0
    ensures (a % range + b) % range == (a + b) % range
  {
    assert a + b == (a % range + b) + (a / range) * range;
    ModAddMultiple(a % range + b, a / range, range);
  }

  /** Equality of words is equality of counters that are less than a range apart. */
  lemma EqualWords(a: nat, b: nat, range: nat)
    requires range > 0 && b <= a < b + range
    ensures a % range == b % range <==> a == b
  {
    if a % range == b % range { SameResidue(a, b, range); }
  }

  lemma WrapSetThread(m: Machine, t: nat, th: Thread, range: nat)
    requires range > 0 && t < |m.threads|
    ensures Wrap(m.(threads := m.threads[t := th]), range)
            == Wrap(m, range).(threads := Wrap(m, range).threads[t := WrapThread(th, range)])
  {
  }

  lemma WrapSetCell(m: Machine, i: nat, c: Cell, range: nat)
    requires range > 0 && i < |m.cells|
    ensures Wrap(m.(cells := m.cells[i := c]), range)
            == Wrap(m, range).(cells := Wrap(m, range).cells[i := WrapCell(c, range)])
  {
  }

  /** The three-way test comes out the same on words and on unbounded counters. */
  lemma VerdictOnWords(s: State, t: nat, range: nat)
    requires Inv(s) && t < |s.machine.threads| && s.machine.cap < range && Timely(s.machine, t, range)
    requires s.machine.threads[t].pc.EnqLoadSequence? || s.machine.threads[t].pc.DeqLoadSequence?
    ensures var m, pc := s.machine, s.machine.threads[t].pc;
            var expected := if pc.EnqLoadSequence? then pc.pos else pc.pos + 1;
            ClassifyWords(expected % range, SequenceAt(m, pc.pos) % range, m.cap, range)
            == Classify(expected, SequenceAt(m, pc.pos), m.cap)
  {
    var m, pc := s.machine, s.machine.threads[t].pc;
    var x := SequenceAt(m, pc.pos);
    var expected := if pc.EnqLoadSequence? then pc.pos else pc.pos + 1;
    if pc.EnqLoadSequence? { EnqueueVerdict(s, t); } else { DequeueVerdict(s, t); }
    LagsAtMostCapacity(s, t);
    if x > expected { SmallMod(x - expected, range); }
    ClassifyExact(expected, x, m.cap, range);
  }

  /** A cell never runs more than a capacity behind a position that consults it. */
  lemma LagsAtMostCapacity(s: State, t: nat)
    requires Inv(s) && t < |s.machine.threads|
    requires s.machine.threads[t].pc.EnqLoadSequence? || s.machine.threads[t].pc.DeqLoadSequence?
    ensures var m, pc := s.machine, s.machine.threads[t].pc;
            (if pc.EnqLoadSequence? then pc.pos else pc.pos + 1) <= SequenceAt(m, pc.pos) + m.cap
  {
    var m, h, pos := s.machine, s.history, s.machine.threads[t].pc.pos;
    var i := pos % m.cap;
    assert Local(m, h, t);
    assert FreeCell(m, h, i) || FilledCell(m, h, i);
  }

  /** Replacing a cell and a thread commutes with wrapping. */
  lemma WrapSetBoth(m: Machine, i: nat, c: Cell, t: nat, th: Thread, range: nat)
    requires range > 0 && i < |m.cells| && t < |m.threads|
    ensures Wrap(m.(cells := m.cells[i := c], threads := m.threads[t := th]), range)
            == Wrap(m, range).(cells := Wrap(m, range).cells[i := WrapCell(c, range)],
                               threads := Wrap(m, range).threads[t := WrapThread(th, range)])
  {
    WrapSetCell(m, i, c, range);
    WrapSetThread(m.(cells := m.cells[i := c]), t, th, range);
  }

  /** The setting of one simulated step: a machine and thread t of its wrapped image. */
  ghost predicate Image(m: Machine, t: nat, k: nat, width: nat)
  {
    && Shaped(m) && t < |m.threads| && k <= width && m.cap == Pow2(k)
    && Shaped(Wrap(m, Pow2(width)))
  }

  lemma StoreOnWords(m: Machine, t: nat, choice: Choice, k: nat, width: nat)
    requires Image(m, t, k, width) && m.threads[t].pc.EnqStoreData?
    ensures WordStep(Wrap(m, Pow2(width)), t, choice, Pow2(width)) == Wrap(Step(m, t, choice), Pow2(width))
  {
    hide And, Pow2, Classify, ClassifyWords, Begin;
    var range, pos, th := Pow2(width), m.threads[t].pc.pos, m.threads[t];
    var i := pos % m.cap;
    MaskFindsCell(pos, k, width);
    WrapSetBoth(m, i, m.cells[i].(data := th.call.items[th.call.done]), t, th.(pc := EnqPublish(pos)), range);
  }

  lemma PublishOnWords(m: Machine, t: nat, choice: Choice, k: nat, width: nat)
    requires Image(m, t, k, width) && m.threads[t].pc.EnqPublish?
    ensures WordStep(Wrap(m, Pow2(width)), t, choice, Pow2(width)) == Wrap(Step(m, t, choice), Pow2(width))
  {
    hide And, Pow2, Classify, ClassifyWords, Begin;
    var range, pos, th := Pow2(width), m.threads[t].pc.pos, m.threads[t];
    var i := pos % m.cap;
    MaskFindsCell(pos, k, width);
    SumReduced(pos, 1, range);
    WrapSetBoth(m, i, m.cells[i].(sequence := pos + 1), t, AfterEnqueue(th), range);
  }

  lemma ReleaseOnWords(m: Machine, t: nat, choice: Choice, k: nat, width: nat)
    requires Image(m, t, k, width) && m.threads[t].pc.DeqRelease?
    ensures WordStep(Wrap(m, Pow2(width)), t, choice, Pow2(width)) == Wrap(Step(m, t, choice), Pow2(width))
  {
    hide And, Pow2, Classify, ClassifyWords, Begin;
    var range, pos, th := Pow2(width), m.threads[t].pc.pos, m.threads[t];
    var i := pos % m.cap;
    MaskFindsCell(pos, k, width);
    SumReduced(pos, m.cap, range);
    WrapSetBoth(m, i, m.cells[i].(sequence := pos + m.cap), t, AfterDequeue(th, th.pc.value), range);
  }

  lemma LoadOnWords(m: Machine, t: nat, choice: Choice, k: nat, width: nat)
    requires Image(m, t, k, width) && m.threads[t].pc.DeqLoadData?
    ensures WordStep(Wrap(m, Pow2(width)), t, choice, Pow2(width)) == Wrap(Step(m, t, choice), Pow2(width))
  {
    hide And, Pow2, Classify, ClassifyWords, Begin;
    var range, pos, th := Pow2(width), m.threads[t].pc.pos, m.threads[t];
    MaskFindsCell(pos, k, width);
    WrapSetThread(m, t, th.(pc := DeqRelease(pos, m.cells[pos % m.cap].data)), range);
  }

  lemma EnqTestOnWords(m: Machine, t: nat, choice: Choice, k: nat, width: nat)
    requires Image(m, t, k, width) && m.threads[t].pc.EnqLoadSequence?
    requires var range, pos := Pow2(width), m.threads[t].pc.pos;
             ClassifyWords(pos % range, SequenceAt(m, pos) % range, m.cap, range)
             == Classify(pos, SequenceAt(m, pos), m.cap)
    ensures WordStep(Wrap(m, Pow2(width)), t, choice, Pow2(width)) == Wrap(Step(m, t, choice), Pow2(width))
  {
    hide And, Pow2, Classify, ClassifyWords, Begin, AfterEnqueue, AfterDequeue, ThreadShaped;
    var pos := m.threads[t].pc.pos;
    MaskFindsCell(pos, k, width);
    WrapSetThread(m, t, Step(m, t, choice).threads[t], Pow2(width));
  }

  lemma DeqTestOnWords(m: Machine, t: nat, choice: Choice, k: nat, width: nat)
    requires Image(m, t, k, width) && m.threads[t].pc.DeqLoadSequence?
    requires var range, pos := Pow2(width), m.threads[t].pc.pos;
             ClassifyWords((pos + 1) % range, SequenceAt(m, pos) % range, m.cap, range)
             == Classify(pos + 1, SequenceAt(m, pos), m.cap)
    ensures WordStep(Wrap(m, Pow2(width)), t, choice, Pow2(width)) == Wrap(Step(m, t, choice), Pow2(width))
  {
    hide And, Pow2, Classify, ClassifyWords, Begin, AfterEnqueue, AfterDequeue, ThreadShaped;
    var pos := m.threads[t].pc.pos;
    MaskFindsCell(pos, k, width);
    SumReduced(pos, 1, Pow2(width));
    WrapSetThread(m, t, Step(m, t, choice).threads[t], Pow2(width));
  }

  lemma CounterOnWords(m: Machine, h: History, t: nat, choice: Choice, k: nat, width: nat)
    requires Image(m, t, k, width) && Timely(m, t, Pow2(width)) && Counters(m, h) && Local(m, h, t)
    requires var pc := m.threads[t].pc;
             pc.EnqCas? || pc.DeqCas? || pc.SizeLoadHead? || pc.SizeLoadTail? || pc.EnqLoadHead? || pc.DeqLoadTail?
    ensures WordStep(Wrap(m, Pow2(width)), t, choice, Pow2(width)) == Wrap(Step(m, t, choice), Pow2(width))
  {
    hide And, Pow2, Classify, ClassifyWords, Begin, AfterEnqueue, AfterDequeue, ThreadShaped;
    var range, th, m' := Pow2(width), m.threads[t], Step(m, t, choice);
    if th.pc.EnqCas? {
      EqualWords(m.head, th.pc.pos, range);
      SumReduced(th.pc.pos, 1, range);
    } else if th.pc.DeqCas? {
      EqualWords(m.tail, th.pc.pos, range);
      SumReduced(th.pc.pos, 1, range);
    } else if th.pc.SizeLoadHead? {
      MinusReduced(m.head, th.pc.sampled, range);
      SmallMod(m.head - th.pc.sampled, range);
    }
    WrapSetThread(m.(head := m'.head, tail := m'.tail), t, m'.threads[t], range);
  }

  /** A step on words is the wrapped image of the step on unbounded counters. */
  lemma WordStepSimulates(s: State, t: nat, choice: Choice, k: nat, width: nat)
    requires Inv(s) && t < |s.machine.threads| && 1 <= k && k + 2 <= width && s.machine.cap == Pow2(k)
    requires Timely(s.machine, t, Pow2(width))
    ensures Shaped(Wrap(s.machine, Pow2(width)))
    ensures WordStep(Wrap(s.machine, Pow2(width)), t, choice, Pow2(width))
            == Wrap(Step(s.machine, t, choice), Pow2(width))
  {
    var m, range := s.machine, Pow2(width);
    WrapShaped(m, range);
    Pow2Mono(k + 1, width);
    var pc := m.threads[t].pc;
    if pc.EnqStoreData? {
      StoreOnWords(m, t, choice, k, width);
    } else if pc.EnqPublish? {
      PublishOnWords(m, t, choice, k, width);
    } else if pc.DeqLoadData? {
      LoadOnWords(m, t, choice, k, width);
    } else if pc.DeqRelease? {
      ReleaseOnWords(m, t, choice, k, width);
    } else if pc.EnqLoadSequence? || pc.DeqLoadSequence? {
      VerdictOnWords(s, t, range);
      if pc.EnqLoadSequence? { EnqTestOnWords(m, t, choice, k, width); } else { DeqTestOnWords(m, t, choice, k, width); }
    } else if pc.Idle? {
      WrapSetThread(m, t, Begin(m.threads[t], choice), range);
    } else {
      assert Local(m, s.history, t);
      CounterOnWords(m, s.history, t, choice, k, width);
    }
  }

  // --- Whole runs ------------------------------------------------------------

  /** The word machine's own run. */
  function WordRun(cap: nat, threads: nat, events: seq<Event>, range: nat): (m: Machine)
    requires cap >= 2 && range > 0 && Scheduled(events, threads)
    ensures Shaped(m) && |m.threads| == threads
  {
    if events == [] then
      WrapShaped(Init(cap, threads), range);
      Wrap(Init(cap, threads), range)
    else
      var n := |events| - 1;
      WordStep(WordRun(cap, threads, events[..n], range), events[n].thread, events[n].choice, range)
  }

  /** No thread takes a step after sleeping through a wrap. */
  ghost predicate TimelyRun(cap: nat, threads: nat, events: seq<Event>, range: nat)
    requires cap >= 2 && Scheduled(events, threads)
  {
    forall n :: 0 <= n < |events| ==>
      Timely(Run(cap, threads, events[..n]).machine, events[n].thread, range)
  }

  /** Over every schedule in which no thread sleeps through a wrap, the program's words
      are the unbounded run reduced modulo the range; calls and results are equal. */
  lemma {:induction false} WordRunSimulates(threads: nat, events: seq<Event>, k: nat, width: nat)
    requires 1 <= k && k + 2 <= width && Scheduled(events, threads)
    requires Pow2(k) >= 2 && TimelyRun(Pow2(k), threads, events, Pow2(width))
    ensures WordRun(Pow2(k), threads, events, Pow2(width))
            == Wrap(Run(Pow2(k), threads, events).machine, Pow2(width))
  {
    var cap, range := Pow2(k), Pow2(width);
    if events != [] {
      var n := |events| - 1;
      var prefix := events[..n];
      forall i | 0 <= i < |prefix|
        ensures Timely(Run(cap, threads, prefix[..i]).machine, prefix[i].thread, range)
      {
        assert prefix[..i] == events[..i];
        assert Timely(Run(cap, threads, events[..i]).machine, events[i].thread, range);
      }
      WordRunSimulates(threads, prefix, k, width);
      RunInv(cap, threads, prefix);
      assert Timely(Run(cap, threads, events[..n]).machine, events[n].thread, range);
      WordStepSimulates(Run(cap, threads, prefix), events[n].thread, events[n].choice, k, width);
    }
  }
}
