/** The bounded multi-producer multi-consumer ring as a transition system.

    Any number of threads run enqueue, dequeue and size calls (the bulk forms are
    calls over several items). Every access to a shared variable is one step of one
    thread: load a counter, load a cell's sequence, compare-and-swap a counter,
    touch a cell's data, publish a sequence. Counters are unbounded here;
    QueueWords relates them to the wrapping words of the program. */
module QueueMachine {

  /** What a cell stores: the caller's opaque pointer. */
  datatype Pointer = Null | At(address: nat)

  datatype Cell = Cell(sequence: nat, data: Pointer)

  /** Program counter of a thread, with the locals that are live there. */
  datatype Pc =
    | Idle
    | EnqLoadHead
    | EnqLoadSequence(pos: nat)
    | EnqCas(pos: nat)
    | EnqStoreData(pos: nat)
    | EnqPublish(pos: nat)
    | DeqLoadTail
    | DeqLoadSequence(pos: nat)
    | DeqCas(pos: nat)
    | DeqLoadData(pos: nat)
    | DeqRelease(pos: nat, value: Pointer)
    | SizeLoadTail
    | SizeLoadHead(sampled: nat)

  /** The call a thread is in, or the last one it finished, with its result. */
  datatype Call =
    | NoCall
    | Enqueue(items: seq<Pointer>, done: nat)
    | Dequeue(want: nat, out: seq<Pointer>)
    | Size(answer: nat)

  /** `calls` counts the calls this thread has begun. */
  datatype Thread = Thread(pc: Pc, call: Call, calls: nat)

  datatype Machine = Machine(cap: nat, head: nat, tail: nat, cells: seq<Cell>, threads: seq<Thread>)

  /** What the environment decides at a step: which call an idle thread begins, and
      whether a weak compare-and-swap fails spuriously. */
  datatype Choice =
    | BeginEnqueue(items: seq<Pointer>)
    | BeginDequeue(want: nat)
    | BeginSize
    | Advance(spurious: bool)

  /** The three-way test both retry loops make on the sequence they loaded. */
  datatype Verdict = Claim | Fail | Reload

  /** The test on unbounded counters: `expected` is the sequence that permits a claim. */
  function Classify(expected: nat, sequence: nat, cap: nat): Verdict
  {
    if sequence == expected then Claim
    else if sequence < expected && expected - sequence <= cap then Fail
    else Reload
  }

  ghost predicate Shaped(m: Machine)
  {
    && m.cap >= 2
    && |m.cells| == m.cap
    && forall t :: 0 <= t < |m.threads| ==> ThreadShaped(m.threads[t])
  }

  /** A thread's program counter and its call agree. */
  ghost predicate ThreadShaped(th: Thread)
  {
    match th.pc
    case Idle => true
    case EnqLoadHead => th.call.Enqueue? && th.call.done < |th.call.items|
    case EnqLoadSequence(_) => th.call.Enqueue? && th.call.done < |th.call.items|
    case EnqCas(_) => th.call.Enqueue? && th.call.done < |th.call.items|
    case EnqStoreData(_) => th.call.Enqueue? && th.call.done < |th.call.items|
    case EnqPublish(_) => th.call.Enqueue? && th.call.done < |th.call.items|
    case DeqLoadTail => th.call.Dequeue? && |th.call.out| < th.call.want
    case DeqLoadSequence(_) => th.call.Dequeue? && |th.call.out| < th.call.want
    case DeqCas(_) => th.call.Dequeue? && |th.call.out| < th.call.want
    case DeqLoadData(_) => th.call.Dequeue? && |th.call.out| < th.call.want
    case DeqRelease(_, _) => th.call.Dequeue? && |th.call.out| < th.call.want
    case SizeLoadTail => th.call.Size?
    case SizeLoadHead(_) => th.call.Size?
  }

  /** The freshly initialized queue, with every thread idle. */
  function Init(cap: nat, threads: nat): (m: Machine)
    requires cap >= 2
    ensures Shaped(m)
  {
    Machine(cap, 0, 0, seq(cap, (i: nat) => Cell(i, Null)), seq(threads, _ => Thread(Idle, NoCall, 0)))
  }

  /** What thread `th` becomes when it begins the chosen call. */
  function Begin(th: Thread, choice: Choice): Thread
  {
    match choice
    case BeginEnqueue(items) =>
      Thread(if items == [] then Idle else EnqLoadHead, Enqueue(items, 0), th.calls + 1)
    case BeginDequeue(want) =>
      Thread(if want == 0 then Idle else DeqLoadTail, Dequeue(want, []), th.calls + 1)
    case BeginSize =>
      Thread(SizeLoadTail, Size(0), th.calls + 1)
    case Advance(_) => th
  }

  function WithPc(m: Machine, t: nat, pc: Pc): Machine
    requires t < |m.threads|
  {
    m.(threads := m.threads[t := m.threads[t].(pc := pc)])
  }

  /** After a publish the bulk loop takes the next item or returns. */
  function AfterEnqueue(th: Thread): Thread
    requires th.call.Enqueue?
  {
    var done := th.call.done + 1;
    th.(pc := if done < |th.call.items| then EnqLoadHead else Idle, call := Enqueue(th.call.items, done))
  }

  function AfterDequeue(th: Thread, value: Pointer): Thread
    requires th.call.Dequeue?
  {
    var out := th.call.out + [value];
    th.(pc := if |out| < th.call.want then DeqLoadTail else Idle, call := Dequeue(th.call.want, out))
  }

  /** One step of thread t. */
  function Step(m: Machine, t: nat, choice: Choice): (r: Machine)
    requires Shaped(m) && t < |m.threads|
    ensures Shaped(r) && r.cap == m.cap && |r.threads| == |m.threads|
    ensures forall u :: 0 <= u < |m.threads| && u != t ==> r.threads[u] == m.threads[u]
  {
    var th := m.threads[t];
    match th.pc
    case Idle => m.(threads := m.threads[t := Begin(th, choice)])

    case EnqLoadHead => WithPc(m, t, EnqLoadSequence(m.head))
    case EnqLoadSequence(pos) =>
      (match Classify(pos, m.cells[pos % m.cap].sequence, m.cap)
       case Claim => WithPc(m, t, EnqCas(pos))
       case Fail => WithPc(m, t, Idle)
       case Reload => WithPc(m, t, EnqLoadHead))
    case EnqCas(pos) =>
      if m.head == pos && !(choice.Advance? && choice.spurious)
      then WithPc(m.(head := pos + 1), t, EnqStoreData(pos))
      else WithPc(m, t, EnqLoadSequence(m.head))
    case EnqStoreData(pos) =>
      var i := pos % m.cap;
      WithPc(m.(cells := m.cells[i := m.cells[i].(data := th.call.items[th.call.done])]), t, EnqPublish(pos))
    case EnqPublish(pos) =>
      var i := pos % m.cap;
      m.(cells := m.cells[i := m.cells[i].(sequence := pos + 1)],
         threads := m.threads[t := AfterEnqueue(th)])

    case DeqLoadTail => WithPc(m, t, DeqLoadSequence(m.tail))
    case DeqLoadSequence(pos) =>
      (match Classify(pos + 1, m.cells[pos % m.cap].sequence, m.cap)
       case Claim => WithPc(m, t, DeqCas(pos))
       case Fail => WithPc(m, t, Idle)
       case Reload => WithPc(m, t, DeqLoadTail))
    case DeqCas(pos) =>
      if m.tail == pos && !(choice.Advance? && choice.spurious)
      then WithPc(m.(tail := pos + 1), t, DeqLoadData(pos))
      else WithPc(m, t, DeqLoadSequence(m.tail))
    case DeqLoadData(pos) => WithPc(m, t, DeqRelease(pos, m.cells[pos % m.cap].data))
    case DeqRelease(pos, value) =>
      var i := pos % m.cap;
      m.(cells := m.cells[i := m.cells[i].(sequence := pos + m.cap)],
         threads := m.threads[t := AfterDequeue(th, value)])

    case SizeLoadTail => WithPc(m, t, SizeLoadHead(m.tail))
    case SizeLoadHead(sampled) =>
      var size := if m.head >= sampled then m.head - sampled else 0;
      m.(threads := m.threads[t := th.(pc := Idle, call := Size(if size > m.cap then m.cap else size))])
  }

  // --- Observed history ----------------------------------------------------

  /** Which call of which thread. */
  datatype Tag = Tag(thread: nat, call: nat)

  /** What an observer records: the enqueued values in the order their producers
      won the head, the dequeuing calls in the order they won the tail, what each
      dequeued position yielded, and who currently holds a claimed cell. */
  datatype History = History(
    enqueued: seq<Pointer>, enqueuers: seq<Tag>,
    dequeuers: seq<Tag>, got: map<nat, Pointer>,
    producers: map<nat, nat>, consumers: map<nat, nat>)

  const NoHistory := History([], [], [], map[], map[], map[])

  predicate Wins(m: Machine, t: nat, choice: Choice)
    requires t < |m.threads|
  {
    && !(choice.Advance? && choice.spurious)
    && match m.threads[t].pc
       case EnqCas(pos) => m.head == pos
       case DeqCas(pos) => m.tail == pos
       case _ => false
  }

  /** How the record changes when thread t steps. */
  function Record(m: Machine, h: History, t: nat, choice: Choice): History
    requires Shaped(m) && t < |m.threads|
  {
    var th := m.threads[t];
    match th.pc
    case EnqCas(pos) =>
      if !Wins(m, t, choice) then h else
      h.(enqueued := h.enqueued + [th.call.items[th.call.done]],
         enqueuers := h.enqueuers + [Tag(t, th.calls)],
         producers := h.producers[pos := t])
    case EnqPublish(pos) => h.(producers := h.producers - {pos})
    case DeqCas(pos) =>
      if !Wins(m, t, choice) then h else
      h.(dequeuers := h.dequeuers + [Tag(t, th.calls)],
         consumers := h.consumers[pos := t])
    case DeqLoadData(pos) => h.(got := h.got[pos := m.cells[pos % m.cap].data])
    case DeqRelease(pos, _) => h.(consumers := h.consumers - {pos})
    case _ => h
  }

  /** A machine together with what has been observed of its run. */
  datatype State = State(machine: Machine, history: History)

  datatype Event = Event(thread: nat, choice: Choice)

  ghost predicate Scheduled(events: seq<Event>, threads: nat)
  {
    forall i :: 0 <= i < |events| ==> events[i].thread < threads
  }

  /** The state after a whole schedule, from initialization. */
  function Run(cap: nat, threads: nat, events: seq<Event>): (s: State)
    requires cap >= 2 && Scheduled(events, threads)
    ensures Shaped(s.machine) && s.machine.cap == cap && |s.machine.threads| == threads
  {
    if events == [] then State(Init(cap, threads), NoHistory)
    else
      var n := |events| - 1;
      var s := Run(cap, threads, events[..n]);
      State(Step(s.machine, events[n].thread, events[n].choice),
            Record(s.machine, s.history, events[n].thread, events[n].choice))
  }
}
