/** When calls end: never short unless they may fail, and always if left alone. */
module QueueProgress {
  import opened QueueMachine
  import opened QueueInvariant
  import opened QueueTheorems

  predicate Enqueuing(pc: Pc)
  {
    pc.EnqLoadHead? || pc.EnqLoadSequence? || pc.EnqCas? || pc.EnqStoreData? || pc.EnqPublish?
  }

  predicate Dequeuing(pc: Pc)
  {
    pc.DeqLoadTail? || pc.DeqLoadSequence? || pc.DeqCas? || pc.DeqLoadData? || pc.DeqRelease?
  }

  /** The call has returned with fewer items than it was given. */
  predicate EnqueueShort(th: Thread)
  {
    th.pc.Idle? && th.call.Enqueue? && th.call.done < |th.call.items|
  }

  predicate DequeueShort(th: Thread)
  {
    th.pc.Idle? && th.call.Dequeue? && |th.call.out| < th.call.want
  }

  /** Thread t is about to find the cell of the head still occupied one lap back. */
  ghost predicate FindsOccupied(s: State, t: nat)
    requires t < |s.machine.threads|
  {
    var m := s.machine;
    m.threads[t].pc == EnqLoadSequence(m.head) && m.head >= m.cap && Occupied(s, m.head - m.cap)
  }

  /** Thread t is about to find the tail not yet published. */
  ghost predicate FindsUnpublished(s: State, t: nat)
    requires t < |s.machine.threads|
  {
    s.machine.threads[t].pc == DeqLoadSequence(s.machine.tail) && !Published(s, s.machine.tail)
  }

  // --- When a call ends short ------------------------------------------------

  /** A step ends an enqueue call short if and only if it finds the head's cell occupied: a
      stale position, a lost and a spuriously failed compare-and-swap are all retried, and
      the bulk loop goes on after each item. */
  lemma EnqueueStops(s: State, t: nat, choice: Choice)
    requires Inv(s) && t < |s.machine.threads| && Enqueuing(s.machine.threads[t].pc)
    ensures EnqueueShort(Step(s.machine, t, choice).threads[t]) <==> FindsOccupied(s, t)
  {
    hide Cells, Claims, Handed, Occupied;
    var m := s.machine;
    assert ThreadShaped(m.threads[t]);
    if m.threads[t].pc.EnqLoadSequence? { EnqueueVerdict(s, t); }
  }

  lemma DequeueStops(s: State, t: nat, choice: Choice)
    requires Inv(s) && t < |s.machine.threads| && Dequeuing(s.machine.threads[t].pc)
    ensures DequeueShort(Step(s.machine, t, choice).threads[t]) <==> FindsUnpublished(s, t)
  {
    hide Cells, Claims, Handed, Published;
    var m := s.machine;
    assert ThreadShaped(m.threads[t]);
    if m.threads[t].pc.DeqLoadSequence? { DequeueVerdict(s, t); }
  }

  /** Event n of a run is the step of thread t that found the cell occupied, in the call the
      thread was in then. */
  ghost predicate GaveUpAt(cap: nat, threads: nat, events: seq<Event>, n: nat, t: nat, calls: nat)
    requires cap >= 2 && Scheduled(events, threads) && t < threads && n < |events|
  {
    var s := Run(cap, threads, events[..n]);
    && events[n].thread == t && s.machine.threads[t].calls == calls
    && (FindsOccupied(s, t) || FindsUnpublished(s, t))
  }

  lemma GaveUpEarlier(cap: nat, threads: nat, events: seq<Event>, n: nat, t: nat, calls: nat)
    requires cap >= 2 && Scheduled(events, threads) && t < threads && events != [] && n < |events| - 1
    requires GaveUpAt(cap, threads, events[..|events| - 1], n, t, calls)
    ensures GaveUpAt(cap, threads, events, n, t, calls)
  {
    assert events[..|events| - 1][..n] == events[..n];
  }

  /** A thread that goes on in a call, or idles, is in the same call as before. */
  lemma SameCall(m: Machine, t: nat, choice: Choice)
    requires Shaped(m) && t < |m.threads|
    requires !m.threads[t].pc.Idle? || choice.Advance?
    ensures var th, th' := m.threads[t], Step(m, t, choice).threads[t];
            && th'.calls == th.calls
            && (Enqueuing(th.pc) ==> th'.call.Enqueue? && th'.call.items == th.call.items
                                     && (th'.pc.Idle? || Enqueuing(th'.pc)))
            && (Dequeuing(th.pc) ==> th'.call.Dequeue? && th'.call.want == th.call.want
                                     && (th'.pc.Idle? || Dequeuing(th'.pc)))
            && (th.pc.Idle? ==> th' == th)
            && (!th.pc.Idle? && !Enqueuing(th.pc) && !Dequeuing(th.pc) ==> th'.call.Size?)
  {
    assert ThreadShaped(m.threads[t]);
  }

  /** In every run, a call that returned with fewer items than it was given met the one
      condition under which it may: an enqueue found the head's cell occupied one lap back,
      a dequeue found the tail unpublished. */
  lemma {:induction false} ShortCallsGaveUp(cap: nat, threads: nat, events: seq<Event>, t: nat)
    requires cap >= 2 && Scheduled(events, threads) && t < threads
    requires var th := Run(cap, threads, events).machine.threads[t]; EnqueueShort(th) || DequeueShort(th)
    ensures exists n :: 0 <= n < |events|
                        && GaveUpAt(cap, threads, events, n, t, Run(cap, threads, events).machine.threads[t].calls)
  {
    if events != [] {
      var n := |events| - 1;
      var before := events[..n];
      var s, u, choice := Run(cap, threads, before), events[n].thread, events[n].choice;
      RunInv(cap, threads, before);
      hide Inv;
      var th, th' := s.machine.threads[t], Run(cap, threads, events).machine.threads[t];
      assert th' == Step(s.machine, u, choice).threads[t];
      if u == t && !th.pc.Idle? {
        SameCall(s.machine, t, choice);
        if Enqueuing(th.pc) { EnqueueStops(s, t, choice); }
        if Dequeuing(th.pc) { DequeueStops(s, t, choice); }
        assert GaveUpAt(cap, threads, events, n, t, th'.calls);
      } else if th' == th {
        ShortCallsGaveUp(cap, threads, before, t);
        var k :| 0 <= k < |before| && GaveUpAt(cap, threads, before, k, t, th.calls);
        GaveUpEarlier(cap, threads, events, k, t, th.calls);
      } else {
        BegunNotShort(s.machine, t, choice);
      }
    }
  }

  lemma BegunNotShort(m: Machine, t: nat, choice: Choice)
    requires Shaped(m) && t < |m.threads| && m.threads[t].pc.Idle? && !choice.Advance?
    ensures var th' := Step(m, t, choice).threads[t];
            && !EnqueueShort(th') && !DequeueShort(th') && th'.calls == m.threads[t].calls + 1
            && (choice.BeginEnqueue? ==> th'.call == Enqueue(choice.items, 0))
            && (choice.BeginDequeue? ==> th'.call == Dequeue(choice.want, []))
  {
  }

  // --- Every call is the one that was asked for ------------------------------

  /** The event asks for this call. */
  predicate Asks(choice: Choice, call: Call)
  {
    match call
    case NoCall => false
    case Enqueue(items, _) => choice == BeginEnqueue(items)
    case Dequeue(want, _) => choice == BeginDequeue(want)
    case Size(_) => choice == BeginSize
  }

  /** Event n of a run began the call that thread t is in, or was last in. */
  ghost predicate BegunAt(cap: nat, threads: nat, events: seq<Event>, n: nat, t: nat, th: Thread)
    requires cap >= 2 && Scheduled(events, threads) && t < threads && n < |events|
  {
    && events[n].thread == t && Asks(events[n].choice, th.call)
    && Run(cap, threads, events[..n]).machine.threads[t].pc.Idle?
    && Run(cap, threads, events[..n]).machine.threads[t].calls + 1 == th.calls
  }

  lemma SameAsked(m: Machine, t: nat, choice: Choice, asked: Choice)
    requires Shaped(m) && t < |m.threads| && (!m.threads[t].pc.Idle? || choice.Advance?)
    requires Asks(asked, m.threads[t].call)
    ensures Asks(asked, Step(m, t, choice).threads[t].call)
  {
    assert ThreadShaped(m.threads[t]);
  }

  /** In every run, the items of an enqueue, and how many a dequeue wants, are those its
      thread asked for, whatever other threads did in between. */
  lemma {:induction false} CallsAsAsked(cap: nat, threads: nat, events: seq<Event>, t: nat)
    requires cap >= 2 && Scheduled(events, threads) && t < threads
    requires Run(cap, threads, events).machine.threads[t].calls > 0
    ensures exists n :: 0 <= n < |events| && BegunAt(cap, threads, events, n, t, Run(cap, threads, events).machine.threads[t])
  {
    if events != [] {
      var n := |events| - 1;
      var before := events[..n];
      var s, u, choice := Run(cap, threads, before), events[n].thread, events[n].choice;
      var th, th' := s.machine.threads[t], Run(cap, threads, events).machine.threads[t];
      assert th' == Step(s.machine, u, choice).threads[t];
      if u == t && th.pc.Idle? && !choice.Advance? {
        BegunNotShort(s.machine, t, choice);
        assert BegunAt(cap, threads, events, n, t, th');
      } else {
        if u == t { SameCall(s.machine, t, choice); }
        CallsAsAsked(cap, threads, before, t);
        var k :| 0 <= k < |before| && BegunAt(cap, threads, before, k, t, th);
        if u == t { SameAsked(s.machine, t, choice, before[k].choice); }
        assert before[..k] == events[..k];
        assert BegunAt(cap, threads, events, k, t, th');
      }
    }
  }

  // --- Left alone, every call gets on ----------------------------------------

  /** Steps an enqueue at this program counter needs at most to be done with its item. */
  function EnqueueNeeds(m: Machine, pc: Pc): nat
    requires Enqueuing(pc)
  {
    match pc
    case EnqLoadHead => 5
    case EnqLoadSequence(p) => if p == m.head then 4 else 6
    case EnqCas(p) => if p == m.head then 3 else 5
    case EnqStoreData(_) => 2
    case _ => 1
  }

  function DequeueNeeds(m: Machine, pc: Pc): nat
    requires Dequeuing(pc)
  {
    match pc
    case DeqLoadTail => 5
    case DeqLoadSequence(p) => if p == m.tail then 4 else 6
    case DeqCas(p) => if p == m.tail then 3 else 5
    case DeqLoadData(_) => 2
    case _ => 1
  }

  /** One undisturbed step: the item is in, the call has given up, or it is nearer. */
  lemma EnqueueNearer(s: State, t: nat)
    requires Inv(s) && t < |s.machine.threads| && Enqueuing(s.machine.threads[t].pc)
    ensures var th := s.machine.threads[t];
            var m' := Step(s.machine, t, Advance(false));
            var th' := m'.threads[t];
            && th'.call.Enqueue? && th'.call.items == th.call.items
            && (|| th'.call.done == th.call.done + 1
                || (th'.call.done == th.call.done && EnqueueShort(th'))
                || (th'.call.done == th.call.done && Enqueuing(th'.pc) && EnqueueNeeds(m', th'.pc) < EnqueueNeeds(s.machine, th.pc)))
  {
    hide Cells, Claims, Handed, Occupied;
    assert ThreadShaped(s.machine.threads[t]);
    if s.machine.threads[t].pc.EnqLoadSequence? { EnqueueVerdict(s, t); }
  }

  lemma DequeueNearer(s: State, t: nat)
    requires Inv(s) && t < |s.machine.threads| && Dequeuing(s.machine.threads[t].pc)
    ensures var th := s.machine.threads[t];
            var m' := Step(s.machine, t, Advance(false));
            var th' := m'.threads[t];
            && th'.call.Dequeue? && th'.call.want == th.call.want
            && (|| |th'.call.out| == |th.call.out| + 1
                || (th'.call.out == th.call.out && DequeueShort(th'))
                || (th'.call.out == th.call.out && Dequeuing(th'.pc) && DequeueNeeds(m', th'.pc) < DequeueNeeds(s.machine, th.pc)))
  {
    hide Cells, Claims, Handed, Published;
    assert ThreadShaped(s.machine.threads[t]);
    if s.machine.threads[t].pc.DeqLoadSequence? { DequeueVerdict(s, t); }
  }

  /** Whatever the other threads have left half done, an enqueue that is not disturbed is
      done with its item, or gives up, within six steps. */
  lemma {:induction false} EnqueueSettles(s: State, t: nat) returns (n: nat)
    requires Inv(s) && t < |s.machine.threads| && Enqueuing(s.machine.threads[t].pc)
    ensures n <= EnqueueNeeds(s.machine, s.machine.threads[t].pc) <= 6
    ensures var th, th' := s.machine.threads[t], Solo(s, t, n).machine.threads[t];
            && th'.call.Enqueue? && th'.call.items == th.call.items
            && (th'.call.done == th.call.done + 1 || (th'.call.done == th.call.done && EnqueueShort(th')))
    decreases EnqueueNeeds(s.machine, s.machine.threads[t].pc)
  {
    var s' := Stepped(s, t, Advance(false));
    StepInv(s, t, Advance(false));
    EnqueueNearer(s, t);
    hide Inv, Step, Record;
    var th, th' := s.machine.threads[t], s'.machine.threads[t];
    assert Solo(s', t, 0) == s';
    if th'.call.done == th.call.done + 1 || EnqueueShort(th') {
      n := 1;
    } else {
      n := EnqueueSettles(s', t);
      n := n + 1;
    }
  }

  lemma {:induction false} DequeueSettles(s: State, t: nat) returns (n: nat)
    requires Inv(s) && t < |s.machine.threads| && Dequeuing(s.machine.threads[t].pc)
    ensures n <= DequeueNeeds(s.machine, s.machine.threads[t].pc) <= 6
    ensures var th, th' := s.machine.threads[t], Solo(s, t, n).machine.threads[t];
            && th'.call.Dequeue? && th'.call.want == th.call.want
            && (|th'.call.out| == |th.call.out| + 1 || (th'.call.out == th.call.out && DequeueShort(th')))
    decreases DequeueNeeds(s.machine, s.machine.threads[t].pc)
  {
    var s' := Stepped(s, t, Advance(false));
    StepInv(s, t, Advance(false));
    DequeueNearer(s, t);
    hide Inv, Step, Record;
    var th, th' := s.machine.threads[t], s'.machine.threads[t];
    assert Solo(s', t, 0) == s';
    if |th'.call.out| == |th.call.out| + 1 || DequeueShort(th') {
      n := 1;
    } else {
      n := DequeueSettles(s', t);
      n := n + 1;
    }
  }

  // --- Whole bulk calls with no claim outstanding ----------------------------

  function Min(a: nat, b: nat): nat { if a <= b then a else b }

  lemma {:induction false} SoloAdds(s: State, t: nat, a: nat, b: nat)
    requires Shaped(s.machine) && t < |s.machine.threads|
    ensures Solo(s, t, a + b) == Solo(Solo(s, t, a), t, b)
    decreases a
  {
    if a > 0 { SoloAdds(Stepped(s, t, Advance(false)), t, a - 1, b); }
  }

  /** Free slots, values waiting. */
  function Room(m: Machine): int { m.cap - (m.head - m.tail) }

  function Waiting(m: Machine): int { m.head - m.tail }

  /** A call that is under way has something left to do, and the counters are in order. */
  lemma Underway(s: State, t: nat)
    requires Inv(s) && t < |s.machine.threads|
    ensures Shaped(s.machine) && 0 <= Room(s.machine) && 0 <= Waiting(s.machine)
    ensures s.machine.tail + Waiting(s.machine) == |s.history.enqueued|
    ensures var th := s.machine.threads[t];
            && (th.pc == EnqLoadHead ==> th.call.Enqueue? && th.call.done < |th.call.items|)
            && (th.pc == DeqLoadTail ==> th.call.Dequeue? && |th.call.out| < th.call.want)
  {
    assert ThreadShaped(s.machine.threads[t]);
  }

  /** With no claim outstanding, a bulk enqueue left alone puts in as many of its remaining
      items as there is room for, in order. */
  lemma {:induction false} BulkEnqueueAlone(s: State, t: nat) returns (n: nat)
    requires Inv(s) && Quiescent(s) && t < |s.machine.threads| && s.machine.threads[t].pc == EnqLoadHead
    ensures s.machine.threads[t].call.Enqueue? && s.machine.threads[t].call.done < |s.machine.threads[t].call.items|
    ensures 0 <= Room(s.machine)
    ensures var r, th := Solo(s, t, n), s.machine.threads[t];
            var k := Min(|th.call.items| - th.call.done, Room(s.machine));
            && Inv(r) && Quiescent(r) && r.machine.threads[t].pc.Idle?
            && r.machine.threads[t].call == Enqueue(th.call.items, th.call.done + k)
            && r.history.enqueued == s.history.enqueued + th.call.items[th.call.done..th.call.done + k]
            && r.machine.tail == s.machine.tail
    decreases |s.machine.threads[t].call.items| - s.machine.threads[t].call.done
  {
    hide Inv, Quiescent, Solo, Shaped, Room;
    Underway(s, t);
    var th := s.machine.threads[t];
    var items, done := th.call.items, th.call.done;
    EnqueueAlone(s, t);
    FullExactly(s.machine);
    if Room(s.machine) == 0 {
      n := 2;
      IdleKeeps(s, t);
      assert items[done..done] == [];
    } else {
      var r := Solo(s, t, 5);
      HeadMoved(s, r);
      assert r.machine.threads[t] == AfterEnqueue(th);
      if done + 1 < |items| {
        var m := BulkEnqueueAlone(r, t);
        SoloAdds(s, t, 5, m);
        n := 5 + m;
        var k := Min(|items| - done - 1, Room(r.machine));
        OneMore(items, done, k);
      } else {
        n := 5;
        OneMore(items, done, 0);
      }
    }
  }

  lemma OneMore(s: seq<Pointer>, i: nat, k: nat)
    requires i + 1 + k <= |s|
    ensures s[i..i + 1 + k] == [s[i]] + s[i + 1..i + 1 + k]
    ensures k == 0 ==> s[i..i + 1 + k] == [s[i]]
  {
  }

  lemma FullExactly(m: Machine)
    ensures Room(m) == 0 <==> m.head - m.tail == m.cap
  {
  }

  lemma HeadMoved(s: State, r: State)
    requires Inv(s) && Inv(r) && |r.history.enqueued| == |s.history.enqueued| + 1 && r.machine.tail == s.machine.tail
    requires r.machine.cap == s.machine.cap
    ensures Room(r.machine) == Room(s.machine) - 1
  {
  }

  /** Giving up changes nothing but the thread itself. */
  lemma IdleKeeps(s: State, t: nat)
    requires Inv(s) && Quiescent(s) && t < |s.machine.threads|
    requires s.machine.threads[t].pc == EnqLoadHead || s.machine.threads[t].pc == DeqLoadTail
    ensures var r := s.(machine := WithPc(s.machine, t, Idle));
            Inv(r) && Quiescent(r) && r.machine.threads[t] == s.machine.threads[t].(pc := Idle)
  {
    QuietStep(s, t, s.machine.threads[t].(pc := Idle));
  }

  /** Likewise a bulk dequeue takes as many values as it still wants and there are, the
      oldest first. */
  lemma {:induction false} BulkDequeueAlone(s: State, t: nat) returns (n: nat)
    requires Inv(s) && Quiescent(s) && t < |s.machine.threads| && s.machine.threads[t].pc == DeqLoadTail
    ensures s.machine.threads[t].call.Dequeue? && |s.machine.threads[t].call.out| < s.machine.threads[t].call.want
    ensures 0 <= Waiting(s.machine) && s.machine.tail + Waiting(s.machine) == |s.history.enqueued|
    ensures var r, th, tail := Solo(s, t, n), s.machine.threads[t], s.machine.tail;
            var k := Min(th.call.want - |th.call.out|, Waiting(s.machine));
            && Inv(r) && Quiescent(r) && r.machine.threads[t].pc.Idle?
            && r.machine.threads[t].call == Dequeue(th.call.want, th.call.out + s.history.enqueued[tail..tail + k])
            && r.history.enqueued == s.history.enqueued && r.machine.tail == tail + k
    decreases s.machine.threads[t].call.want - |s.machine.threads[t].call.out|
  {
    hide Inv, Quiescent, Solo, Shaped;
    Underway(s, t);
    var th, tail, all := s.machine.threads[t], s.machine.tail, s.history.enqueued;
    DequeueAlone(s, t);
    if Waiting(s.machine) == 0 {
      n := 2;
      IdleKeeps(s, t);
      assert all[tail..tail] == [];
    } else {
      var r := Solo(s, t, 5);
      assert r.machine.threads[t] == AfterDequeue(th, all[tail]);
      if |th.call.out| + 1 < th.call.want {
        var m := BulkDequeueAlone(r, t);
        SoloAdds(s, t, 5, m);
        n := 5 + m;
        var k := Min(th.call.want - |th.call.out| - 1, Waiting(r.machine));
        OneMore(all, tail, k);
      } else {
        n := 5;
        OneMore(all, tail, 0);
      }
    }
  }

  // --- Whole calls, from the moment they are asked for -----------------------

  lemma Begins(s: State, t: nat, choice: Choice)
    requires Inv(s) && Quiescent(s) && t < |s.machine.threads| && s.machine.threads[t].pc.Idle? && !choice.Advance?
    ensures var s' := Stepped(s, t, choice);
            && Inv(s') && Quiescent(s') && s'.history == s.history
            && s'.machine == s.machine.(threads := s.machine.threads[t := s'.machine.threads[t]])
            && s'.machine.threads[t] == Begin(s.machine.threads[t], choice)
  {
    StepInv(s, t, choice);
  }

  /** With no claim outstanding, a bulk enqueue left alone returns how many of its items it
      put in: as many as there was room for. */
  lemma EnqueueCall(s: State, t: nat, items: seq<Pointer>) returns (n: nat)
    requires Inv(s) && Quiescent(s) && t < |s.machine.threads| && s.machine.threads[t].pc.Idle?
    ensures 0 <= Room(s.machine)
    ensures var r, k := Solo(Stepped(s, t, BeginEnqueue(items)), t, n), Min(|items|, Room(s.machine));
            && Inv(r) && Quiescent(r) && r.machine.threads[t].pc.Idle?
            && r.machine.threads[t].call == Enqueue(items, k)
            && r.history.enqueued == s.history.enqueued + items[..k] && r.machine.tail == s.machine.tail
  {
    Begins(s, t, BeginEnqueue(items));
    var s' := Stepped(s, t, BeginEnqueue(items));
    if items == [] {
      n := 0;
    } else {
      n := BulkEnqueueAlone(s', t);
    }
  }

  /** And a bulk dequeue returns the oldest values, as many as it wants and there are. */
  lemma DequeueCall(s: State, t: nat, want: nat) returns (n: nat)
    requires Inv(s) && Quiescent(s) && t < |s.machine.threads| && s.machine.threads[t].pc.Idle?
    ensures 0 <= Waiting(s.machine) && s.machine.tail + Waiting(s.machine) == |s.history.enqueued|
    ensures var r, k := Solo(Stepped(s, t, BeginDequeue(want)), t, n), Min(want, Waiting(s.machine));
            && Inv(r) && Quiescent(r) && r.machine.threads[t].pc.Idle?
            && r.machine.threads[t].call == Dequeue(want, s.history.enqueued[s.machine.tail..s.machine.tail + k])
            && r.history.enqueued == s.history.enqueued && r.machine.tail == s.machine.tail + k
  {
    Begins(s, t, BeginDequeue(want));
    var s' := Stepped(s, t, BeginDequeue(want));
    if want == 0 {
      n := 0;
    } else {
      n := BulkDequeueAlone(s', t);
    }
  }

  /** A size query left alone answers exactly. */
  lemma SizeCall(s: State, t: nat)
    requires Inv(s) && Quiescent(s) && t < |s.machine.threads| && s.machine.threads[t].pc.Idle?
    ensures var r := Solo(Stepped(s, t, BeginSize), t, 2);
            && Inv(r) && r.machine.threads[t].pc.Idle?
            && r.machine.threads[t].call == Size(s.machine.head - s.machine.tail)
            && r.machine.head == s.machine.head && r.machine.tail == s.machine.tail
  {
    Begins(s, t, BeginSize);
    var s0 := Stepped(s, t, BeginSize);
    var s1 := Stepped(s0, t, Advance(false));
    var s2 := Stepped(s1, t, Advance(false));
    SoloInv(s0, t, 2);
    assert Solo(s0, t, 2) == Solo(s1, t, 1) == Solo(s2, t, 0);
  }
}
