/** The array-backed binary heap: its fields and the operations that update them in
    place, each specified by what it leaves in the live prefix of the buffer. */
module HeapModel {
  import opened Counting
  import opened HeapOrder
  import opened HeapIndexMap
  import opened HeapEffects
  import opened HeapBuild

  const SIZE_MAX: nat := 0xFFFF_FFFF_FFFF_FFFF
  const MIN_CAPACITY: nat := 8

  datatype Status = Ok | Invalid | Empty | Full | NoMemory | Overflow

  /** Bytes backing `capacity` elements: one slot more than the capacity, none for none. */
  function BytesFor(capacity: nat, elemSize: nat): (r: (Status, nat))
    requires elemSize > 0
    ensures r.0 in {Ok, Overflow}
    ensures r.0 == Overflow <==> capacity > 0 && (2 * capacity + 2 > SIZE_MAX || (capacity + 1) * elemSize > SIZE_MAX)
    ensures r.0 == Ok ==> r.1 == if capacity == 0 then 0 else (capacity + 1) * elemSize
    ensures r.0 == Ok ==> r.1 <= SIZE_MAX && (r.1 == 0 <==> capacity == 0)
  {
    if capacity == 0 then (Ok, 0)
    else if capacity > (SIZE_MAX - 2) / 2 then (Overflow, 0)
    else
      BytesFit(capacity + 1, elemSize);
      if elemSize > SIZE_MAX / (capacity + 1) then (Overflow, 0) else (Ok, (capacity + 1) * elemSize)
  }

  /** One of the two sizes overflows the word. */
  predicate TooBig(capacity: nat, wanted: nat, elemSize: nat)
    requires elemSize > 0
  {
    BytesFor(capacity, elemSize).0 != Ok || BytesFor(wanted, elemSize).0 != Ok
  }

  /** The division test says exactly whether the product fits the word. */
  lemma BytesFit(slots: nat, elemSize: nat)
    requires 0 < slots && 0 < elemSize
    ensures elemSize <= SIZE_MAX / slots <==> slots * elemSize <= SIZE_MAX
    ensures 0 < slots * elemSize
  {
    var q := SIZE_MAX / slots;
    assert slots * q <= SIZE_MAX < slots * (q + 1);
    if elemSize <= q { Multiply(slots, elemSize, q); } else { Multiply(slots, q + 1, elemSize); }
    Multiply(slots, 1, elemSize);
  }

  lemma Multiply(m: nat, a: nat, b: nat)
    requires a <= b
    ensures m * a <= m * b
  {
    assert m * b == m * a + m * (b - a);
  }

  function Least(a: int, b: int): int { if a <= b then a else b }

  /** The growth curve: a first jump, then half again, saturating. */
  function NextCapacity(capacity: nat): (r: nat)
    requires capacity <= SIZE_MAX
    ensures r <= SIZE_MAX && r >= MIN_CAPACITY && (capacity < SIZE_MAX ==> r > capacity)
    ensures capacity < MIN_CAPACITY ==> r == MIN_CAPACITY
    ensures capacity >= MIN_CAPACITY ==> 2 * r <= 3 * capacity && (2 * r + 1 >= 3 * capacity || r == SIZE_MAX)
  {
    if capacity < MIN_CAPACITY then MIN_CAPACITY
    else if capacity > SIZE_MAX - capacity / 2 then SIZE_MAX
    else capacity + capacity / 2
  }

  class Heap<T(0, ==, !new)> {
    var buffer: array<T>
    var size: nat
    var capacity: nat
    const elemSize: nat
    const before: (T, T) -> bool
    const initialCapacity: nat
    const maxCapacity: nat
    const growable: bool

    /** Whether the on-move hook is installed, and the index map its owner keeps. */
    var reporting: bool
    var table: map<T, nat>

    /** How often the allocator has refused. */
    var refusals: nat

    /** The buffer carries one slot beyond the capacity for the element a sift carries. */
    ghost predicate Shaped()
      reads this, buffer
    {
      && elemSize > 0
      && size <= capacity <= SIZE_MAX
      && buffer.Length == (if capacity == 0 then 0 else capacity + 1)
    }

    ghost predicate Valid()
      reads this, buffer
    {
      Shaped() && StrictWeakOrder(before)
    }

    ghost function Contents(): (s: seq<T>)
      requires Shaped()
      reads this, buffer
      ensures |s| == size
    {
      buffer[..size]
    }

    ghost predicate Ordered()
      requires Valid()
      reads this, buffer
    {
      HeapOrdered(before, Contents())
    }

    /** If the hook is installed, the owner's index map agrees with the slots. */
    ghost predicate Mapped()
      requires Shaped()
      reads this, buffer
    {
      reporting ==> Tracked(Contents(), table)
    }

    // --- Sift loops ----------------------------------------------------------

    /** Copies an element into a slot and reports where it came to rest. */
    method Place(index: nat, item: T)
      requires Shaped() && index < capacity
      modifies buffer, this`table
      ensures buffer[..] == old(buffer[..])[index := item]
      ensures table == if reporting then old(table)[item := index] else old(table)
    {
      buffer[index] := item;
      if reporting { table := table[item := index]; }
    }

    /** Likewise for the first n slots. */
    lemma PlacedPrefix(now: seq<T>, was: seq<T>, index: nat, item: T, n: nat)
      requires index < n <= |was| && now == was[index := item]
      ensures now[..n] == was[..n][index := item]
      ensures now[n..] == was[n..]
    {
    }

    method SiftUp(index: nat, item: T, ghost n: nat)
      requires Shaped() && index < n <= capacity
      modifies buffer, this`table
      ensures buffer[..n] == HeapOrder.SiftUp(before, old(buffer[..n]), index, item)
      ensures buffer[n..] == old(buffer[n..])
      ensures table == if reporting then SiftUpTable(before, old(buffer[..n]), index, item, old(table)) else old(table)
    {
      var i: nat := index;
      while i > 0
        invariant i < n
        invariant HeapOrder.SiftUp(before, buffer[..n], i, item) == HeapOrder.SiftUp(before, old(buffer[..n]), index, item)
        invariant reporting ==>
                    SiftUpTable(before, buffer[..n], i, item, table) ==
                    SiftUpTable(before, old(buffer[..n]), index, item, old(table))
        invariant !reporting ==> table == old(table)
        invariant buffer[n..] == old(buffer[n..])
      {
        var parent := (i - 1) / 2;
        if !before(item, buffer[parent]) { break; }
        ghost var was := buffer[..];
        Place(i, buffer[parent]);
        PlacedPrefix(buffer[..], was, i, was[parent], n);
        i := parent;
      }
      ghost var was := buffer[..];
      Place(i, item);
      PlacedPrefix(buffer[..], was, i, item, n);
    }

    /** Everything a sift down from i with x in hand will do: the contents it leaves, the
        reports it makes and the levels it moves. */
    ghost function DownFrom(s: seq<T>, i: nat, x: T, t: map<T, nat>, reports: bool): (seq<T>, map<T, nat>, nat)
      requires i < |s|
    {
      (HeapOrder.SiftDown(before, s, i, x),
       if reports then SiftDownTable(before, s, i, x, t) else t,
       SiftDownLevels(before, s, i, x))
    }

    lemma DownStep(s: seq<T>, i: nat, x: T, t: map<T, nat>, reports: bool, c: nat)
      requires 2 * i + 1 < |s| && c == BestChild(before, s, i) && before(s[c], x)
      ensures var next := DownFrom(s[i := s[c]], c, x, if reports then t[s[c] := i] else t, reports);
              DownFrom(s, i, x, t, reports) == (next.0, next.1, next.2 + 1)
    {
    }

    lemma DownStop(s: seq<T>, i: nat, x: T, t: map<T, nat>, reports: bool)
      requires i < |s|
      requires 2 * i + 1 >= |s| || !before(s[BestChild(before, s, i)], x)
      ensures DownFrom(s, i, x, t, reports) == (s[i := x], if reports then t[x := i] else t, 0)
    {
    }

    method SiftDown(index: nat, item: T) returns (ghost levels: nat)
      requires Shaped() && index < size
      modifies buffer, this`table
      ensures (Contents(), table, levels) == DownFrom(old(Contents()), index, item, old(table), reporting)
      ensures buffer[size..] == old(buffer[size..])
    {
      hide HeapOrder.SiftDown, SiftDownTable, SiftDownLevels;
      var i: nat := index;
      ghost var goal := DownFrom(Contents(), i, item, table, reporting);
      levels := 0;
      while true
        invariant i < size
        invariant var rest := DownFrom(Contents(), i, item, table, reporting);
                  goal == (rest.0, rest.1, levels + rest.2)
        invariant buffer[size..] == old(buffer[size..])
        decreases size - i
      {
        ghost var s := Contents();
        var left := 2 * i + 1;
        if left >= size { break; }
        var child := left;
        var right := left + 1;
        if right < size && before(buffer[right], buffer[left]) { child := right; }
        assert child == BestChild(before, s, i);
        if !before(buffer[child], item) { break; }
        DownStep(s, i, item, table, reporting, child);
        ghost var was := buffer[..];
        Place(i, buffer[child]);
        PlacedPrefix(buffer[..], was, i, was[child], size);
        i := child;
        levels := levels + 1;
      }
      DownStop(Contents(), i, item, table, reporting);
      ghost var was := buffer[..];
      Place(i, item);
      PlacedPrefix(buffer[..], was, i, item, size);
    }

    // --- Buffer management ---------------------------------------------------

    /** The allocator, which may refuse any request. */
    method Ask() returns (granted: bool)
      modifies this`refusals
      ensures refusals == old(refusals) + if granted then 0 else 1
    {
      granted := *;
      if !granted { refusals := refusals + 1; }
    }

    /** Resizes the buffer; the allocator may refuse, and then nothing has changed. */
    method SetCapacity(newCapacity: nat) returns (status: Status)
      requires Shaped() && newCapacity <= SIZE_MAX
      modifies this`buffer, this`capacity, this`refusals
      ensures Shaped() && Contents() == old(Contents())
      ensures buffer == old(buffer) || fresh(buffer)
      ensures status == Ok ==> capacity == newCapacity
      ensures status != Ok ==> capacity == old(capacity) && buffer == old(buffer)
      ensures newCapacity < size <==> status == Invalid
      ensures status !in {Empty, Full}
      ensures refusals == old(refusals) + if status == NoMemory then 1 else 0
      ensures status == Overflow <==>
                newCapacity != old(capacity) && newCapacity >= size && TooBig(old(capacity), newCapacity, elemSize)
    {
      if newCapacity == capacity { return Ok; }
      if newCapacity < size { return Invalid; }
      var oldBytes := BytesFor(capacity, elemSize);
      if oldBytes.0 != Ok { return oldBytes.0; }
      var newBytes := BytesFor(newCapacity, elemSize);
      if newBytes.0 != Ok { return newBytes.0; }
      if newBytes.1 == 0 {
        buffer := new T[0];
        capacity := 0;
        return Ok;
      }
      var granted := Ask();
      if !granted { return NoMemory; }
      var mem := new T[newCapacity + 1];
      for i := 0 to size
        invariant mem[..i] == old(buffer[..i])
        invariant fresh(mem) && mem.Length == newCapacity + 1
        invariant Shaped() && buffer == old(buffer) && capacity == old(capacity) && refusals == old(refusals)
        invariant buffer[..size] == old(buffer[..size])
      {
        mem[i] := buffer[i];
      }
      buffer := mem;
      capacity := newCapacity;
      status := Ok;
    }

    method GrowForPush() returns (status: Status)
      requires Shaped()
      modifies this`buffer, this`capacity, this`refusals
      ensures Shaped() && Contents() == old(Contents())
      ensures buffer == old(buffer) || fresh(buffer)
      ensures status == Ok ==> size < capacity
      ensures status != Ok ==> capacity == old(capacity) && buffer == old(buffer)
      ensures status == Full <==> size == old(capacity) && (!growable || Clamp(NextCapacity(old(capacity))) <= old(capacity))
      ensures status !in {Empty, Invalid}
      ensures refusals == old(refusals) + if status == NoMemory then 1 else 0
      ensures status == Overflow <==>
                && size == old(capacity) && status != Full
                && TooBig(old(capacity), Clamp(NextCapacity(old(capacity))), elemSize)
      ensures capacity > old(capacity) ==> growable && (maxCapacity == 0 || capacity <= maxCapacity)
      ensures capacity != old(capacity) ==> capacity == Clamp(NextCapacity(old(capacity)))
    {
      if size < capacity { return Ok; }
      if !growable { return Full; }
      var next := Clamp(NextCapacity(capacity));
      if next <= capacity { return Full; }
      status := SetCapacity(next);
    }

    /** Growth to hold `needed` elements, as far as the ceiling lets it, is within the word. */
    predicate Feasible(from: nat, needed: nat)
      requires elemSize > 0
    {
      needed <= SIZE_MAX && !TooBig(from, Clamp(needed), elemSize)
    }

    /** The capacity a bulk push can reach from one that may not hold `needed`: that, up to
        the ceiling. */
    function Reach(from: nat, needed: nat): (r: nat)
      ensures r >= from && (!growable ==> r == from)
      ensures growable && maxCapacity == 0 ==> r >= needed
      ensures growable && maxCapacity != 0 && from <= maxCapacity ==>
                r <= maxCapacity && (r >= needed || r == maxCapacity)
    {
      if !growable || Clamp(needed) <= from then from else Clamp(needed)
    }

    /** The growth ceiling; 0 means none. */
    function Clamp(wanted: nat): nat
    {
      if maxCapacity != 0 && wanted > maxCapacity then maxCapacity else wanted
    }

    // --- Core operations -----------------------------------------------------

    /** Puts an element into a heap that has room for it. */
    method Append(elem: T)
      requires Valid() && size < capacity
      modifies this`size, this`table, buffer
      ensures Valid()
      ensures multiset(Contents()) == multiset(old(Contents())) + multiset{elem}
      ensures old(Ordered()) ==> Ordered()
      ensures old(Mapped()) && Distinct(Contents()) ==> Mapped()
    {
      hide HeapOrder.SiftUp, SiftUpTable, StrictWeakOrder;
      ghost var s, t := Contents(), table;
      PushEffect(before, s, buffer[size], elem, t);
      assert buffer[..size + 1] == s + [buffer[size]];
      SiftUp(size, elem, size + 1);
      size := size + 1;
    }

    method Push(elem: T) returns (status: Status)
      requires Valid()
      modifies this, buffer
      ensures Valid() && reporting == old(reporting)
      ensures buffer == old(buffer) || fresh(buffer)
      ensures status == Ok ==> multiset(Contents()) == multiset(old(Contents())) + multiset{elem}
      ensures old(Ordered()) ==> Ordered()
      ensures old(Mapped()) && Distinct(Contents()) ==> Mapped()
      ensures status != Ok ==> Contents() == old(Contents()) && capacity == old(capacity) && table == old(table)
      ensures old(size < capacity) ==> status == Ok && capacity == old(capacity)
      ensures refusals == old(refusals) + if status == NoMemory then 1 else 0
      ensures status == Full <==> old(size == capacity) && (!growable || Clamp(NextCapacity(old(capacity))) <= old(capacity))
      ensures status in {Ok, Full, NoMemory, Overflow}
      ensures status == Overflow <==>
                && old(size == capacity) && status != Full
                && TooBig(old(capacity), Clamp(NextCapacity(old(capacity))), elemSize)
      ensures capacity > old(capacity) ==> growable && (maxCapacity == 0 || capacity <= maxCapacity)
      ensures capacity != old(capacity) ==> old(size == capacity) && capacity == Clamp(NextCapacity(old(capacity)))
    {
      if size == capacity {
        status := GrowForPush();
        if status != Ok { return; }
      }
      Append(elem);
      status := Ok;
    }

    /** Carries the element just past the live ones down from the root, through the
        scratch slot beyond the capacity. */
    method CarryLastDown(ghost s: seq<T>)
      requires Shaped() && 0 < size < capacity && buffer[..size + 1] == s
      modifies this`table, buffer
      ensures Contents() == HeapOrder.SiftDown(before, s[..size], 0, s[size])
      ensures table == if reporting then SiftDownTable(before, s[..size], 0, s[size], old(table)) else old(table)
    {
      buffer[capacity] := buffer[size];
      assert Contents() == s[..size];
      ghost var levels := SiftDown(0, buffer[capacity]);
    }

    /** Takes the root out; the element that was last is carried down from the root. */
    method Pop() returns (status: Status, out: T)
      requires Valid()
      modifies this`size, this`table, buffer
      ensures Valid()
      ensures status == if old(size) == 0 then Empty else Ok
      ensures status == Empty ==> Contents() == old(Contents()) && table == old(table)
      ensures status == Ok ==> out == old(Contents())[0] && size == old(size) - 1
                               && multiset(Contents()) == multiset(old(Contents())) - multiset{out}
      ensures old(Ordered()) ==> Ordered()
      ensures old(Ordered()) && status == Ok ==> forall x :: x in old(Contents()) ==> !before(x, out)
      ensures old(Mapped()) && Distinct(Contents()) ==> Mapped()
    {
      hide HeapOrder.SiftDown, SiftDownTable, HeapOrdered, Tracked, Distinct, StrictWeakOrder;
      out := *;
      if size == 0 { return Empty, out; }
      ghost var s := Contents();
      out := buffer[0];
      RootPrecedes(before, s);
      size := size - 1;
      if size > 0 {
        PopEffect(before, s, table);
        CarryLastDown(s);
      } else {
        PopLastEffect(before, s, table);
        assert Contents() == [];
      }
      status := Ok;
    }

    method Peek() returns (status: Status, out: T)
      requires Valid()
      ensures status == if size == 0 then Empty else Ok
      ensures status == Ok ==> out == Contents()[0]
      ensures Ordered() && status == Ok ==> forall x :: x in Contents() ==> !before(x, out)
    {
      out := *;
      if size == 0 { return Empty, out; }
      out := buffer[0];
      RootPrecedes(before, Contents());
      status := Ok;
    }

    /** Replaces the root in one sift down, the bounded top-k primitive. */
    method ReplaceTop(elem: T) returns (status: Status, out: T)
      requires Valid()
      modifies this`table, buffer
      ensures Valid()
      ensures status == if size == 0 then Empty else Ok
      ensures status == Empty ==> Contents() == old(Contents()) && table == old(table)
      ensures status == Ok ==> out == old(Contents())[0]
                               && multiset(Contents()) == multiset(old(Contents())) - multiset{out} + multiset{elem}
      ensures old(Ordered()) ==> Ordered()
      ensures old(Mapped()) && Distinct(Contents()) ==> Mapped()
    {
      hide HeapOrder.SiftDown, SiftDownTable, HeapOrdered, Tracked, Distinct, StrictWeakOrder;
      out := *;
      if size == 0 { return Empty, out; }
      out := buffer[0];
      ReplaceEffect(before, Contents(), elem, table);
      ghost var levels := SiftDown(0, elem);
      status := Ok;
    }

    // --- Priority updates ----------------------------------------------------

    /** One comparison with the parent decides the direction of the one re-sift. */
    method ResiftAt(index: nat, item: T)
      requires Shaped() && index < size
      modifies this`table, buffer
      ensures Contents() == Resift(before, old(Contents()), index, item)
      ensures table == if reporting then ResiftTable(before, old(Contents()), index, item, old(table)) else old(table)
    {
      if index > 0 {
        var parent := (index - 1) / 2;
        if before(item, buffer[parent]) {
          SiftUp(index, item, size);
          return;
        }
      }
      ghost var levels := SiftDown(index, item);
    }

    /** The order may already have failed at `index`, as when the key of the element
        stored there was edited in place; the one re-sift still restores all of it. */
    method UpdateAt(index: nat, elem: T) returns (status: Status)
      requires Valid()
      modifies this`table, buffer
      ensures Valid()
      ensures status == if index < size then Ok else Invalid
      ensures status == Invalid ==> Contents() == old(Contents()) && table == old(table)
      ensures status == Ok ==>
                multiset(Contents()) == multiset(old(Contents())) - multiset{old(Contents())[index]} + multiset{elem}
      ensures status == Ok && OrderedAround(before, old(Contents()), 0, index) ==> Ordered()
      ensures old(Ordered()) ==> Ordered()
      ensures old(Mapped()) && Distinct(Contents()) ==> Mapped()
    {
      if index >= size { return Invalid; }
      UpdateEffect(before, Contents(), index, elem, table);
      if HeapOrdered(before, Contents()) { OrderedIsAround(before, Contents(), index); }
      ResiftAt(index, elem);
      status := Ok;
    }

    /** Closes the gap at `index` with the element just past the live ones. */
    method CloseGap(index: nat, ghost s: seq<T>)
      requires Shaped() && index <= size < capacity && buffer[..size + 1] == s
      modifies this`table, buffer
      ensures Contents() == Without(before, s, index)
      ensures table == if reporting then WithoutTable(before, s, index, old(table)) else old(table)
    {
      assert Contents() == s[..size];
      if index == size { return; }
      buffer[capacity] := buffer[size];
      assert Contents() == s[..size];
      ResiftAt(index, buffer[capacity]);
    }

    method RemoveAt(index: nat) returns (status: Status, out: T)
      requires Valid()
      modifies this`size, this`table, buffer
      ensures Valid()
      ensures status == if index < old(size) then Ok else Invalid
      ensures status == Invalid ==> Contents() == old(Contents()) && table == old(table)
      ensures status == Ok ==> out == old(Contents())[index]
                               && multiset(Contents()) == multiset(old(Contents())) - multiset{out}
      ensures old(Ordered()) ==> Ordered()
      ensures old(Mapped()) && Distinct(Contents()) ==> Mapped()
    {
      out := *;
      if index >= size { return Invalid, out; }
      ghost var s := Contents();
      out := buffer[index];
      size := size - 1;
      RemoveEffect(before, s, index, table);
      CloseGap(index, s);
      status := Ok;
    }

    // --- Maintenance ---------------------------------------------------------

    method SiftOneDown(i: nat) returns (ghost levels: nat)
      requires Shaped() && i < size && !reporting
      modifies this`table, buffer
      ensures Contents() == HeapOrder.SiftDown(before, old(Contents()), i, old(Contents())[i])
      ensures levels == SiftDownLevels(before, old(Contents()), i, old(Contents())[i])
      ensures table == old(table)
    {
      ghost var s := Contents();
      buffer[capacity] := buffer[i];
      assert Contents() == s;
      levels := SiftDown(i, buffer[capacity]);
    }

    /** The bottom-up pass, with reporting suppressed. */
    method SiftAllDown() returns (ghost levels: nat)
      requires Shaped() && size > 1 && !reporting
      modifies this`table, buffer
      ensures Contents() == HeapifyFrom(before, old(Contents()), size / 2)
      ensures levels == HeapifyLevels(before, old(Contents()), size / 2)
      ensures table == old(table)
    {
      hide HeapOrder.SiftDown, StrictWeakOrder;
      var i: nat := size / 2;
      ghost var goal, total := HeapifyFrom(before, Contents(), i), HeapifyLevels(before, Contents(), i);
      levels := 0;
      while i > 0
        invariant i <= size / 2
        invariant HeapifyFrom(before, Contents(), i) == goal
        invariant levels + HeapifyLevels(before, Contents(), i) == total
        invariant table == old(table)
      {
        i := i - 1;
        ghost var s := Contents();
        ghost var moved := SiftOneDown(i);
        assert Contents() == HeapOrder.SiftDown(before, s, i, s[i]);
        levels := levels + moved;
      }
    }

    /** Reports every slot once. */
    method NotifyAll()
      requires Shaped()
      modifies this`table
      ensures table == if reporting then SweepTable(Contents(), size, old(table)) else old(table)
    {
      if !reporting { return; }
      for i := 0 to size
        invariant table == SweepTable(Contents(), i, old(table))
      {
        table := table[buffer[i] := i];
      }
    }

    /** Restores heap order over whatever the buffer holds; all the holes together
        descend fewer levels than there are elements. */
    method Heapify() returns (ghost levels: nat)
      requires Valid()
      modifies this`table, this`reporting, buffer
      ensures Valid() && reporting == old(reporting)
      ensures Ordered() && multiset(Contents()) == multiset(old(Contents()))
      ensures Distinct(Contents()) ==> Mapped()
      ensures levels + Ones(size) <= size
      ensures Contents() == HeapifyFrom(before, old(Contents()), size / 2)
    {
      ghost var s := Contents();
      HeapifyLinear(before, s);
      levels := 0;
      if size > 1 {
        var hook := reporting;
        reporting := false;
        levels := SiftAllDown();
        reporting := hook;
      }
      NotifyAll();
      if Distinct(Contents()) {
        SweepTracks(Contents(), size, old(table));
        assert Contents()[..size] == Contents();
      }
    }

    // --- Capacity management -------------------------------------------------

    method Reserve(wanted: nat) returns (status: Status)
      requires Shaped() && wanted <= SIZE_MAX
      modifies this`buffer, this`capacity, this`refusals
      ensures Shaped() && Contents() == old(Contents())
      ensures buffer == old(buffer) || fresh(buffer)
      ensures status == Ok ==> capacity >= wanted && capacity >= old(capacity)
      ensures status != Ok ==> capacity == old(capacity) && buffer == old(buffer)
      ensures status == Full <==>
                wanted > old(capacity) && (!growable || (maxCapacity != 0 && wanted > maxCapacity))
      ensures refusals == old(refusals) + if status == NoMemory then 1 else 0
      ensures wanted <= old(capacity) ==> status == Ok
      ensures status !in {Empty, Invalid}
      ensures status == Overflow <==>
                wanted > old(capacity) && status != Full && TooBig(old(capacity), wanted, elemSize)
      ensures capacity > old(capacity) ==> growable && (maxCapacity == 0 || capacity <= maxCapacity)
      ensures status == Ok ==> capacity == if wanted <= old(capacity) then old(capacity) else wanted
    {
      if wanted <= capacity { return Ok; }
      if !growable { return Full; }
      if maxCapacity != 0 && wanted > maxCapacity { return Full; }
      status := SetCapacity(wanted);
    }

    method ShrinkToFit() returns (status: Status)
      requires Shaped()
      modifies this`buffer, this`capacity, this`refusals
      ensures Shaped() && Contents() == old(Contents())
      ensures buffer == old(buffer) || fresh(buffer)
      ensures status == Ok && growable ==> capacity == size
      ensures !growable || status != Ok ==> capacity == old(capacity)
      ensures status in {Ok, NoMemory, Overflow}
      ensures refusals == old(refusals) + if status == NoMemory then 1 else 0
      ensures status == Overflow <==> growable && size != old(capacity) && TooBig(old(capacity), size, elemSize)
    {
      if !growable || capacity == size { return Ok; }
      status := SetCapacity(size);
    }

    /** Drops every element; the contents are gone even if the resize is refused. */
    method Reset() returns (status: Status)
      requires Valid() && initialCapacity <= SIZE_MAX
      modifies this`size, this`buffer, this`capacity, this`refusals
      ensures Valid() && Contents() == []
      ensures buffer == old(buffer) || fresh(buffer)
      ensures status == Ok ==> capacity == initialCapacity
      ensures refusals == old(refusals) + if status == NoMemory then 1 else 0
      ensures status in {Ok, NoMemory, Overflow}
      ensures status == Overflow <==> initialCapacity != old(capacity) && TooBig(old(capacity), initialCapacity, elemSize)
      ensures status != Ok ==> capacity == old(capacity)
    {
      size := 0;
      status := SetCapacity(initialCapacity);
    }

    /** The zeroed fields with the configuration filled in, before any buffer is asked for. */
    constructor (elemSize: nat, before: (T, T) -> bool, initial: nat, max: nat, growable: bool, reporting: bool)
      requires elemSize > 0 && StrictWeakOrder(before)
      ensures Valid() && Contents() == [] && Ordered() && Mapped() && fresh(buffer)
      ensures this.elemSize == elemSize && this.before == before && this.reporting == reporting
      ensures capacity == 0 && initialCapacity == initial && this.growable == growable
      ensures maxCapacity == if growable then max else initial
    {
      this.elemSize := elemSize;
      this.before := before;
      this.initialCapacity := initial;
      this.maxCapacity := if growable then max else initial;
      this.growable := growable;
      this.reporting := reporting;
      this.table := map[];
      this.buffer := new T[0];
      this.size := 0;
      this.capacity := 0;
      this.refusals := 0;
    }

    // --- Bulk operations -----------------------------------------------------

    /** Copies a caller's array into the buffer at `at`. */
    method CopyIn(at: nat, elems: seq<T>)
      requires at + |elems| <= buffer.Length
      modifies buffer
      ensures buffer[..] == old(buffer[..at]) + elems + old(buffer[at + |elems|..])
    {
      ghost var was := buffer[..];
      for i := 0 to |elems|
        invariant buffer[..] == was[..at] + elems[..i] + was[at + i..]
      {
        buffer[at + i] := elems[i];
        assert buffer[..] == was[..at] + elems[..i + 1] + was[at + i + 1..];
      }
      assert elems[..|elems|] == elems;
    }

    /** Replaces the contents and heapifies them. */
    method Build(elems: seq<T>) returns (status: Status)
      requires Valid() && |elems| <= SIZE_MAX
      modifies this, buffer
      ensures Valid() && reporting == old(reporting)
      ensures buffer == old(buffer) || fresh(buffer)
      ensures status == Ok ==> Ordered() && multiset(Contents()) == multiset(elems)
      ensures status == Ok && Distinct(elems) ==> Mapped()
      ensures status != Ok ==> Contents() == old(Contents()) && table == old(table)
      ensures |elems| <= old(capacity) ==> status == Ok
      ensures refusals == old(refusals) + if status == NoMemory then 1 else 0
      ensures status == Full <==> |elems| > old(capacity) && (!growable || (maxCapacity != 0 && |elems| > maxCapacity))
      ensures status in {Ok, Full, NoMemory, Overflow}
      ensures status == Overflow <==>
                |elems| > old(capacity) && status != Full && TooBig(old(capacity), |elems|, elemSize)
      ensures capacity > old(capacity) ==> growable && (maxCapacity == 0 || capacity <= maxCapacity)
      ensures status == Ok ==> capacity == if |elems| <= old(capacity) then old(capacity) else |elems|
      ensures status != Ok ==> capacity == old(capacity)
    {
      hide HeapOrdered, Tracked, StrictWeakOrder, Distinct;
      if |elems| == 0 {
        NothingEffect(before, table);
        size := 0;
        assert Contents() == elems == [];
        return Ok;
      }
      if |elems| > capacity {
        status := Reserve(|elems|);
        if status != Ok { return; }
      }
      Refill(elems);
      status := Ok;
    }

    /** Overwrites the contents with a run that fits, and heapifies it. */
    method Refill(elems: seq<T>)
      requires Valid() && 0 < |elems| <= capacity
      modifies this`size, this`table, this`reporting, buffer
      ensures Valid() && reporting == old(reporting) && Ordered() && multiset(Contents()) == multiset(elems)
      ensures Distinct(elems) ==> Mapped()
    {
      hide HeapOrdered, Tracked, StrictWeakOrder, Distinct;
      CopyIn(0, elems);
      size := |elems|;
      assert Contents() == elems;
      ghost var levels := Heapify();
      if Distinct(elems) { DistinctPermutes(elems, Contents()); }
    }

    method GrowForBulk(needed: nat)
      requires Shaped() && needed <= SIZE_MAX
      modifies this`buffer, this`capacity, this`refusals
      ensures Shaped() && Contents() == old(Contents())
      ensures buffer == old(buffer) || fresh(buffer)
      ensures capacity >= old(capacity)
      ensures refusals >= old(refusals)
      ensures capacity >= Clamp(needed) || refusals > old(refusals)
              || TooBig(old(capacity), Clamp(needed), elemSize)
      ensures capacity > old(capacity) ==> maxCapacity == 0 || capacity <= maxCapacity
      ensures var curve := NextCapacity(old(capacity));
              var target := Clamp(if needed > curve then needed else curve);
              && capacity in {old(capacity), target, Clamp(needed)}
              && (refusals == old(refusals) && target > old(capacity) && !TooBig(old(capacity), target, elemSize) ==>
                    capacity == target)
    {
      var curve := NextCapacity(capacity);
      var target := Clamp(if needed > curve then needed else curve);
      if target > capacity {
        var status := SetCapacity(target);
        if status == Ok { return; }
      }
      var exact := Clamp(needed);
      if exact > capacity && exact < target {
        var status := SetCapacity(exact);
      }
    }

    lemma SliceOf(s: seq<T>, i: nat, j: nat)
      requires i <= j <= |s|
      ensures s[i..j] == s[i..][..j - i]
    {
    }

    /** Sifts the element at `index` up among those before it, through the scratch slot. */
    method SiftSlotUp(index: nat)
      requires Shaped() && index < capacity
      modifies this`table, buffer
      ensures buffer[..index + 1] == HeapOrder.SiftUp(before, old(buffer[..index + 1]), index, old(buffer[index]))
      ensures buffer[index + 1..capacity] == old(buffer[index + 1..capacity])
      ensures table == if reporting
                       then SiftUpTable(before, old(buffer[..index + 1]), index, old(buffer[index]), old(table))
                       else old(table)
    {
      hide HeapOrder.SiftUp, SiftUpTable;
      ghost var was := buffer[..];
      buffer[capacity] := buffer[index];
      assert buffer[..index + 1] == was[..index + 1];
      ghost var mid := buffer[..];
      SliceOf(mid, index + 1, capacity);
      assert mid[index + 1..capacity] == was[index + 1..capacity];
      SiftUp(index, buffer[capacity], index + 1);
      SliceOf(buffer[..], index + 1, capacity);
      assert buffer[index + 1..] == mid[index + 1..];
    }

    /** One turn of the loop below: the rest of the run leads to the same heap. */
    method SiftNextUp(index: nat)
      requires Shaped() && index < size
      modifies this`table, buffer
      ensures PushEach(before, buffer[..index + 1], buffer[index + 1..size])
              == old(PushEach(before, buffer[..index], buffer[index..size]))
      ensures reporting ==> PushEachTable(before, buffer[..index + 1], buffer[index + 1..size], table)
                            == old(PushEachTable(before, buffer[..index], buffer[index..size], table))
      ensures !reporting ==> table == old(table)
    {
      hide HeapOrder.SiftUp, SiftUpTable, PushEach, PushEachTable;
      ghost var was, t := buffer[..], table;
      assert was[..index] == buffer[..index] && was[index..size] == buffer[index..size];
      assert was[..index + 1] == buffer[..index + 1];
      SiftSlotUp(index);
      ghost var now := buffer[..];
      assert now[..index + 1] == buffer[..index + 1];
      assert now[index + 1..size] == buffer[index + 1..size] == buffer[index + 1..capacity][..size - index - 1] == was[index + 1..size];
      PushEachStep(before, was, now, index, size, t);
    }

    /** Sifts the run appended at `start` up, one element at a time. */
    method SiftEachUp(start: nat)
      requires Shaped() && start <= size
      modifies this`table, buffer
      ensures Contents() == PushEach(before, old(buffer[..start]), old(buffer[start..size]))
      ensures table == if reporting
                       then PushEachTable(before, old(buffer[..start]), old(buffer[start..size]), old(table))
                       else old(table)
    {
      hide HeapOrder.SiftUp, SiftUpTable;
      var index := start;
      ghost var goal := PushEach(before, buffer[..start], buffer[start..size]);
      ghost var goalTable := PushEachTable(before, buffer[..start], buffer[start..size], table);
      while index < size
        invariant start <= index <= size
        invariant PushEach(before, buffer[..index], buffer[index..size]) == goal
        invariant reporting ==> PushEachTable(before, buffer[..index], buffer[index..size], table) == goalTable
        invariant !reporting ==> table == old(table)
      {
        SiftNextUp(index);
        index := index + 1;
      }
      assert buffer[index..size] == [];
    }

    /** Appends as many elements as the heap can be grown to hold: a run at least as long
        as the heap rebuilds it, a shorter one sifts each element up. */
    method PushBulk(elems: seq<T>) returns (n: nat)
      requires Valid() && |elems| <= SIZE_MAX
      modifies this, buffer
      ensures Valid() && reporting == old(reporting)
      ensures buffer == old(buffer) || fresh(buffer)
      ensures n <= |elems| && (n < |elems| ==> size == capacity)
      ensures multiset(Contents()) == multiset(old(Contents())) + multiset(elems[..n])
      ensures old(Ordered()) ==> Ordered()
      ensures old(Mapped()) && Distinct(Contents()) ==> Mapped()
      ensures old(capacity - size) >= |elems| ==> n == |elems| && capacity == old(capacity) && refusals == old(refusals)
      ensures refusals >= old(refusals)
      ensures capacity > old(capacity) ==> growable && (maxCapacity == 0 || capacity <= maxCapacity)
      ensures refusals == old(refusals) && (growable ==> Feasible(old(capacity), old(size) + |elems|)) ==>
                n == Least(|elems|, Reach(old(capacity), old(size) + |elems|) - old(size))
      ensures n > 0 ==> Contents() == Appended(before, old(Contents()), elems[..n])
      ensures n == 0 ==> Contents() == old(Contents())
    {
      hide HeapOrdered, Tracked, StrictWeakOrder, Distinct, Appended, TooBig, Reach, Feasible;
      n := 0;
      if |elems| == 0 {
        NothingAsked(capacity, size);
        return;
      }
      n := MakeRoom(|elems|);
      if n == 0 {
        assert elems[..n] == [];
        return;
      }
      AppendRun(elems[..n]);
    }

    lemma NothingAsked(from: nat, needed: nat)
      requires needed <= from
      ensures Reach(from, needed) == from
    {
    }

    /** Grows for `count` more elements if it must and may; how many of them then fit. */
    method MakeRoom(count: nat) returns (n: nat)
      requires Shaped() && 0 < count <= SIZE_MAX
      modifies this`buffer, this`capacity, this`refusals
      ensures Shaped() && Contents() == old(Contents()) && (buffer == old(buffer) || fresh(buffer))
      ensures n <= count && size + n <= capacity && (n < count ==> size + n == capacity)
      ensures refusals >= old(refusals)
      ensures old(capacity - size) >= count ==> n == count && capacity == old(capacity) && refusals == old(refusals)
      ensures capacity > old(capacity) ==> growable && (maxCapacity == 0 || capacity <= maxCapacity)
      ensures refusals == old(refusals) && (growable ==> Feasible(old(capacity), size + count)) ==>
                n == Least(count, Reach(old(capacity), size + count) - size)
    {
      if capacity - size < count && growable && count <= SIZE_MAX - size {
        GrowForBulk(size + count);
      }
      var room := capacity - size;
      n := if count < room then count else room;
    }

    /** Appends a run that fits. */
    method AppendRun(run: seq<T>)
      requires Valid() && |run| > 0 && size + |run| <= capacity
      modifies this`size, this`table, this`reporting, buffer
      ensures Valid() && reporting == old(reporting) && size == old(size) + |run|
      ensures multiset(Contents()) == multiset(old(Contents())) + multiset(run)
      ensures old(Ordered()) ==> Ordered()
      ensures old(Mapped()) && Distinct(Contents()) ==> Mapped()
      ensures Contents() == Appended(before, old(Contents()), run)
    {
      hide HeapOrdered, Tracked, StrictWeakOrder, Distinct, PushEach, HeapifyFrom, PushEachTable;
      ghost var s := Contents();
      var start := size;
      CopyIn(start, run);
      size := start + |run|;
      assert Contents() == s + run;
      assert buffer[..start] == s && buffer[start..size] == run;
      if |run| >= start {
        ghost var levels := Heapify();
      } else {
        PushEachEffect(before, s, run, table);
        SiftEachUp(start);
      }
    }

    /** Pops one more element onto what has been drained of `start`. */
    method PopOnto(out: seq<T>, ghost start: seq<T>) returns (more: seq<T>)
      requires Valid() && size > 0 && multiset(out) + multiset(Contents()) == multiset(start)
      modifies this`size, this`table, buffer
      ensures Valid() && size == old(size) - 1 && |more| == |out| + 1
      ensures multiset(more) + multiset(Contents()) == multiset(start)
      ensures old(Ordered() && Drained(before, out, Contents())) ==> Ordered() && Drained(before, more, Contents())
      ensures old(Mapped()) && Distinct(start) ==> Mapped()
    {
      hide HeapOrdered, Drained, Tracked, StrictWeakOrder;
      ghost var s := Contents();
      var status, x := Pop();
      more := out + [x];
      assert x in s;
      MovedOut(out, s, x, Contents(), start);
      if old(Ordered() && Drained(before, out, Contents())) { DrainStep(before, out, s, x, Contents()); }
    }

    /** Pops up to `count` elements, root first. */
    method PopBulk(count: nat) returns (out: seq<T>)
      requires Valid()
      modifies this`size, this`table, buffer
      ensures Valid()
      ensures |out| == (if count < old(size) then count else old(size)) && size == old(size) - |out|
      ensures multiset(out) + multiset(Contents()) == multiset(old(Contents()))
      ensures old(Ordered()) ==> Ordered() && Drained(before, out, Contents())
      ensures old(Mapped()) && Distinct(old(Contents())) ==> Mapped()
    {
      var n := if count < size then count else size;
      out := [];
      ghost var start := Contents();
      for i := 0 to n
        invariant Valid() && |out| == i && size == old(size) - i
        invariant multiset(out) + multiset(Contents()) == multiset(start)
        invariant old(Ordered()) ==> Ordered() && Drained(before, out, Contents())
        invariant old(Mapped()) && Distinct(start) ==> Mapped()
      {
        out := PopOnto(out, start);
      }
    }

    // --- Diagnostics ---------------------------------------------------------

    /** The self-check, on any size and capacity. */
    method IsValid() returns (ok: bool)
      requires buffer.Length == 0 || buffer.Length == capacity + 1
      ensures ok <==> size <= capacity && (size > 0 ==> buffer.Length > 0) && HeapOrdered(before, buffer[..size])
    {
      if size > capacity { return false; }
      if size > 0 && buffer.Length == 0 { return false; }
      ghost var s := buffer[..size];
      var i: nat := 1;
      while i < size
        invariant 1 <= i && (size > 0 ==> i <= size)
        invariant forall j :: 0 < j < i && j < size ==> InOrder(before, s, j)
      {
        var parent := (i - 1) / 2;
        if before(buffer[i], buffer[parent]) {
          assert !InOrder(before, s, i);
          return false;
        }
        i := i + 1;
      }
      ok := true;
    }
  }

  /** Sets up a heap with its initial capacity, or nothing at all. */
  method Init<T(0, ==, !new)>(elemSize: nat, before: (T, T) -> bool, initial: nat, max: nat, growable: bool, reporting: bool)
    returns (status: Status, h: Heap?<T>)
    requires StrictWeakOrder(before) && initial <= SIZE_MAX
    ensures status == Invalid <==> elemSize == 0 || (growable && max != 0 && max < initial)
    ensures status == Overflow <==> status != Invalid && elemSize > 0 && BytesFor(initial, elemSize).0 != Ok
    ensures status in {Ok, Invalid, Overflow, NoMemory} && (h == null <==> status != Ok)
    ensures status == NoMemory ==> initial > 0
    ensures h != null ==>
              && fresh(h) && fresh(h.buffer) && h.Valid() && h.Contents() == [] && h.Ordered() && h.Mapped()
              && h.capacity == initial && h.before == before && h.growable == growable && h.reporting == reporting
              && h.elemSize == elemSize && h.initialCapacity == initial
              && h.maxCapacity == if growable then max else initial
  {
    if elemSize == 0 { return Invalid, null; }
    if growable && max != 0 && max < initial { return Invalid, null; }
    h := new Heap(elemSize, before, initial, max, growable, reporting);
    if initial > 0 {
      status := h.SetCapacity(initial);
      if status != Ok { return status, null; }
    }
    status := Ok;
  }

  /** However two heaps came to hold the same elements (built bottom-up, pushed one by
      one, or appended by either bulk strategy), draining them yields those elements in
      priority order, and the two orders agree up to equivalent elements. */
  method DrainBoth<T(0, ==, !new)>(a: Heap<T>, b: Heap<T>) returns (x: seq<T>, y: seq<T>)
    requires a.Valid() && b.Valid() && a != b && a.buffer != b.buffer && a.before == b.before
    requires a.Ordered() && b.Ordered() && multiset(a.Contents()) == multiset(b.Contents())
    modifies a, a.buffer, b, b.buffer
    ensures multiset(x) == multiset(y) == old(multiset(a.Contents()))
    ensures Sorted(a.before, x) && Sorted(a.before, y)
    ensures |x| == |y| && forall i :: 0 <= i < |x| ==> Equivalent(a.before, x[i], y[i])
  {
    ghost var elems := multiset(a.Contents());
    x := a.PopBulk(a.size);
    assert a.Contents() == [] && multiset(x) == elems;
    assert multiset(b.Contents()) == elems;
    y := b.PopBulk(b.size);
    assert b.Contents() == [] && multiset(y) == elems;
    SortedAgree(a.before, x, y);
  }
}
