/// The ring deque of the job system (JobQueue in engine/core/src/jobs.cpp). Each method is one
/// critical section of its lock. `i & m_mask` is `i % capacity`: the capacity is a power of two.
module JobQueues {
  import opened Naturals
  import opened Options

  /// Jobs are told apart by number.
  type Job = nat

  /// A queued job with the number of pushes that came before its own.
  datatype Entry = Entry(job: Job, stamp: nat)

  /// The plain double-ended sequence: entry k sits at the absolute index head + k.
  datatype Deque = Deque(head: nat, entries: seq<Entry>, pushes: nat)

  function Tail(d: Deque): nat {
    d.head + |d.entries|
  }

  function Pushed(d: Deque, job: Job): Deque {
    d.(entries := d.entries + [Entry(job, d.pushes)], pushes := d.pushes + 1)
  }

  function PushedMany(d: Deque, jobs: seq<Job>): Deque {
    if jobs == [] then d else Pushed(PushedMany(d, jobs[..|jobs| - 1]), jobs[|jobs| - 1])
  }

  function PoppedBack(d: Deque): Deque
    requires d.entries != []
  {
    d.(entries := d.entries[..|d.entries| - 1])
  }

  function PoppedFront(d: Deque, n: nat): Deque
    requires n <= |d.entries|
  {
    d.(head := d.head + n, entries := d.entries[n..])
  }

  function Jobs(entries: seq<Entry>): (jobs: seq<Job>)
    ensures |jobs| == |entries|
    ensures forall i :: 0 <= i < |entries| ==> jobs[i] == entries[i].job
  {
    seq(|entries|, i requires 0 <= i < |entries| => entries[i].job)
  }

  // -- Indices in the ring -------------------------------------------------------------------

  const INITIAL_CAPACITY: nat := 256

  predicate PowerOfTwo(n: nat) {
    n == 1 || (n > 1 && n % 2 == 0 && PowerOfTwo(n / 2))
  }

  function Slot(i: nat, capacity: nat): (s: nat)
    requires capacity > 0
    ensures s < capacity
  {
    i % capacity
  }

  /// Indices less than a whole ring apart use different slots.
  lemma SlotsDiffer(i: nat, j: nat, capacity: nat)
    requires i < j < i + capacity
    ensures Slot(i, capacity) != Slot(j, capacity)
  {
    if i % capacity == j % capacity {
      var k := j / capacity - i / capacity;
      assert j - i == k * capacity;
      if k >= 1 { ProductGrows(1, k, capacity); } else { ProductGrows(k, 0, capacity); }
      assert false;
    }
  }

  /// The ring holds exactly the entries, each in its own slot.
  predicate Stores(slots: seq<Job>, d: Deque) {
    && |slots| > 0 && |d.entries| <= |slots|
    && forall k {:trigger d.entries[k]} :: 0 <= k < |d.entries| ==> slots[Slot(d.head + k, |slots|)] == d.entries[k].job
  }

  lemma PushStores(slots: seq<Job>, d: Deque, job: Job)
    requires Stores(slots, d) && |d.entries| < |slots|
    ensures Stores(slots[Slot(Tail(d), |slots|) := job], Pushed(d, job))
  {
    forall k {:trigger d.entries[k]} | 0 <= k < |d.entries|
      ensures Slot(d.head + k, |slots|) != Slot(Tail(d), |slots|)
    {
      SlotsDiffer(d.head + k, Tail(d), |slots|);
    }
  }

  lemma PopStores(slots: seq<Job>, d: Deque, n: nat)
    requires Stores(slots, d) && n <= |d.entries|
    ensures Stores(slots, PoppedFront(d, n))
    ensures d.entries != [] ==> Stores(slots, PoppedBack(d))
  {
    var e := PoppedFront(d, n);
    forall k | 0 <= k < |e.entries| ensures slots[Slot(e.head + k, |slots|)] == e.entries[k].job {
      assert e.entries[k] == d.entries[n + k] && e.head + k == d.head + (n + k);
    }
  }

  function Oldest(d: Deque, n: nat): Deque
    requires n <= |d.entries|
  {
    d.(entries := d.entries[..n])
  }

  /// Moving one more entry into a larger ring.
  lemma MoveStores(slots: seq<Job>, larger: seq<Job>, d: Deque, n: nat)
    requires Stores(slots, d) && n < |d.entries| && n < |larger| && Stores(larger, Oldest(d, n))
    ensures Stores(larger[Slot(d.head + n, |larger|) := slots[Slot(d.head + n, |slots|)]], Oldest(d, n + 1))
  {
    assert slots[Slot(d.head + n, |slots|)] == d.entries[n].job;
    var s := Slot(d.head + n, |larger|);
    forall k {:trigger d.entries[k]} | 0 <= k < n ensures Slot(d.head + k, |larger|) != s {
      SlotsDiffer(d.head + k, d.head + n, |larger|);
    }
    var moved := larger[s := slots[Slot(d.head + n, |slots|)]];
    forall k {:trigger d.entries[k]} | 0 <= k < n + 1
      ensures moved[Slot(d.head + k, |moved|)] == Oldest(d, n + 1).entries[k].job
    {
      if k < n { assert Oldest(d, n).entries[k] == d.entries[k]; }
    }
  }

  // -- The queue -----------------------------------------------------------------------------

  class JobQueue {
    var m_slots: array<Job>
    var m_head: nat
    var m_tail: nat
    var m_size: nat
    ghost var deque: Deque

    ghost predicate Valid()
      reads this, m_slots
    {
      && Stores(m_slots[..], deque) && PowerOfTwo(m_slots.Length) && m_slots.Length >= INITIAL_CAPACITY
      && m_head == deque.head && m_tail == Tail(deque) && m_size == m_tail - m_head
    }

    constructor ()
      ensures Valid() && fresh(m_slots) && deque == Deque(0, [], 0)
    {
      m_slots := new Job[INITIAL_CAPACITY];
      m_head, m_tail, m_size, deque := 0, 0, 0, Deque(0, [], 0);
    }

    /// Doubles the ring; every entry keeps its absolute index and moves to its new slot.
    method Grow()
      requires Valid()
      modifies this`m_slots
      ensures Valid() && fresh(m_slots) && m_slots.Length == 2 * old(m_slots.Length)
    {
      var capacity := m_slots.Length;
      assert PowerOfTwo(2 * capacity);
      hide Slot, PowerOfTwo;
      var slots := new Job[2 * capacity];
      var i := m_head;
      while i != m_tail
        invariant m_head <= i <= m_tail
        invariant Stores(slots[..], Oldest(deque, i - m_head))
        decreases m_tail - i
        modifies slots
      {
        MoveStores(m_slots[..], slots[..], deque, i - m_head);
        slots[Slot(i, 2 * capacity)] := m_slots[Slot(i, capacity)];
        i := i + 1;
      }
      assert deque.entries[..m_tail - m_head] == deque.entries;
      m_slots := slots;
    }

    method Push(job: Job)
      requires Valid()
      modifies this, m_slots
      ensures Valid() && (m_slots == old(m_slots) || fresh(m_slots))
      ensures deque == Pushed(old(deque), job)
    {
      Append(job);
      m_size := m_tail - m_head;
    }

    /// The step that push and pushMany share.
    method Append(job: Job)
      requires Stores(m_slots[..], deque) && PowerOfTwo(m_slots.Length) && m_slots.Length >= INITIAL_CAPACITY
      requires m_head == deque.head && m_tail == Tail(deque) && m_size <= m_tail - m_head
      modifies this, m_slots
      ensures m_slots == old(m_slots) || fresh(m_slots)
      ensures Stores(m_slots[..], deque) && PowerOfTwo(m_slots.Length) && m_slots.Length >= INITIAL_CAPACITY
      ensures m_head == deque.head && m_tail == Tail(deque) && m_size == old(m_size)
      ensures deque == Pushed(old(deque), job)
    {
      if m_tail - m_head == m_slots.Length {
        var size := m_size;
        m_size := m_tail - m_head;
        Grow();
        m_size := size;
      }
      PushStores(m_slots[..], deque, job);
      m_slots[m_tail % m_slots.Length] := job;
      m_tail := m_tail + 1;
      deque := Pushed(deque, job);
    }

    method PushMany(jobs: array<Job>, count: nat)
      requires Valid() && jobs != m_slots && count <= jobs.Length
      modifies this, m_slots
      ensures Valid() && (m_slots == old(m_slots) || fresh(m_slots))
      ensures deque == PushedMany(old(deque), jobs[..count])
    {
      if count == 0 {
        return;
      }
      for i := 0 to count
        invariant m_slots != jobs && (m_slots == old(m_slots) || fresh(m_slots))
        invariant Stores(m_slots[..], deque) && PowerOfTwo(m_slots.Length) && m_slots.Length >= INITIAL_CAPACITY
        invariant m_head == deque.head && m_tail == Tail(deque) && m_size <= m_tail - m_head
        invariant deque == PushedMany(old(deque), jobs[..i])
        invariant jobs[..] == old(jobs[..])
      {
        Append(jobs[i]);
        assert jobs[..i + 1][..i] == jobs[..i];
      }
      m_size := m_tail - m_head;
    }

    /// The owner's end: the newest job.
    method PopBack() returns (job: Option<Job>)
      requires Valid()
      modifies this
      ensures Valid() && m_slots == old(m_slots)
      ensures job.Some? <==> old(deque).entries != []
      ensures job.None? ==> deque == old(deque)
      ensures job.Some? ==> deque == PoppedBack(old(deque))
                            && job.value == old(deque).entries[|old(deque).entries| - 1].job
    {
      if m_size <= 0 || m_tail == m_head {
        return None;
      }
      PopStores(m_slots[..], deque, 0);
      m_tail := m_tail - 1;
      job := Some(m_slots[m_tail % m_slots.Length]);
      assert deque.entries[m_tail - m_head].job == job.value;
      deque := PoppedBack(deque);
      m_size := m_tail - m_head;
    }

    method PopBackAbove(floor: nat) returns (job: Option<Job>)
      requires Valid()
      modifies this
      ensures Valid() && m_slots == old(m_slots)
      ensures job.Some? <==> old(deque).entries != [] && Tail(old(deque)) > floor
      ensures job.None? ==> deque == old(deque)
      ensures job.Some? ==> deque == PoppedBack(old(deque))
                            && job.value == old(deque).entries[|old(deque).entries| - 1].job
    {
      if m_size <= 0 || m_tail == m_head || m_tail <= floor {
        return None;
      }
      PopStores(m_slots[..], deque, 0);
      m_tail := m_tail - 1;
      job := Some(m_slots[m_tail % m_slots.Length]);
      assert deque.entries[m_tail - m_head].job == job.value;
      deque := PoppedBack(deque);
      m_size := m_tail - m_head;
    }

    method OwnerTail() returns (tail: nat)
      requires Valid()
      ensures tail == Tail(deque)
    {
      tail := m_tail;
    }

    /// The other end, for thieves: the oldest job.
    method PopFront() returns (job: Option<Job>)
      requires Valid()
      modifies this
      ensures Valid() && m_slots == old(m_slots)
      ensures job.Some? <==> old(deque).entries != []
      ensures job.None? ==> deque == old(deque)
      ensures job.Some? ==> deque == PoppedFront(old(deque), 1) && job.value == old(deque).entries[0].job
    {
      if m_size <= 0 || m_tail == m_head {
        return None;
      }
      PopStores(m_slots[..], deque, 1);
      job := Some(m_slots[m_head % m_slots.Length]);
      assert deque.entries[0].job == job.value;
      m_head := m_head + 1;
      deque := PoppedFront(deque, 1);
      m_size := m_tail - m_head;
    }

    method PopFrontMany(out: array<Job>, max: nat) returns (n: nat)
      requires Valid() && out != m_slots && max <= out.Length
      modifies this, out
      ensures Valid() && m_slots == old(m_slots)
      ensures n == if |old(deque).entries| < max then |old(deque).entries| else max
      ensures deque == PoppedFront(old(deque), n)
      ensures out[..n] == Jobs(old(deque).entries[..n]) && out[n..] == old(out[n..])
    {
      n := 0;
      if m_size <= 0 {
        return;
      }
      ghost var start := deque;
      while n < max && m_head != m_tail
        invariant n <= max && n <= |start.entries| && deque == PoppedFront(start, n)
        invariant m_head == deque.head && m_tail == Tail(deque) && m_slots == old(m_slots)
        invariant Stores(m_slots[..], deque) && PowerOfTwo(m_slots.Length)
        invariant forall i :: 0 <= i < n ==> out[i] == start.entries[i].job
        invariant out[n..] == old(out[n..])
        decreases max - n
      {
        PopStores(m_slots[..], deque, 1);
        assert deque.entries[0] == start.entries[n];
        out[n] := m_slots[m_head % m_slots.Length];
        n := n + 1;
        m_head := m_head + 1;
        deque := PoppedFront(deque, 1);
      }
      m_size := m_tail - m_head;
    }
  }

  // -- What a floor protects -----------------------------------------------------------------

  datatype Op = Push(job: Job) | PopBack | PopBackAbove(floor: nat) | PopFront(n: nat)

  /// Any operation of any thread on the queue; the pops of an empty queue do nothing.
  function Do(d: Deque, op: Op): Deque {
    match op
    case Push(job) => Pushed(d, job)
    case PopBack => if d.entries == [] then d else PoppedBack(d)
    case PopBackAbove(floor) => if d.entries == [] || Tail(d) <= floor then d else PoppedBack(d)
    case PopFront(n) => PoppedFront(d, if n <= |d.entries| then n else |d.entries|)
  }

  function Run(d: Deque, ops: seq<Op>): Deque {
    if ops == [] then d else Do(Run(d, ops[..|ops| - 1]), ops[|ops| - 1])
  }

  /// From the moment the owner reads its tail, whatever is pushed, popped and stolen later, the
  /// entries at or above that index are ones pushed after the read.
  lemma {:induction false} AboveFloorIsNewer(d: Deque, ops: seq<Op>)
    ensures var e := Run(d, ops);
            e.pushes >= d.pushes
            && forall k :: 0 <= k < |e.entries| && e.head + k >= Tail(d) ==> e.entries[k].stamp >= d.pushes
  {
    if ops != [] {
      AboveFloorIsNewer(d, ops[..|ops| - 1]);
    }
  }

  /// So popBackAbove with that floor never returns a job that was pushed before the read.
  lemma PopAboveIsNewer(d: Deque, ops: seq<Op>, e: Deque)
    requires e == Run(d, ops) && e.entries != [] && Tail(e) > Tail(d)
    ensures Do(e, PopBackAbove(Tail(d))) == PoppedBack(e)
    ensures e.entries[|e.entries| - 1].stamp >= d.pushes
  {
    AboveFloorIsNewer(d, ops);
  }

  /// The batch a worker moves from a global queue keeps its order: the worker runs the first job,
  /// queues the others newest first, and takes them back oldest first.
  lemma {:induction false} BatchKeepsOrder(d: Deque, batch: seq<Job>, k: nat)
    requires k < |batch|
    ensures var e := PushedMany(d, Reversed(batch));
            |e.entries| == |d.entries| + |batch|
            && e.entries[|e.entries| - 1 - k].job == batch[k]
            && e.entries[..|d.entries|] == d.entries
  {
    PushedManyAppends(d, Reversed(batch));
    assert PushedMany(d, Reversed(batch)).entries[|d.entries| + (|batch| - 1 - k)].job
           == Reversed(batch)[|batch| - 1 - k];
  }

  function Reversed(s: seq<Job>): (r: seq<Job>)
    ensures |r| == |s| && forall i :: 0 <= i < |s| ==> r[i] == s[|s| - 1 - i]
  {
    if s == [] then [] else [s[|s| - 1]] + Reversed(s[..|s| - 1])
  }

  lemma {:induction false} PushedManyAppends(d: Deque, jobs: seq<Job>)
    ensures var e := PushedMany(d, jobs);
            e.head == d.head && |e.entries| == |d.entries| + |jobs| && e.entries[..|d.entries|] == d.entries
            && forall i :: 0 <= i < |jobs| ==> e.entries[|d.entries| + i].job == jobs[i]
  {
    if jobs != [] {
      PushedManyAppends(d, jobs[..|jobs| - 1]);
    }
  }
}
