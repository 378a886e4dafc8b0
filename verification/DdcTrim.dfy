/// The running byte total of the local derived-data cache (LocalDdc in engine/assetpipe/src/ddc.cpp):
/// puts that rename a file and then add to the total, and serialized trims that list the store one
/// file at a time and then remove files, oldest first. One process writes, and every listing can be read.
module DdcTrim {
  import opened Naturals
  import opened Options
  import opened OrderedSets
  import opened Sums

  type Key = nat
  type ThreadId = nat

  /// The eviction of a trim: the listed keys, oldest first, with the sizes they were listed at; how many
  /// were tried, what the others and those that stayed come to, and (a history) the keys removed and
  /// whether a removal failed.
  datatype Eviction = Eviction(order: seq<Key>, sizes: seq<nat>, next: nat, total: nat, evicted: seq<Key>, failed: bool)

  /// A trim: the total it started from, the keys its listing has reached, the times it read there, the
  /// sizes it listed and still counts, and (a history) what was renamed over each key since it started.
  datatype Trim = Trim(before: nat, looked: seq<bool>, times: seq<int>, listed: seq<nat>, renamed: seq<nat>,
                       work: Option<Eviction>)

  datatype Limits = Limits(cap: nat, percent: nat)

  /// `disk` is the size of each key's file, 0 when there is none (every entry has a header);
  /// `pending` the size of each thread's put between its rename and its addition to the total.
  datatype Store = Store(limits: Limits, disk: seq<nat>, bytes: nat, pending: seq<nat>, trim: Option<Trim>)

  datatype Step =
    | Rename(t: ThreadId, key: Key, size: nat)
    | Add(t: ThreadId)
    | AddWithoutRename(size: nat)           // another writer's entry was as good
    | StartTrim
    | Look(key: Key, time: int)
    | Order(order: seq<Key>)
    | Remove(gone: bool)                    // an eviction, or one that failed
    | EndTrim

  function None0(n: nat): (s: seq<nat>)
    ensures |s| == n && forall i :: 0 <= i < n ==> s[i] == 0
  {
    seq(n, _ => 0)
  }

  predicate AllLooked(t: Trim) {
    forall k :: 0 <= k < |t.looked| ==> t.looked[k]
  }

  /// cap * percent / 100 without overflow.
  function Target(cap: nat, percent: nat): nat {
    cap / 100 * percent + cap % 100 * percent / 100
  }

  function TargetOf(l: Limits): nat {
    Target(l.cap, l.percent)
  }

  /// Less recently used, ties by path.
  predicate OlderThan(times: seq<int>, a: Key, b: Key)
    requires a < |times| && b < |times|
  {
    times[a] < times[b] || (times[a] == times[b] && a < b)
  }

  /// Exactly the keys that have a listed file, the least recently used first.
  predicate OldestFirst(order: seq<Key>, sizes: seq<nat>, times: seq<int>)
    requires |sizes| == |times|
  {
    && (forall k :: k in order ==> k < |sizes| && sizes[k] > 0)
    && (forall k :: 0 <= k < |sizes| && sizes[k] > 0 ==> k in order)
    && forall i, j :: 0 <= i < j < |order| && order[i] < |times| && order[j] < |times| ==>
         OlderThan(times, order[i], order[j])
  }

  predicate Sized(s: Store) {
    s.trim.Some? ==>
      var t := s.trim.value;
      && |t.looked| == |t.times| == |t.listed| == |t.renamed| == |s.disk|
      && (t.work.Some? ==> |t.work.value.sizes| == |s.disk| && forall k :: k in t.work.value.order ==> k < |s.disk|)
  }

  predicate Enabled(s: Store, step: Step)
    requires Sized(s)
  {
    match step
    case Rename(t, key, size) => t < |s.pending| && s.pending[t] == 0 && key < |s.disk| && size > 0
    case Add(t) => t < |s.pending| && s.pending[t] > 0
    case AddWithoutRename(size) => true
    case StartTrim => s.trim.None?
    case Look(key, _) =>
      s.trim.Some? && s.trim.value.work.None? && key < |s.trim.value.looked| && !s.trim.value.looked[key]
    case Order(order) =>
      && s.trim.Some? && s.trim.value.work.None? && AllLooked(s.trim.value)
      && OldestFirst(order, s.trim.value.listed, s.trim.value.times)
    case Remove(_) =>
      && s.trim.Some? && s.trim.value.work.Some?
      && s.trim.value.work.value.next < |s.trim.value.work.value.order|
      && s.trim.value.work.value.total > TargetOf(s.limits)
    case EndTrim =>
      && s.trim.Some? && s.trim.value.work.Some?
      && (s.trim.value.work.value.next >= |s.trim.value.work.value.order|
          || s.trim.value.work.value.total <= TargetOf(s.limits))
  }

  function Less(a: nat, b: nat): nat {
    if a >= b then a - b else 0
  }

  /// One removal of a trim: the next key in order.
  function Removed(disk: seq<nat>, t: Trim, gone: bool): (seq<nat>, Trim)
    requires t.work.Some? && t.work.value.next < |t.work.value.order|
    requires |t.listed| == |t.work.value.sizes| == |disk| && t.work.value.order[t.work.value.next] < |disk|
  {
    var w := t.work.value;
    var key := w.order[w.next];
    if gone then
      (disk[key := 0],
       t.(listed := t.listed[key := 0],
          work := Some(w.(next := w.next + 1, total := Less(w.total, w.sizes[key]), evicted := w.evicted + [key]))))
    else (disk, t.(work := Some(w.(next := w.next + 1, failed := true))))
  }

  function Do(s: Store, step: Step): Store
    requires Sized(s) && Enabled(s, step)
  {
    match step
    case Rename(t, key, size) =>
      s.(disk := s.disk[key := size], pending := s.pending[t := size],
         trim := if s.trim.None? then None
                 else Some(s.trim.value.(renamed := s.trim.value.renamed[key := s.trim.value.renamed[key] + size])))
    case Add(t) => s.(bytes := s.bytes + s.pending[t], pending := s.pending[t := 0])
    case AddWithoutRename(size) => s.(bytes := s.bytes + size)
    case StartTrim =>
      var n := |s.disk|;
      s.(trim := Some(Trim(s.bytes, seq(n, _ => false), None0(n), None0(n), None0(n), None)))
    case Look(key, time) =>
      var t := s.trim.value;
      s.(trim := Some(t.(looked := t.looked[key := true], times := t.times[key := time],
                         listed := t.listed[key := s.disk[key]])))
    case Order(order) =>
      var t := s.trim.value;
      s.(trim := Some(t.(work := Some(Eviction(order, t.listed, 0, Sum(t.listed), [], false)))))
    case Remove(gone) =>
      var w := s.trim.value.work.value;
      assert w.order[w.next] in w.order;
      var (disk, t) := Removed(s.disk, s.trim.value, gone);
      s.(disk := disk, trim := Some(t))
    case EndTrim => s.(bytes := NewTotal(s.bytes, s.trim.value.before, s.trim.value.work.value.total), trim := None)
  }

  /// The measured total plus what was put since the trim started.
  function NewTotal(bytes: nat, before: nat, total: nat): nat {
    if total >= before then bytes + (total - before) else Less(bytes, before - total)
  }

  // -- Invariant -----------------------------------------------------------------------------

  predicate KeyOk(disk: seq<nat>, t: Trim, k: nat)
    requires |t.looked| == |t.listed| == |t.renamed| == |disk| && k < |disk|
  {
    && (t.looked[k] ==> disk[k] <= t.listed[k] + t.renamed[k])
    && (t.looked[k] && t.renamed[k] == 0 ==> disk[k] == t.listed[k])
    && (!t.looked[k] ==> t.listed[k] == 0)
  }

  /// The sizes of the keys in order.
  function InSequence(sizes: seq<nat>, order: seq<Key>): (s: seq<nat>)
    ensures |s| == |order| && forall i :: 0 <= i < |s| ==> s[i] == if order[i] < |sizes| then sizes[order[i]] else 0
  {
    seq(|order|, i requires 0 <= i < |order| => if order[i] < |sizes| then sizes[order[i]] else 0)
  }

  /// Without failures, the keys tried so far are gone, what is left is the rest, and each was needed.
  predicate EvictsPrefix(w: Eviction, target: nat) {
    && w.next <= |w.order| && w.evicted == w.order[..w.next]
    && w.total == Sum(InSequence(w.sizes, w.order)[w.next..])
    && forall m :: 0 <= m < w.next ==> Sum(InSequence(w.sizes, w.order)[m..]) > target
  }

  predicate EvictionOk(t: Trim, target: nat)
    requires t.work.Some? && |t.listed| == |t.times| == |t.work.value.sizes|
  {
    var w := t.work.value;
    && AllLooked(t) && w.next <= |w.order| && OldestFirst(w.order, w.sizes, t.times)
    && w.total == Sum(t.listed)
    && (forall i :: w.next <= i < |w.order| && w.order[i] < |t.listed| ==> t.listed[w.order[i]] == w.sizes[w.order[i]])
    && (!w.failed ==> EvictsPrefix(w, target))
  }

  predicate Inv(s: Store) {
    && Sized(s) && Sum(s.disk) <= s.bytes + Sum(s.pending)
    && (s.trim.Some? ==>
          var t := s.trim.value;
          && t.before <= s.bytes && Sum(t.renamed) <= s.bytes - t.before + Sum(s.pending)
          && (forall k :: 0 <= k < |s.disk| ==> KeyOk(s.disk, t, k))
          && (t.work.Some? ==> EvictionOk(t, TargetOf(s.limits))))
  }

  lemma {:induction false} SumOfNone(n: nat)
    ensures Sum(None0(n)) == 0
  {
    if n > 0 {
      SumOfNone(n - 1);
      assert None0(n)[..n - 1] == None0(n - 1);
    }
  }

  lemma RenameKeepsInv(s: Store, t: ThreadId, key: Key, size: nat)
    requires Inv(s) && Enabled(s, Rename(t, key, size))
    ensures Inv(Do(s, Rename(t, key, size)))
  {
    hide OldestFirst, EvictsPrefix;
    var u := Do(s, Rename(t, key, size));
    SumUpdate(s.disk, key, size);
    SumUpdate(s.pending, t, size);
    if s.trim.Some? {
      SumUpdate(s.trim.value.renamed, key, s.trim.value.renamed[key] + size);
      forall k | 0 <= k < |s.disk| ensures KeyOk(u.disk, u.trim.value, k) { assert KeyOk(s.disk, s.trim.value, k); }
    }
  }

  lemma LookKeepsInv(s: Store, key: Key, time: int)
    requires Inv(s) && Enabled(s, Look(key, time))
    ensures Inv(Do(s, Look(key, time)))
  {
    var u := Do(s, Look(key, time));
    forall k | 0 <= k < |s.disk| ensures KeyOk(u.disk, u.trim.value, k) { assert KeyOk(s.disk, s.trim.value, k); }
  }

  lemma {:induction false} SumOfZeros(sizes: seq<nat>)
    requires forall k :: 0 <= k < |sizes| ==> sizes[k] == 0
    ensures Sum(sizes) == 0
  {
    if sizes != [] { SumOfZeros(sizes[..|sizes| - 1]); }
  }

  /// Exactly the keys with a size.
  ghost predicate Lists(order: seq<Key>, sizes: seq<nat>) {
    NoRepeats(order) && forall k: Key :: k in order <==> k < |sizes| && sizes[k] > 0
  }

  lemma WithoutLast(sizes: seq<nat>, order: seq<Key>)
    requires Lists(order, sizes) && order != []
    ensures order[|order| - 1] < |sizes|
    ensures var less := sizes[order[|order| - 1] := 0];
      && Lists(order[..|order| - 1], less)
      && InSequence(less, order[..|order| - 1]) == InSequence(sizes, order)[..|order| - 1]
  {
    var n := |order| - 1;
    var front, last := order[..n], order[n];
    assert last in order;
    var less := sizes[last := 0];
    forall k: Key ensures k in front <==> k < |less| && less[k] > 0 {
      assert k in front <==> k in order && k != last;
    }
    forall i | 0 <= i < n ensures InSequence(less, front)[i] == InSequence(sizes, order)[i] {
      assert front[i] == order[i] && order[i] in order && order[i] != last;
    }
  }

  /// The listed sizes come to the same in any order of their keys.
  lemma {:induction false} SumInSequence(sizes: seq<nat>, order: seq<Key>)
    requires Lists(order, sizes)
    ensures Sum(sizes) == Sum(InSequence(sizes, order))
    decreases |order|
  {
    if order == [] {
      forall k | 0 <= k < |sizes| ensures sizes[k] == 0 { assert k !in order; }
      SumOfZeros(sizes);
    } else {
      var n := |order| - 1;
      WithoutLast(sizes, order);
      assert order[n] in order;
      hide Lists;
      SumUpdate(sizes, order[n], 0);
      SumInSequence(sizes[order[n] := 0], order[..n]);
    }
  }

  lemma OldestFirstHasNoRepeats(order: seq<Key>, sizes: seq<nat>, times: seq<int>)
    requires |sizes| == |times| && OldestFirst(order, sizes, times)
    ensures Lists(order, sizes) && forall i :: 0 <= i < |order| ==> order[i] < |sizes|
  {
    forall i | 0 <= i < |order| ensures order[i] < |sizes| { assert order[i] in order; }
    forall i, j | 0 <= i < j < |order| ensures order[i] != order[j] {
      assert OlderThan(times, order[i], order[j]);
    }
  }

  lemma OrderKeepsInv(s: Store, order: seq<Key>)
    requires Inv(s) && Enabled(s, Order(order))
    ensures Inv(Do(s, Order(order)))
  {
    var t := s.trim.value;
    var u := Do(s, Order(order));
    OldestFirstHasNoRepeats(order, t.listed, t.times);
    SumInSequence(t.listed, order);
    var w := u.trim.value.work.value;
    assert InSequence(w.sizes, w.order)[0..] == InSequence(w.sizes, w.order);
    hide InSequence, Sum;
    forall k | 0 <= k < |s.disk| ensures KeyOk(u.disk, u.trim.value, k) { assert KeyOk(s.disk, t, k); }
  }

  /// Dropping the first of the remaining sizes.
  lemma SumFromNext(sizes: seq<nat>, n: nat)
    requires n < |sizes|
    ensures Sum(sizes[n..]) == sizes[n] + Sum(sizes[n + 1..])
  {
    SplitSum(sizes[n..], 1);
    assert sizes[n..][..1] == [sizes[n]] && sizes[n..][1..] == sizes[n + 1..];
    assert [sizes[n]][..0] == [] && Sum([sizes[n]]) == sizes[n];
  }

  lemma TriedOneMore(w: Eviction, target: nat)
    requires w.next < |w.order| && w.order[w.next] < |w.sizes| && w.total > target && EvictsPrefix(w, target)
    ensures var key := w.order[w.next];
      EvictsPrefix(w.(next := w.next + 1, total := Less(w.total, w.sizes[key]), evicted := w.evicted + [key]), target)
  {
    SumFromNext(InSequence(w.sizes, w.order), w.next);
    hide InSequence, Sum;
    assert w.order[..w.next + 1] == w.order[..w.next] + [w.order[w.next]];
  }

  lemma RemovedKeepsEviction(disk: seq<nat>, t: Trim, gone: bool, target: nat)
    requires t.work.Some? && |t.listed| == |t.times| == |t.work.value.sizes| == |disk| && EvictionOk(t, target)
    requires t.work.value.next < |t.work.value.order| && t.work.value.total > target
    ensures t.work.value.order[t.work.value.next] < |disk|
    ensures EvictionOk(Removed(disk, t, gone).1, target)
  {
    hide OldestFirst, Sum, InSequence, EvictsPrefix, Lists;
    var w := t.work.value;
    OldestFirstHasNoRepeats(w.order, w.sizes, t.times);
    var key := w.order[w.next];
    if !w.failed { TriedOneMore(w, target); }
    SumUpdate(t.listed, key, 0);
    assert forall i :: w.next < i < |w.order| ==> w.order[i] != key by { LaterDiffers(w.order, w.sizes, w.next); }
  }

  lemma LaterDiffers(order: seq<Key>, sizes: seq<nat>, n: nat)
    requires Lists(order, sizes) && n < |order|
    ensures forall i :: n < i < |order| ==> order[i] != order[n]
  {
  }

  lemma RemoveKeepsInv(s: Store, gone: bool)
    requires Inv(s) && Enabled(s, Remove(gone))
    ensures Inv(Do(s, Remove(gone)))
  {
    hide OldestFirst, EvictsPrefix, Sum;
    var t, u := s.trim.value, Do(s, Remove(gone));
    RemovedKeepsEviction(s.disk, t, gone, TargetOf(s.limits));
    SumUpdate(s.disk, t.work.value.order[t.work.value.next], 0);
    forall k | 0 <= k < |s.disk| ensures KeyOk(u.disk, u.trim.value, k) { assert KeyOk(s.disk, t, k); }
  }

  lemma EndKeepsInv(s: Store)
    requires Inv(s) && Enabled(s, EndTrim)
    ensures Inv(Do(s, EndTrim))
  {
    hide OldestFirst, EvictsPrefix;
    var t := s.trim.value;
    forall k | 0 <= k < |s.disk| ensures s.disk[k] <= t.listed[k] + t.renamed[k] {
      assert KeyOk(s.disk, t, k);
    }
    SumBounded(s.disk, t.listed, t.renamed);
  }

  lemma StepKeepsInv(s: Store, step: Step)
    requires Inv(s) && Enabled(s, step)
    ensures Inv(Do(s, step))
  {
    hide OldestFirst, EvictsPrefix, Removed;
    match step
    case Rename(t, key, size) => RenameKeepsInv(s, t, key, size);
    case Add(t) => SumUpdate(s.pending, t, 0);
    case AddWithoutRename(size) =>
    case StartTrim => SumOfNone(|s.disk|);
    case Look(key, time) => LookKeepsInv(s, key, time);
    case Order(order) => OrderKeepsInv(s, order);
    case Remove(gone) => RemoveKeepsInv(s, gone);
    case EndTrim => EndKeepsInv(s);
  }

  // -- Runs ----------------------------------------------------------------------------------

  /// Opening measures the store.
  predicate Opened(s: Store) {
    s.trim.None? && s.bytes == Sum(s.disk) && forall t :: 0 <= t < |s.pending| ==> s.pending[t] == 0
  }

  predicate Follows(s: Store, step: Step, after: Store) {
    Sized(s) && Enabled(s, step) && after == Do(s, step)
  }

  predicate IsRun(states: seq<Store>, steps: seq<Step>) {
    && |states| == |steps| + 1 && Opened(states[0])
    && forall i {:trigger steps[i]} :: 0 <= i < |steps| ==> Follows(states[i], steps[i], states[i + 1])
  }

  lemma {:induction false} RunKeepsInv(states: seq<Store>, steps: seq<Step>, n: nat)
    requires IsRun(states, steps) && n < |states|
    ensures Inv(states[n])
  {
    if n > 0 {
      RunKeepsInv(states, steps, n - 1);
      StepKeepsInv(states[n - 1], steps[n - 1]);
    }
  }

  /// However puts and trims interleave, the running total plus the puts on their way never
  /// undercounts the files on disk.
  lemma NeverBelowDisk(states: seq<Store>, steps: seq<Step>, n: nat)
    requires IsRun(states, steps) && n < |states|
    ensures Sum(states[n].disk) <= states[n].bytes + Sum(states[n].pending)
  {
    RunKeepsInv(states, steps, n);
  }

  /// A trim during which nothing was put leaves the total exact, whatever it evicted or failed to.
  lemma QuietTrimIsExact(states: seq<Store>, steps: seq<Step>, n: nat)
    requires IsRun(states, steps) && n < |steps| && steps[n].EndTrim?
    requires states[n].trim.Some?
    requires var t := states[n].trim.value;
             states[n].bytes == t.before && forall k :: 0 <= k < |t.renamed| ==> t.renamed[k] == 0
    ensures states[n + 1].bytes == Sum(states[n + 1].disk)
  {
    RunKeepsInv(states, steps, n);
    var s, step := states[n], steps[n];
    var t := s.trim.value;
    assert Follows(s, step, states[n + 1]);
    forall k | 0 <= k < |s.disk| ensures s.disk[k] == t.listed[k] {
      assert KeyOk(s.disk, t, k);
    }
    assert s.disk == t.listed;
  }

  /// What the writers have added to the total.
  function AddedBy(s: Store, step: Step): nat {
    match step
    case Add(t) => if t < |s.pending| then s.pending[t] else 0
    case AddWithoutRename(size) => size
    case _ => 0
  }

  function AddedTo(states: seq<Store>, steps: seq<Step>, m: nat, n: nat): nat
    requires m <= n <= |steps| && |states| == |steps| + 1
    decreases n
  {
    if n == m then 0 else AddedTo(states, steps, m, n - 1) + AddedBy(states[n - 1], steps[n - 1])
  }

  /// Between the ends of trims the total grows by exactly what the writers add: each put its size, once.
  lemma {:induction false} TotalCountsPuts(states: seq<Store>, steps: seq<Step>, m: nat, n: nat)
    requires IsRun(states, steps) && m <= n <= |steps| && forall k :: m <= k < n ==> !steps[k].EndTrim?
    ensures states[n].bytes == states[m].bytes + AddedTo(states, steps, m, n)
    decreases n
  {
    if m < n {
      TotalCountsPuts(states, steps, m, n - 1);
      assert Follows(states[n - 1], steps[n - 1], states[n]);
    }
  }

  /// The end of a trim sets the total to what the trim lists and has not removed, plus what was added since it started.
  lemma TrimSetsTotal(states: seq<Store>, steps: seq<Step>, n: nat)
    requires IsRun(states, steps) && n < |steps| && steps[n].EndTrim?
    ensures states[n].trim.Some? && states[n].trim.value.before <= states[n].bytes
    ensures var t := states[n].trim.value;
      && states[n + 1].bytes == Sum(t.listed) + (states[n].bytes - t.before)
      && |t.listed| == |states[n].disk|
      && forall k :: 0 <= k < |t.listed| && t.renamed[k] == 0 ==> t.listed[k] == states[n].disk[k]
  {
    RunKeepsInv(states, steps, n);
    var s := states[n];
    assert Follows(s, steps[n], states[n + 1]);
    var t := s.trim.value;
    forall k | 0 <= k < |t.listed| && t.renamed[k] == 0 ensures t.listed[k] == s.disk[k] {
      assert KeyOk(s.disk, t, k);
    }
  }

  // -- What a trim evicts --------------------------------------------------------------------

  lemma TargetIsFloor(cap: nat, percent: nat)
    ensures Target(cap, percent) == cap * percent / 100
  {
    var q, r := cap / 100, cap % 100;
    assert cap * percent == q * percent * 100 + r * percent by { assert cap == q * 100 + r; }
    var x := r * percent;
    assert x == x / 100 * 100 + x % 100;
    DivisionIsUnique(cap * percent, 100, q * percent + x / 100, x % 100);
  }

  /// Whatever puts interleave with it, a trim of which no removal failed has evicted the shortest least recently used
  /// prefix of what it listed that brings the store to cap * percent / 100: a shorter one would leave more.
  lemma TrimEvictsShortestPrefix(states: seq<Store>, steps: seq<Step>, n: nat)
    requires IsRun(states, steps) && n < |steps| && steps[n].EndTrim?
    ensures states[n].trim.Some? && states[n].trim.value.work.Some?
    ensures var t := states[n].trim.value; var w := t.work.value;
      && |w.sizes| == |t.times| && w.next <= |w.order|
      && (forall k: Key :: k in w.order <==> k < |w.sizes| && w.sizes[k] > 0)
      && (forall i, j :: 0 <= i < j < |w.order| && w.order[i] < |t.times| && w.order[j] < |t.times| ==>
            var (a, b) := (w.order[i], w.order[j]);
            t.times[a] < t.times[b] || (t.times[a] == t.times[b] && a < b))
      && (!w.failed ==>
            var sizes, target := InSequence(w.sizes, w.order), states[n].limits.cap * states[n].limits.percent / 100;
            && w.evicted == w.order[..w.next]
            && Sum(sizes[w.next..]) <= target
            && forall m :: 0 <= m < w.next ==> Sum(sizes[m..]) > target)
  {
    RunKeepsInv(states, steps, n);
    var s, step := states[n], steps[n];
    assert Follows(s, step, states[n + 1]);
    TargetIsFloor(s.limits.cap, s.limits.percent);
    var w := s.trim.value.work.value;
    if w.next == |w.order| {
      assert InSequence(w.sizes, w.order)[w.next..] == [];
    }
  }

  // -- The eviction loop -----------------------------------------------------------------------

  /// The bytes of the first n entries that could be removed.
  function RemovedBytes(sizes: seq<nat>, failed: seq<bool>, n: nat): nat
    requires n <= |sizes| == |failed|
  {
    if n == 0 then 0 else RemovedBytes(sizes, failed, n - 1) + if failed[n - 1] then 0 else sizes[n - 1]
  }

  lemma {:induction false} RemovedAtMostAll(sizes: seq<nat>, failed: seq<bool>, n: nat)
    requires n <= |sizes| == |failed|
    ensures RemovedBytes(sizes, failed, n) <= Sum(sizes[..n]) <= Sum(sizes)
    ensures (forall i :: 0 <= i < n ==> !failed[i]) ==> RemovedBytes(sizes, failed, n) == Sum(sizes[..n])
  {
    PrefixAtMostAll(sizes, n);
    if n > 0 {
      RemovedAtMostAll(sizes, failed, n - 1);
      assert sizes[..n][..n - 1] == sizes[..n - 1];
    }
  }

  lemma RestAfter(sizes: seq<nat>, failed: seq<bool>, n: nat)
    requires n <= |sizes| == |failed| && forall i :: 0 <= i < n ==> !failed[i]
    ensures Sum(sizes) - RemovedBytes(sizes, failed, n) == Sum(sizes[n..])
  {
    SplitSum(sizes, n);
    RemovedAtMostAll(sizes, failed, n);
  }

  /// Evicts the entries of these sizes in order until the rest is within the target. `failed` says which removals fail;
  /// when none does, what is evicted is the shortest prefix that leaves no more than the target.
  method Evict(sizes: seq<nat>, failed: seq<bool>, target: nat) returns (n: nat, total: nat)
    requires |failed| == |sizes|
    ensures n <= |sizes| && total == Sum(sizes) - RemovedBytes(sizes, failed, n)
    ensures total <= target || n == |sizes|
    ensures forall m :: 0 <= m < n ==> Sum(sizes) - RemovedBytes(sizes, failed, m) > target
    ensures (forall i :: 0 <= i < |failed| ==> !failed[i]) ==>
              Sum(sizes[n..]) <= target && forall m :: 0 <= m < n ==> Sum(sizes[m..]) > target
  {
    total := Sum(sizes);
    n := 0;
    while n < |sizes| && total > target
      invariant n <= |sizes| && total == Sum(sizes) - RemovedBytes(sizes, failed, n)
      invariant forall m :: 0 <= m < n ==> Sum(sizes) - RemovedBytes(sizes, failed, m) > target
    {
      RemovedAtMostAll(sizes, failed, n + 1);
      if !failed[n] {
        total := total - sizes[n];
      }
      n := n + 1;
    }
    if forall i :: 0 <= i < |failed| ==> !failed[i] {
      RestAfter(sizes, failed, n);
      if n == |sizes| { assert sizes[n..] == []; }
      forall m | 0 <= m < n ensures Sum(sizes[m..]) > target {
        RestAfter(sizes, failed, m);
        assert Sum(sizes) - RemovedBytes(sizes, failed, m) > target;
      }
    }
  }
}
