/// Checksum verification of pak blocks by concurrent readers, with the repair lock, the refetch hook
/// and retryBlocks (engine/asset/src/hpak_reader.cpp, fetch, verifyBlock and retryBlocks).
///
/// Every load, compare-and-swap and lock operation is one step, and any thread may take the next
/// step. A block's bytes are represented by whether they match its checksum: `good` holds the blocks
/// whose source bytes match, and a reader's `copy` the blocks it holds matching bytes of.
module BlockVerification {
  import opened Options

  type Block = nat
  type ThreadId = nat

  datatype BlockState = Unverified | Verified | Pending | Bad

  datatype RefetchStatus = Repaired | StillPending | Failed

  datatype Pc =
    | Idle
    | Scan(b: Block)                              // about to load the state of b
    | Reading(started: set<Block>)                // the range read, and what was good when it started
    | Check(b: Block)                             // verifyBlock: load the state, hash the copy
    | Mark(b: Block)                              // the copy matched: Unverified -> Verified
    | Waiting(b: Block)                           // for the repair lock
    | Locked(b: Block)                            // load the state again
    | Rereading(b: Block, seen: BlockState, matched: bool)
    | MarkLocked(b: Block)
    | Calling(b: Block)                           // about to call the hook
    | InHook(b: Block)
    | Repairing(b: Block, matched: bool)          // the re-read after a Repaired answer
    | Settle(b: Block, outcome: BlockState)       // Unverified -> outcome
    | Late(b: Block, matched: bool)               // the block turned Verified meanwhile: re-read it
    | Returned(ok: bool)
    | RetryWaiting(b: Block)
    | Retrying(b: Block)

  datatype Reader = Reader(pc: Pc, first: Block, last: Block, trusted: set<Block>, copy: set<Block>)

  /// `calls` and `failures` are histories: per block, the hook calls and the failed re-reads after a
  /// Repaired answer since the block was last reset.
  datatype Shared = Shared(states: seq<BlockState>, good: set<Block>, holder: Option<ThreadId>,
                           calls: seq<nat>, failures: seq<nat>)

  datatype Action =
    | BeginFetch(first: Block, last: Block)
    | BeginRetry(first: Block, last: Block)
    | Go
    | ReadEnds(copied: set<Block>)
    | ReadFails
    | HookReturns(status: RefetchStatus)

  predicate InRange(r: Reader, b: Block) {
    r.first <= b <= r.last
  }

  predicate NotBefore(b: Block, first: Block) {
    first <= b
  }

  function RangeOf(first: Block, last: Block): set<Block> {
    set b | 0 <= b <= last && NotBefore(b, first)
  }

  predicate IsReading(pc: Pc) {
    pc.Reading? || pc.Rereading? || pc.Repairing? || pc.Late?
  }

  /// The blocks a read covers.
  function Target(r: Reader): set<Block>
    requires IsReading(r.pc)
  {
    match r.pc
    case Reading(_) => RangeOf(r.first, r.last)
    case Rereading(b, _, _) => {b}
    case Repairing(b, _) => {b}
    case Late(b, _) => {b}
  }

  function MatchedAtStart(r: Reader): set<Block>
    requires IsReading(r.pc)
  {
    match r.pc
    case Reading(started) => started * RangeOf(r.first, r.last)
    case Rereading(b, _, matched) => if matched then {b} else {}
    case Repairing(b, matched) => if matched then {b} else {}
    case Late(b, matched) => if matched then {b} else {}
  }

  /// A read may overlap a repair: it surely copies what matched when it started, and copies matching
  /// bytes only of what matches when it ends.
  predicate CanEnd(sh: Shared, r: Reader, copied: set<Block>)
    requires IsReading(r.pc)
  {
    MatchedAtStart(r) <= copied <= sh.good * Target(r)
  }

  predicate Enabled(sh: Shared, r: Reader, a: Action) {
    match a
    case BeginFetch(first, last) => (r.pc.Idle? || r.pc.Returned?) && first <= last < |sh.states|
    case BeginRetry(first, last) => (r.pc.Idle? || r.pc.Returned?) && first <= last < |sh.states|
    case Go =>
      && !r.pc.Idle? && !r.pc.Returned? && !IsReading(r.pc) && !r.pc.InHook?
      && (r.pc.Waiting? || r.pc.RetryWaiting? ==> sh.holder.None?)
    case ReadEnds(copied) => IsReading(r.pc) && CanEnd(sh, r, copied)
    case ReadFails => IsReading(r.pc)
    case HookReturns(_) => r.pc.InHook?
  }

  function Swapped(states: seq<BlockState>, b: Block, to: BlockState): seq<BlockState>
    requires b < |states|
  {
    if states[b].Unverified? then states[b := to] else states
  }

  /// The next block to verify, or success.
  function Onward(r: Reader, b: Block): Reader {
    r.(pc := if b == r.last then Returned(true) else Check(b + 1))
  }

  function Unlocked(sh: Shared): Shared {
    sh.(holder := None)
  }

  function Fails(r: Reader): Reader {
    r.(pc := Returned(false))
  }

  predicate ReaderFits(sh: Shared, r: Reader) {
    && |sh.calls| == |sh.failures| == |sh.states|
    && (!r.pc.Idle? && !r.pc.Returned? ==> r.first <= r.last < |sh.states|)
    && (At(r.pc).Some? ==> InRange(r, At(r.pc).value))
  }

  /// The block a thread is working on.
  function At(pc: Pc): Option<Block> {
    match pc
    case Idle => None
    case Reading(_) => None
    case Returned(_) => None
    case _ => Some(pc.b)
  }

  function Go1(sh: Shared, r: Reader, t: ThreadId): (Shared, Reader)
    requires ReaderFits(sh, r) && Enabled(sh, r, Go)
  {
    var b := r.pc.b;
    match r.pc
    case Scan(_) =>
      if sh.states[b].Pending? || sh.states[b].Bad? then (sh, Fails(r))
      else
        var y := if sh.states[b].Verified? then r.(trusted := r.trusted + {b}) else r;
        (sh, y.(pc := if b == r.last then Reading(sh.good) else Scan(b + 1)))
    case Check(_) =>
      if b in r.trusted then (sh, Onward(r, b))
      else if sh.states[b].Pending? || sh.states[b].Bad? then (sh, Fails(r))
      else (sh, r.(pc := if b in r.copy then Mark(b) else Waiting(b)))
    case Mark(_) => (sh.(states := Swapped(sh.states, b, Verified)), Onward(r, b))
    case Waiting(_) => (sh.(holder := Some(t)), r.(pc := Locked(b)))
    case Locked(_) =>
      if sh.states[b].Pending? || sh.states[b].Bad? then (Unlocked(sh), Fails(r))
      else (sh, r.(pc := Rereading(b, sh.states[b], b in sh.good)))
    case MarkLocked(_) => (Unlocked(sh.(states := Swapped(sh.states, b, Verified))), Onward(r, b))
    case Calling(_) => (sh.(calls := sh.calls[b := sh.calls[b] + 1]), r.(pc := InHook(b)))
    case Settle(_, outcome) =>
      if sh.states[b].Unverified?
      then (Unlocked(sh.(states := sh.states[b := outcome])), Fails(r))
      else (sh, r.(pc := Late(b, b in sh.good)))
    case RetryWaiting(_) => (sh.(holder := Some(t)), r.(pc := Retrying(b)))
    case Retrying(_) =>
      var cleared := if sh.states[b].Pending? || sh.states[b].Bad?
                     then sh.(states := sh.states[b := Unverified], calls := sh.calls[b := 0],
                              failures := sh.failures[b := 0])
                     else sh;
      if b == r.last then (Unlocked(cleared), r.(pc := Idle)) else (cleared, r.(pc := Retrying(b + 1)))
    case _ => (sh, r)
  }

  function ReadEnded(sh: Shared, r: Reader, copied: set<Block>): (Shared, Reader)
    requires ReaderFits(sh, r) && Enabled(sh, r, ReadEnds(copied))
  {
    var y := r.(copy := r.copy - Target(r) + copied);
    match r.pc
    case Reading(_) =>
      (sh, y.(pc := if RangeOf(r.first, r.last) <= r.trusted then Returned(true) else Check(r.first)))
    case Rereading(b, seen, _) =>
      if b in copied then (sh, y.(pc := MarkLocked(b)))
      else if seen.Verified? then (Unlocked(sh), Fails(y))
      else (sh, y.(pc := Calling(b)))
    case Repairing(b, _) =>
      (sh, y.(pc := if b in copied then MarkLocked(b) else Settle(b, Bad)))
    case Late(b, _) => (Unlocked(sh), if b in copied then Onward(y, b) else Fails(y))
  }

  function Next(sh: Shared, r: Reader, t: ThreadId, a: Action): (Shared, Reader)
    requires ReaderFits(sh, r) && Enabled(sh, r, a)
  {
    match a
    case BeginFetch(first, last) => (sh, Reader(Scan(first), first, last, {}, {}))
    case BeginRetry(first, last) => (sh, Reader(RetryWaiting(first), first, last, {}, {}))
    case Go => Go1(sh, r, t)
    case ReadEnds(copied) => ReadEnded(sh, r, copied)
    case ReadFails =>
      (if r.pc.Reading? then sh
       else if r.pc.Repairing? then Unlocked(sh.(failures := sh.failures[r.pc.b := sh.failures[r.pc.b] + 1]))
       else Unlocked(sh),
       Fails(r))
    case HookReturns(status) =>
      (sh, r.(pc := match status
                    case Repaired => Repairing(r.pc.b, r.pc.b in sh.good)
                    case StillPending => Settle(r.pc.b, Pending)
                    case Failed => Settle(r.pc.b, Bad)))
  }

  // -- The system ----------------------------------------------------------------------------

  datatype System = System(sh: Shared, readers: map<ThreadId, Reader>)

  /// A thread moves, or the source bytes of a block that does not match become the right ones.
  datatype Step = Move(t: ThreadId, a: Action) | Lands(b: Block)

  predicate StepEnabled(s: System, step: Step) {
    match step
    case Move(t, a) => t in s.readers && Enabled(s.sh, s.readers[t], a)
    case Lands(b) => b < |s.sh.states|
  }

  predicate HoldsLock(pc: Pc) {
    pc.Locked? || pc.Rereading? || pc.MarkLocked? || pc.Calling? || pc.InHook? || pc.Repairing? || pc.Settle?
    || pc.Late? || pc.Retrying?
  }

  /// The lock holder is about to record what it found out about b.
  predicate InWindow(pc: Pc, b: Block) {
    (pc.InHook? || pc.Repairing? || pc.MarkLocked? || pc.Settle?) && pc.b == b
  }

  /// The blocks before the one being verified.
  predicate CopiedBelow(r: Reader, b: Block) {
    forall x :: r.first <= x < b ==> x in r.copy
  }

  predicate ReaderInv(sh: Shared, r: Reader) {
    && ReaderFits(sh, r)
    && r.trusted <= sh.good && r.copy <= sh.good
    && (r.pc.Reading? ==> r.trusted <= r.pc.started <= sh.good && r.trusted <= RangeOf(r.first, r.last))
    && (r.pc.Scan? ==> r.trusted <= RangeOf(r.first, r.last))
    && (Verifies(r.pc) ==> r.trusted <= r.copy && CopiedBelow(r, r.pc.b))
    && (r.pc.Mark? || r.pc.MarkLocked? ==> r.pc.b in r.copy)
    && (r.pc == Returned(true) ==> RangeOf(r.first, r.last) <= r.copy)
    && (r.pc.Rereading? ==> r.pc.seen.Unverified? || r.pc.seen.Verified?)
    && (r.pc.Settle? ==> r.pc.outcome.Pending? || r.pc.outcome.Bad?)
    && (Verifies(r.pc) && !r.pc.Check? ==> r.pc.b !in r.trusted)
    && (IsReading(r.pc) ==> MatchedAtStart(r) <= sh.good)
    && (r.pc.Rereading? && r.pc.seen.Verified? ==> r.pc.matched)
    && (r.pc.Late? ==> r.pc.matched)
  }

  /// The steps of verifyBlock.
  predicate Verifies(pc: Pc) {
    At(pc).Some? && !pc.Scan? && !pc.RetryWaiting? && !pc.Retrying?
  }

  predicate VerifiedMatch(sh: Shared) {
    forall b :: 0 <= b < |sh.states| && sh.states[b].Verified? ==> b in sh.good
  }

  /// The hook ran for b no more often than its answers were lost to a failed re-read.
  predicate CallsLost(sh: Shared, b: Block)
    requires |sh.calls| == |sh.failures| == |sh.states| && b < |sh.states|
  {
    sh.calls[b] <= sh.failures[b]
  }

  /// The lock holder found the block neither Pending nor Bad and is deciding about it.
  predicate Judging(pc: Pc) {
    pc.Rereading? || pc.MarkLocked? || pc.Calling? || pc.InHook? || pc.Repairing? || pc.Settle? || pc.Late?
  }

  predicate CountOk(sh: Shared, lockedPc: Pc, b: Block)
    requires |sh.calls| == |sh.failures| == |sh.states| && b < |sh.states|
  {
    && sh.calls[b] <= sh.failures[b] + 1
    && (sh.states[b].Unverified? && !InWindow(lockedPc, b) ==> CallsLost(sh, b))
    && (lockedPc == Calling(b) ==> CallsLost(sh, b))
    && (lockedPc.Rereading? && lockedPc.b == b && lockedPc.seen.Unverified? ==> CallsLost(sh, b))
    && (Judging(lockedPc) && lockedPc.b == b ==> !sh.states[b].Pending? && !sh.states[b].Bad?)
  }

  predicate CountsOk(sh: Shared, lockedPc: Pc)
    requires |sh.calls| == |sh.failures| == |sh.states|
  {
    forall b :: 0 <= b < |sh.states| ==> CountOk(sh, lockedPc, b)
  }

  function LockedPc(s: System): Pc {
    if s.sh.holder.Some? && s.sh.holder.value in s.readers then s.readers[s.sh.holder.value].pc else Idle
  }

  predicate LockOk(sh: Shared, r: Reader, t: ThreadId) {
    HoldsLock(r.pc) <==> sh.holder == Some(t)
  }

  predicate SystemInv(s: System) {
    && |s.sh.calls| == |s.sh.failures| == |s.sh.states|
    && (forall t :: t in s.readers ==> ReaderInv(s.sh, s.readers[t]) && LockOk(s.sh, s.readers[t], t))
    && (s.sh.holder.Some? ==> s.sh.holder.value in s.readers)
    && VerifiedMatch(s.sh)
    && CountsOk(s.sh, LockedPc(s))
  }

  function Do(s: System, step: Step): System
    requires SystemInv(s) && StepEnabled(s, step)
  {
    match step
    case Move(t, a) =>
      var next := Next(s.sh, s.readers[t], t, a);
      System(next.0, s.readers[t := next.1])
    case Lands(b) => s.(sh := s.sh.(good := s.sh.good + {b}))
  }

  /// What a step of one thread may do to the shared part.
  predicate Progress(sh: Shared, after: Shared) {
    && |after.states| == |sh.states| && |after.calls| == |after.failures| == |after.states|
    && sh.good <= after.good
    && forall b :: 0 <= b < |sh.states| && sh.states[b].Verified? ==> after.states[b].Verified?
  }

  lemma OthersUnaffected(sh: Shared, after: Shared, r: Reader)
    requires ReaderInv(sh, r) && Progress(sh, after)
    ensures ReaderInv(after, r)
  {
  }

  lemma OwnGo(sh: Shared, r: Reader, t: ThreadId)
    requires ReaderInv(sh, r) && VerifiedMatch(sh) && Enabled(sh, r, Go)
    requires !HoldsLock(r.pc)
    ensures var (after, y) := Next(sh, r, t, Go);
            Progress(sh, after) && VerifiedMatch(after) && ReaderInv(after, y)
  {
  }

  lemma OwnLockedGo(sh: Shared, r: Reader, t: ThreadId)
    requires ReaderInv(sh, r) && VerifiedMatch(sh) && Enabled(sh, r, Go)
    requires HoldsLock(r.pc)
    requires Judging(r.pc) ==> !sh.states[r.pc.b].Pending? && !sh.states[r.pc.b].Bad?
    ensures var (after, y) := Next(sh, r, t, Go);
            Progress(sh, after) && VerifiedMatch(after) && ReaderInv(after, y)
  {
  }

  lemma OwnRead(sh: Shared, r: Reader, t: ThreadId, copied: set<Block>)
    requires ReaderInv(sh, r) && VerifiedMatch(sh) && Enabled(sh, r, ReadEnds(copied))
    ensures var (after, y) := Next(sh, r, t, ReadEnds(copied));
            Progress(sh, after) && VerifiedMatch(after) && ReaderInv(after, y)
  {
  }

  lemma OwnStep(sh: Shared, r: Reader, t: ThreadId, a: Action)
    requires ReaderInv(sh, r) && VerifiedMatch(sh) && Enabled(sh, r, a)
    requires Judging(r.pc) ==> !sh.states[r.pc.b].Pending? && !sh.states[r.pc.b].Bad?
    ensures var (after, y) := Next(sh, r, t, a);
            Progress(sh, after) && VerifiedMatch(after) && ReaderInv(after, y)
  {
    match a
    case Go =>
      if HoldsLock(r.pc) { OwnLockedGo(sh, r, t); } else { OwnGo(sh, r, t); }
    case ReadEnds(copied) => OwnRead(sh, r, t, copied);
    case BeginFetch(first, last) =>
    case BeginRetry(first, last) =>
    case ReadFails =>
    case HookReturns(_) =>
  }

  lemma OwnLock(sh: Shared, r: Reader, t: ThreadId, a: Action)
    requires ReaderInv(sh, r) && Enabled(sh, r, a) && LockOk(sh, r, t)
    ensures var (after, y) := Next(sh, r, t, a);
            LockOk(after, y, t)
            && (after.holder == sh.holder || (sh.holder == Some(t) && after.holder == None)
                || (sh.holder == None && after.holder == Some(t)))
  {
  }

  lemma OwnCounts(sh: Shared, r: Reader, t: ThreadId, a: Action, lockedPc: Pc)
    requires ReaderInv(sh, r) && Enabled(sh, r, a) && LockOk(sh, r, t) && CountsOk(sh, lockedPc)
    requires sh.holder == Some(t) ==> lockedPc == r.pc
    requires sh.holder == None ==> lockedPc == Idle
    ensures var (after, y) := Next(sh, r, t, a);
            |after.calls| == |after.failures| == |after.states|
            && CountsOk(after, if after.holder == Some(t) then y.pc else if after.holder.None? then Idle else lockedPc)
  {
    var (after, y) := Next(sh, r, t, a);
    var pc := if after.holder == Some(t) then y.pc else if after.holder.None? then Idle else lockedPc;
    forall b | 0 <= b < |after.states| ensures CountOk(after, pc, b) {
      assert CountOk(sh, lockedPc, b);
    }
  }

  lemma StepKeepsInv(s: System, step: Step)
    requires SystemInv(s) && StepEnabled(s, step)
    ensures SystemInv(Do(s, step)) && Progress(s.sh, Do(s, step).sh)
  {
    match step
    case Lands(b) =>
      forall t | t in s.readers ensures ReaderInv(Do(s, step).sh, s.readers[t]) {
        OthersUnaffected(s.sh, Do(s, step).sh, s.readers[t]);
      }
      forall x | 0 <= x < |s.sh.states| ensures CountOk(Do(s, step).sh, LockedPc(s), x) {
        assert CountOk(s.sh, LockedPc(s), x);
      }
    case Move(t, a) =>
      var r := s.readers[t];
      if Judging(r.pc) { assert CountOk(s.sh, LockedPc(s), r.pc.b); }
      OwnStep(s.sh, r, t, a);
      OwnLock(s.sh, r, t, a);
      OwnCounts(s.sh, r, t, a, LockedPc(s));
      var after := Do(s, step);
      forall u | u in after.readers
        ensures ReaderInv(after.sh, after.readers[u]) && LockOk(after.sh, after.readers[u], u)
      {
        if u != t { OthersUnaffected(s.sh, after.sh, s.readers[u]); }
      }
  }

  // -- Runs ----------------------------------------------------------------------------------

  /// A freshly opened pak: nothing verified, nobody reading.
  predicate Opened(s: System) {
    && s.sh.holder.None?
    && |s.sh.calls| == |s.sh.failures| == |s.sh.states|
    && (forall b :: 0 <= b < |s.sh.states| ==>
          s.sh.states[b].Unverified? && s.sh.calls[b] == 0 && s.sh.failures[b] == 0)
    && (forall t :: t in s.readers ==> s.readers[t] == Reader(Idle, 0, 0, {}, {}))
  }

  predicate IsRun(states: seq<System>, steps: seq<Step>) {
    && |states| == |steps| + 1 && Opened(states[0])
    && forall i {:trigger steps[i]} :: 0 <= i < |steps| ==>
         SystemInv(states[i]) ==> StepEnabled(states[i], steps[i]) && states[i + 1] == Do(states[i], steps[i])
  }

  lemma {:induction false} RunKeepsInv(states: seq<System>, steps: seq<Step>, n: nat)
    requires IsRun(states, steps) && n < |states|
    ensures SystemInv(states[n])
  {
    if n > 0 {
      RunKeepsInv(states, steps, n - 1);
      StepKeepsInv(states[n - 1], steps[n - 1]);
    }
  }

  /// Whatever readers, repairs and retries interleave, a fetch that succeeds returns only blocks
  /// whose bytes match their checksum.
  lemma FetchReturnsMatching(states: seq<System>, steps: seq<Step>, n: nat, t: ThreadId)
    requires IsRun(states, steps) && n < |states| && t in states[n].readers
    requires states[n].readers[t].pc == Returned(true)
    ensures var r := states[n].readers[t];
            forall b :: r.first <= b <= r.last ==> b in r.copy && b in states[n].sh.good
  {
    RunKeepsInv(states, steps, n);
    var r := states[n].readers[t];
    forall b | r.first <= b <= r.last ensures b in r.copy && b in states[n].sh.good {
      assert NotBefore(b, r.first);
      assert b in RangeOf(r.first, r.last);
    }
  }

  /// Verified is final, and only blocks that match are ever Verified.
  lemma {:induction false} VerifiedIsFinal(states: seq<System>, steps: seq<Step>, i: nat, j: nat, b: Block)
    requires IsRun(states, steps) && i <= j < |states|
    requires b < |states[i].sh.states| && states[i].sh.states[b].Verified?
    ensures b < |states[j].sh.states| && states[j].sh.states[b].Verified? && b in states[j].sh.good
    decreases j
  {
    RunKeepsInv(states, steps, j);
    if i < j {
      VerifiedIsFinal(states, steps, i, j - 1, b);
      RunKeepsInv(states, steps, j - 1);
      StepKeepsInv(states[j - 1], steps[j - 1]);
    }
  }

  /// Between two resets of a block the hook runs at most once, and once more for each time the
  /// re-read after a Repaired answer failed with an I/O error.
  lemma HookRunsOnce(states: seq<System>, steps: seq<Step>, n: nat, b: Block)
    requires IsRun(states, steps) && n < |states| && b < |states[n].sh.states|
    ensures b < |states[n].sh.calls| == |states[n].sh.failures|
    ensures states[n].sh.calls[b] <= states[n].sh.failures[b] + 1
  {
    RunKeepsInv(states, steps, n);
    assert CountOk(states[n].sh, LockedPc(states[n]), b);
  }

  /// No reader ever fails a fetch with "changed after it was verified".
  lemma VerifiedNeverReportedChanged(states: seq<System>, steps: seq<Step>, n: nat, t: ThreadId, copied: set<Block>)
    requires IsRun(states, steps) && n < |states| && t in states[n].readers
    requires var pc := states[n].readers[t].pc; pc.Late? || (pc.Rereading? && pc.seen.Verified?)
    requires CanEnd(states[n].sh, states[n].readers[t], copied)
    ensures var r := states[n].readers[t];
            ReaderFits(states[n].sh, r) && Next(states[n].sh, r, t, ReadEnds(copied)).1.pc != Returned(false)
  {
    RunKeepsInv(states, steps, n);
  }

  /// The only reader takes a step.
  lemma Alone(states: seq<System>, steps: seq<Step>, sh: Shared, r: Reader, a: Action)
      returns (longer: seq<System>, more: seq<Step>)
    requires IsRun(states, steps) && states[|steps|] == System(sh, map[0 := r])
    requires ReaderFits(sh, r) && Enabled(sh, r, a) && !a.BeginRetry?
    requires NoRetry(steps)
    ensures IsRun(longer, more) && NoRetry(more)
    ensures longer[|more|] == System(Next(sh, r, 0, a).0, map[0 := Next(sh, r, 0, a).1])
  {
    RunKeepsInv(states, steps, |steps|);
    longer, more := states + [Do(states[|steps|], Move(0, a))], steps + [Move(0, a)];
    assert map[0 := r][0 := Next(sh, r, 0, a).1] == map[0 := Next(sh, r, 0, a).1];
  }

  predicate NoRetry(steps: seq<Step>) {
    forall i :: 0 <= i < |steps| ==> steps[i].Move? && !steps[i].a.BeginRetry?
  }

  function OneBlock(holder: Option<ThreadId>, calls: nat, failures: nat): Shared {
    Shared([Unverified], {}, holder, [calls], [failures])
  }

  function OneReader(pc: Pc): Reader {
    Reader(pc, 0, 0, {}, {})
  }

  lemma NothingMatched(sh: Shared)
    requires ReaderFits(sh, OneReader(Reading({}))) && Enabled(sh, OneReader(Reading({})), ReadEnds({}))
    ensures Next(sh, OneReader(Reading({})), 0, ReadEnds({})) == (sh, OneReader(Check(0)))
  {
    assert NotBefore(0, 0);
    assert 0 in RangeOf(0, 0);
    assert {} - RangeOf(0, 0) + {} == {};
  }

  /// A fetch of a block that does not match waits for the repair lock.
  lemma MismatchFound(states: seq<System>, steps: seq<Step>, pc: Pc, sh: Shared)
      returns (longer: seq<System>, more: seq<Step>)
    requires IsRun(states, steps) && NoRetry(steps) && (pc.Idle? || pc.Returned?)
    requires |sh.calls| == |sh.failures| == 1 && sh.states == [Unverified] && sh.good == {} && sh.holder.None?
    requires states[|steps|] == System(sh, map[0 := OneReader(pc)])
    ensures IsRun(longer, more) && NoRetry(more)
    ensures longer[|more|] == System(sh, map[0 := OneReader(Waiting(0))])
  {
    longer, more := Alone(states, steps, sh, OneReader(pc), BeginFetch(0, 0));
    longer, more := Alone(longer, more, sh, OneReader(Scan(0)), Go);
    NothingMatched(sh);
    longer, more := Alone(longer, more, sh, OneReader(Reading({})), ReadEnds({}));
    longer, more := Alone(longer, more, sh, OneReader(Check(0)), Go);
  }

  /// It gets the lock, finds that the block still does not match, and calls the hook.
  lemma HookCalled(states: seq<System>, steps: seq<Step>, calls: nat, failures: nat)
      returns (longer: seq<System>, more: seq<Step>)
    requires IsRun(states, steps) && NoRetry(steps)
    requires states[|steps|] == System(OneBlock(None, calls, failures), map[0 := OneReader(Waiting(0))])
    ensures IsRun(longer, more) && NoRetry(more)
    ensures longer[|more|] == System(OneBlock(Some(0), calls + 1, failures), map[0 := OneReader(InHook(0))])
  {
    var held := OneBlock(Some(0), calls, failures);
    LockTaken(calls, failures);
    LockedRereads(calls, failures);
    RereadMismatches(calls, failures);
    HookEntered(calls, failures);
    hide Next, IsRun, NoRetry, Enabled, ReaderFits, OneBlock;
    longer, more := Alone(states, steps, OneBlock(None, calls, failures), OneReader(Waiting(0)), Go);
    longer, more := Alone(longer, more, held, OneReader(Locked(0)), Go);
    longer, more := Alone(longer, more, held, OneReader(Rereading(0, Unverified, false)), ReadEnds({}));
    longer, more := Alone(longer, more, held, OneReader(Calling(0)), Go);
  }

  /// The only reader's step is enabled and leads there.
  predicate Leads(sh: Shared, pc: Pc, a: Action, after: Shared, next: Pc) {
    && ReaderFits(sh, OneReader(pc)) && Enabled(sh, OneReader(pc), a)
    && Next(sh, OneReader(pc), 0, a) == (after, OneReader(next))
  }

  lemma LockTaken(calls: nat, failures: nat)
    ensures Leads(OneBlock(None, calls, failures), Waiting(0), Go, OneBlock(Some(0), calls, failures), Locked(0))
  {
  }

  lemma LockedRereads(calls: nat, failures: nat)
    ensures var held := OneBlock(Some(0), calls, failures);
            Leads(held, Locked(0), Go, held, Rereading(0, Unverified, false))
  {
  }

  lemma RereadMismatches(calls: nat, failures: nat)
    ensures var held := OneBlock(Some(0), calls, failures);
            Leads(held, Rereading(0, Unverified, false), ReadEnds({}), held, Calling(0))
  {
    assert {} - {0} + {} == {};
  }

  lemma HookEntered(calls: nat, failures: nat)
    ensures Leads(OneBlock(Some(0), calls, failures), Calling(0), Go, OneBlock(Some(0), calls + 1, failures), InHook(0))
  {
    assert [calls][0 := calls + 1] == [calls + 1];
  }

  /// The hook says Repaired and the re-read fails.
  lemma FailedRepair(states: seq<System>, steps: seq<Step>, pc: Pc, calls: nat, failures: nat)
      returns (longer: seq<System>, more: seq<Step>)
    requires IsRun(states, steps) && NoRetry(steps) && (pc.Idle? || pc.Returned?)
    requires states[|steps|] == System(OneBlock(None, calls, failures), map[0 := OneReader(pc)])
    ensures IsRun(longer, more) && NoRetry(more)
    ensures longer[|more|] == System(OneBlock(None, calls + 1, failures + 1), map[0 := OneReader(Returned(false))])
  {
    longer, more := MismatchFound(states, steps, pc, OneBlock(None, calls, failures));
    longer, more := HookCalled(longer, more, calls, failures);
    var held := OneBlock(Some(0), calls + 1, failures);
    longer, more := Alone(longer, more, held, OneReader(InHook(0)), HookReturns(Repaired));
    longer, more := Alone(longer, more, held, OneReader(Repairing(0, false)), ReadFails);
  }

  /// "At most once" does not hold when that re-read fails: the block stays Unverified, and the next
  /// reader calls the hook again although the block was never reset.
  lemma HookCanRunTwice() returns (states: seq<System>, steps: seq<Step>)
    ensures IsRun(states, steps) && NoRetry(steps)
    ensures |states[|steps|].sh.states| == 1 && states[|steps|].sh.calls == [2]
  {
    states, steps := [System(OneBlock(None, 0, 0), map[0 := OneReader(Idle)])], [];
    states, steps := FailedRepair(states, steps, Idle, 0, 0);
    states, steps := FailedRepair(states, steps, Returned(false), 1, 1);
  }
}
