/// Why blocks change state, why fetches fail, and when the refetch hook is called
/// (engine/asset/src/hpak_reader.cpp, verifyBlock and retryBlocks).
module BlockOutcomes {
  import opened BlockVerification

  predicate Unusable(s: BlockState) {
    s.Pending? || s.Bad?
  }

  /// The thread is at the hook or deciding about its answer.
  predicate AtHook(pc: Pc) {
    pc.Calling? || pc.InHook? || pc.Repairing? || pc.Settle? || pc.Late?
  }

  predicate CopyFails(r: Reader) {
    AtHook(r.pc) ==> r.pc.b !in r.copy
  }

  lemma StepKeepsCopyFails(sh: Shared, r: Reader, t: ThreadId, a: Action)
    requires ReaderFits(sh, r) && Enabled(sh, r, a) && CopyFails(r)
    ensures CopyFails(Next(sh, r, t, a).1)
  {
  }

  /// Step n of a run, and what it does to the threads.
  lemma RunStep(states: seq<System>, steps: seq<Step>, n: nat)
    requires IsRun(states, steps) && n < |steps|
    ensures SystemInv(states[n]) && SystemInv(states[n + 1])
    ensures StepEnabled(states[n], steps[n]) && states[n + 1] == Do(states[n], steps[n])
    ensures states[n + 1].readers.Keys == states[n].readers.Keys
    ensures forall t :: t in states[n].readers && !(steps[n].Move? && steps[n].t == t) ==>
              states[n + 1].readers[t] == states[n].readers[t]
    ensures steps[n].Move? ==>
              var (t, a) := (steps[n].t, steps[n].a);
              && ReaderFits(states[n].sh, states[n].readers[t]) && Enabled(states[n].sh, states[n].readers[t], a)
              && (states[n + 1].sh, states[n + 1].readers[t]) == Next(states[n].sh, states[n].readers[t], t, a)
  {
    RunKeepsInv(states, steps, n);
    RunKeepsInv(states, steps, n + 1);
    var step := steps[n];
    hide Next, CountsOk, VerifiedMatch;
  }

  /// The hook is called for a block only by a reader whose last copy of the block, read under the repair lock, does not
  /// match, and every such reader still holds that copy when it records the outcome.
  lemma {:induction false} HookOnlyForMismatch(states: seq<System>, steps: seq<Step>, n: nat, t: ThreadId)
    requires IsRun(states, steps) && n < |states| && t in states[n].readers
    ensures CopyFails(states[n].readers[t])
  {
    if n > 0 {
      RunStep(states, steps, n - 1);
      HookOnlyForMismatch(states, steps, n - 1, t);
      var step := steps[n - 1];
      hide CopyFails, Next, SystemInv, IsRun;
      if step.Move? && step.t == t { StepKeepsCopyFails(states[n - 1].sh, states[n - 1].readers[t], t, step.a); }
    }
  }

  // -- Block states --------------------------------------------------------------------------

  /// A block changes state in three ways only: a reader with a matching copy verifies it, a reader with a copy that
  /// does not match records the hook's answer, and a retry resets it.
  lemma StateChanges(states: seq<System>, steps: seq<Step>, n: nat, b: Block)
    requires IsRun(states, steps) && n < |steps|
    requires b < |states[n].sh.states| && states[n + 1].sh.states != states[n].sh.states
    requires b < |states[n + 1].sh.states| && states[n + 1].sh.states[b] != states[n].sh.states[b]
    ensures steps[n].Move? && steps[n].a.Go? && steps[n].t in states[n].readers
    ensures var (was, now) := (states[n].sh.states[b], states[n + 1].sh.states[b]);
            var r := states[n].readers[steps[n].t];
      || (was.Unverified? && now.Verified? && (r.pc == Mark(b) || r.pc == MarkLocked(b)) && b in r.copy)
      || (was.Unverified? && Unusable(now) && r.pc == Settle(b, now) && b !in r.copy)
      || (Unusable(was) && now.Unverified? && r.pc == Retrying(b))
  {
    RunStep(states, steps, n);
    if steps[n].Move? {
      HookOnlyForMismatch(states, steps, n, steps[n].t);
      var r := states[n].readers[steps[n].t];
      assert ReaderInv(states[n].sh, r);
      hide CountsOk, IsRun, LockOk, ReaderInv, Next, CopyFails, SystemInv;
      MoveChanges(states[n].sh, r, steps[n].t, steps[n].a, b);
    }
  }

  lemma MoveChanges(sh: Shared, r: Reader, t: ThreadId, a: Action, b: Block)
    requires ReaderInv(sh, r) && ReaderFits(sh, r) && Enabled(sh, r, a) && CopyFails(r)
    requires b < |sh.states| && b < |Next(sh, r, t, a).0.states| && Next(sh, r, t, a).0.states[b] != sh.states[b]
    ensures a.Go?
    ensures var (was, now) := (sh.states[b], Next(sh, r, t, a).0.states[b]);
      || (was.Unverified? && now.Verified? && (r.pc == Mark(b) || r.pc == MarkLocked(b)) && b in r.copy)
      || (was.Unverified? && Unusable(now) && r.pc == Settle(b, now) && b !in r.copy)
      || (Unusable(was) && now.Unverified? && r.pc == Retrying(b))
  {
  }

  /// The thread's hook call about the block was answered in step i.
  ghost predicate Answered(states: seq<System>, steps: seq<Step>, i: nat, t: ThreadId, b: Block,
                           status: RefetchStatus)
  {
    && i < |steps| && i < |states| && steps[i] == Move(t, HookReturns(status))
    && t in states[i].readers && states[i].readers[t].pc == InHook(b)
  }

  /// In step k the thread read the block again and found that it still does not match.
  ghost predicate StillFails(states: seq<System>, steps: seq<Step>, k: nat, t: ThreadId, b: Block) {
    && k < |steps| && k < |states| && steps[k].Move? && steps[k].t == t && steps[k].a.ReadEnds?
    && t in states[k].readers && states[k].readers[t].pc.Repairing? && states[k].readers[t].pc.b == b
    && b !in steps[k].a.copied
  }

  lemma EntersRepairing(sh: Shared, r: Reader, t: ThreadId, a: Action)
    requires ReaderFits(sh, r) && Enabled(sh, r, a) && Next(sh, r, t, a).1.pc.Repairing?
    ensures r.pc == InHook(Next(sh, r, t, a).1.pc.b) && a == HookReturns(Repaired)
  {
  }

  lemma EntersSettle(sh: Shared, r: Reader, t: ThreadId, a: Action)
    requires ReaderFits(sh, r) && Enabled(sh, r, a) && Next(sh, r, t, a).1.pc.Settle?
    ensures var pc := Next(sh, r, t, a).1.pc;
      || (r.pc == InHook(pc.b) && a.HookReturns? && !a.status.Repaired?
          && pc.outcome == if a.status.StillPending? then Pending else Bad)
      || (r.pc.Repairing? && r.pc.b == pc.b && a.ReadEnds? && pc.b !in a.copied && pc.outcome == Bad)
  {
  }

  lemma {:induction false} RepairingFollowsHook(states: seq<System>, steps: seq<Step>, n: nat, t: ThreadId)
      returns (i: nat)
    requires IsRun(states, steps) && n < |states| && t in states[n].readers && states[n].readers[t].pc.Repairing?
    ensures i < n && Answered(states, steps, i, t, states[n].readers[t].pc.b, Repaired)
  {
    assert n > 0;
    RunStep(states, steps, n - 1);
    hide IsRun, SystemInv, Next, Enabled, ReaderFits, Do, StepEnabled;
    var step := steps[n - 1];
    if step.Move? && step.t == t {
      EntersRepairing(states[n - 1].sh, states[n - 1].readers[t], t, step.a);
      i := n - 1;
    } else {
      i := RepairingFollowsHook(states, steps, n - 1, t);
    }
  }

  /// A block turns Pending only when the hook said so, and Bad only when the hook failed or when the block did not
  /// match after the hook said it was repaired.
  lemma {:induction false} SettlesAsAnswered(states: seq<System>, steps: seq<Step>, n: nat, t: ThreadId)
      returns (i: nat, status: RefetchStatus, k: nat)
    requires IsRun(states, steps) && n < |states| && t in states[n].readers && states[n].readers[t].pc.Settle?
    ensures i < n && Answered(states, steps, i, t, states[n].readers[t].pc.b, status)
    ensures states[n].readers[t].pc.outcome == if status.StillPending? then Pending else Bad
    ensures status.Repaired? ==> i < k < n && StillFails(states, steps, k, t, states[n].readers[t].pc.b)
  {
    assert n > 0;
    RunStep(states, steps, n - 1);
    hide IsRun, SystemInv, Next, Enabled, ReaderFits, Do, StepEnabled;
    var step := steps[n - 1];
    k := n - 1;
    if step.Move? && step.t == t {
      EntersSettle(states[n - 1].sh, states[n - 1].readers[t], t, step.a);
      if step.a.HookReturns? {
        i, status := n - 1, step.a.status;
      } else {
        i := RepairingFollowsHook(states, steps, n - 1, t);
        status := Repaired;
      }
    } else {
      i, status, k := SettlesAsAnswered(states, steps, n - 1, t);
    }
  }

  /// A step of no other thread moves this one.
  lemma {:induction false} StaysThere(states: seq<System>, steps: seq<Step>, i: nat, j: nat, t: ThreadId)
    requires IsRun(states, steps) && i <= j < |states| && t in states[i].readers
    requires forall k :: i <= k < j ==> !(steps[k].Move? && steps[k].t == t)
    ensures t in states[j].readers && states[j].readers[t] == states[i].readers[t]
    decreases j - i
  {
    if i < j {
      StaysThere(states, steps, i, j - 1, t);
      RunStep(states, steps, j - 1);
      hide SystemInv;
    }
  }

  lemma RereadMarks(sh: Shared, r: Reader, t: ThreadId, a: Action)
    requires ReaderFits(sh, r) && Enabled(sh, r, a) && a.ReadEnds? && (r.pc.Rereading? || r.pc.Repairing?)
    requires r.pc.b in a.copied
    ensures var y := Next(sh, r, t, a).1;
      y.pc == MarkLocked(r.pc.b) && y.last == r.last
  {
  }

  lemma LockedMarks(s: System, t: ThreadId, a: Action)
    requires SystemInv(s) && t in s.readers && s.readers[t].pc.MarkLocked? && Enabled(s.sh, s.readers[t], a)
    ensures ReaderFits(s.sh, s.readers[t])
    ensures var (r, next) := (s.readers[t], Next(s.sh, s.readers[t], t, a));
      && r.pc.b < |next.0.states| && next.0.states[r.pc.b].Verified?
      && next.1.pc == (if r.pc.b == r.last then Returned(true) else Check(r.pc.b + 1)) && next.1.last == r.last
  {
    var r := s.readers[t];
    assert ReaderInv(s.sh, r) && LockOk(s.sh, r, t);
    assert LockedPc(s) == r.pc && CountOk(s.sh, LockedPc(s), r.pc.b);
  }

  lemma RereadLeadsOn(states: seq<System>, steps: seq<Step>, i: nat, t: ThreadId)
    requires IsRun(states, steps) && i < |steps| && t in states[i].readers
    requires states[i].readers[t].pc.Rereading? || states[i].readers[t].pc.Repairing?
    requires steps[i].Move? && steps[i].t == t && steps[i].a.ReadEnds? && states[i].readers[t].pc.b in steps[i].a.copied
    ensures t in states[i + 1].readers && states[i + 1].readers[t].pc == MarkLocked(states[i].readers[t].pc.b)
    ensures states[i + 1].readers[t].last == states[i].readers[t].last
  {
    RunStep(states, steps, i);
    hide IsRun, Next, SystemInv, Do, StepEnabled;
    RereadMarks(states[i].sh, states[i].readers[t], t, steps[i].a);
  }

  lemma MarkLeadsOn(states: seq<System>, steps: seq<Step>, j: nat, t: ThreadId)
    requires IsRun(states, steps) && j < |steps| && t in states[j].readers && states[j].readers[t].pc.MarkLocked?
    requires steps[j].Move? && steps[j].t == t
    ensures t in states[j + 1].readers
    ensures var (b, r) := (states[j].readers[t].pc.b, states[j + 1].readers[t]);
      && b < |states[j + 1].sh.states| && states[j + 1].sh.states[b].Verified?
      && r.pc == (if b == r.last then Returned(true) else Check(b + 1)) && r.last == states[j].readers[t].last
  {
    RunStep(states, steps, j);
    hide IsRun, Next, SystemInv, Do, StepEnabled;
    LockedMarks(states[j], t, steps[j].a);
  }

  /// A reader whose read under the repair lock matches goes on, and in its next step leaves the block Verified,
  /// whatever the others do meanwhile.
  lemma MatchingRereadVerifies(states: seq<System>, steps: seq<Step>, i: nat, j: nat, t: ThreadId)
    requires IsRun(states, steps) && i < j < |steps| && t in states[i].readers
    requires states[i].readers[t].pc.Rereading? || states[i].readers[t].pc.Repairing?
    requires steps[i].Move? && steps[i].t == t && steps[i].a.ReadEnds? && states[i].readers[t].pc.b in steps[i].a.copied
    requires forall k :: i < k < j ==> !(steps[k].Move? && steps[k].t == t)
    requires steps[j].Move? && steps[j].t == t
    ensures t in states[j + 1].readers
    ensures var (b, r) := (states[i].readers[t].pc.b, states[j + 1].readers[t]);
      && b < |states[j + 1].sh.states| && states[j + 1].sh.states[b].Verified?
      && r.pc == (if b == r.last then Returned(true) else Check(b + 1))
  {
    assert |states| == |steps| + 1;
    hide IsRun, SystemInv;
    RereadLeadsOn(states, steps, i, t);
    StaysThere(states, steps, i + 1, j, t);
    MarkLeadsOn(states, steps, j, t);
  }

  /// A reader whose first copy of a block matches goes on and leaves the block Verified, unless it turned Pending or
  /// Bad meanwhile.
  lemma MatchingCopyVerifies(states: seq<System>, steps: seq<Step>, n: nat, t: ThreadId)
    requires IsRun(states, steps) && n < |steps| && t in states[n].readers && steps[n] == Move(t, Go)
    requires states[n].readers[t].pc.Mark?
    ensures t in states[n + 1].readers
    ensures var (b, r) := (states[n].readers[t].pc.b, states[n + 1].readers[t]);
      && b < |states[n].sh.states| == |states[n + 1].sh.states|
      && states[n + 1].sh.states[b]
         == (if Unusable(states[n].sh.states[b]) then states[n].sh.states[b] else Verified)
      && r.pc == (if b == r.last then Returned(true) else Check(b + 1))
  {
    RunStep(states, steps, n);
  }

  /// A fetch fails only for an I/O error or while a block of its range is Pending or Bad.
  lemma FailureHasCause(states: seq<System>, steps: seq<Step>, n: nat, t: ThreadId)
    requires IsRun(states, steps) && n < |steps| && t in states[n].readers && t in states[n + 1].readers
    requires states[n].readers[t].pc != Returned(false) && states[n + 1].readers[t].pc == Returned(false)
    ensures steps[n].Move? && steps[n].t == t
    ensures steps[n].a.ReadFails?
            || exists b :: 0 <= b < |states[n + 1].sh.states| && InRange(states[n].readers[t], b)
                           && Unusable(states[n + 1].sh.states[b])
  {
    RunStep(states, steps, n);
    var r := states[n].readers[t];
    if !steps[n].a.ReadFails? {
      var b := r.pc.b;
      assert InRange(r, b);
      assert b < |states[n + 1].sh.states|;
    }
  }

  /// A retry leaves no block of its range Pending or Bad that it passes, and touches no Verified block.
  lemma RetryResets(states: seq<System>, steps: seq<Step>, n: nat, t: ThreadId, b: Block)
    requires IsRun(states, steps) && n < |steps| && t in states[n].readers && states[n].readers[t].pc == Retrying(b)
    requires steps[n] == Move(t, Go)
    ensures b < |states[n].sh.states| == |states[n + 1].sh.states| && t in states[n + 1].readers
    ensures states[n + 1].sh.states
            == states[n].sh.states[b := if Unusable(states[n].sh.states[b]) then Unverified else states[n].sh.states[b]]
    ensures states[n + 1].readers[t].pc
            == if b == states[n].readers[t].last then Idle else Retrying(b + 1)
    ensures b == states[n].readers[t].last ==> states[n + 1].sh.holder.None?
  {
    RunStep(states, steps, n);
    assert states[n].sh.states == states[n].sh.states[b := states[n].sh.states[b]];
  }
}
