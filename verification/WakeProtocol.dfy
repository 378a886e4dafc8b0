/// The sleep and wake-up protocol of the job system's workers (WakeSignal, popGlobal, workerMain,
/// submit and the destructor in engine/core/src/jobs.cpp), under sequential consistency.
///
/// Every queue operation, load, store and critical section is one step, and any thread may take the
/// next one. A queue is the number of jobs in it. A worker may start to fall asleep at any time.
module WakeProtocol {
  import opened Options
  import opened Sums

  type Queue = nat
  type Worker = nat
  type ThreadId = nat

  datatype Phase =
    | Awake
    | Rescan(passed: set<Queue>)     // counted as a sleeper; these queues were found empty since
    | Moving(asleep: bool, jobs: nat) // holds jobs of a global batch, to be put into its own queue
    | Found                          // the re-scan found a job
    | Waiting                        // in WakeSignal::wait
    | Woken
    | Exited

  /// A thread between its push and the end of wakeOne.
  datatype Submitter = PushedJob | Notifying(seen: nat)

  datatype System = System(queues: seq<nat>, phases: seq<Phase>, sleepers: nat, tokens: nat,
                           submitters: map<ThreadId, Submitter>, running: bool, notifiedAll: bool)

  datatype Step =
    | Submit(t: ThreadId, q: Queue)
    | LoadSleepers(t: ThreadId)
    | Notify(t: ThreadId)
    | Help(q: Queue)                          // a thread outside the pool runs a job
    | Take(w: Worker, q: Queue)
    | TakeBatch(w: Worker, q: Queue, n: nat)
    | PutBatch(w: Worker, own: Queue)
    | FallAsleep(w: Worker)
    | PassEmpty(w: Worker, q: Queue)
    | Leave(w: Worker)                        // sleepers--
    | Commit(w: Worker)                       // nothing found: wait, or exit
    | TakeToken(w: Worker)
    | Exit(w: Worker)
    | StopRunning
    | NotifyAll

  predicate Asleep(p: Phase) {
    p.Rescan? || p.Found? || p.Waiting? || p.Woken? || (p.Moving? && p.asleep)
  }

  predicate Enabled(s: System, step: Step) {
    match step
    case Submit(t, q) => t !in s.submitters && q < |s.queues|
    case LoadSleepers(t) => t in s.submitters && s.submitters[t].PushedJob?
    case Notify(t) => t in s.submitters && s.submitters[t].Notifying?
    case Help(q) => q < |s.queues| && s.queues[q] > 0
    case Take(w, q) =>
      w < |s.phases| && q < |s.queues| && s.queues[q] > 0 && (s.phases[w].Awake? || s.phases[w].Rescan?)
    case TakeBatch(w, q, n) =>
      w < |s.phases| && q < |s.queues| && 1 <= n <= s.queues[q] && (s.phases[w].Awake? || s.phases[w].Rescan?)
    case PutBatch(w, own) => w < |s.phases| && own < |s.queues| && s.phases[w].Moving?
    case FallAsleep(w) => w < |s.phases| && s.phases[w].Awake?
    case PassEmpty(w, q) => w < |s.phases| && q < |s.queues| && s.phases[w].Rescan? && s.queues[q] == 0
    case Leave(w) => w < |s.phases| && (s.phases[w].Found? || s.phases[w].Woken?) && s.sleepers > 0
    case Commit(w) =>
      w < |s.phases| && s.phases[w].Rescan? && s.sleepers > 0
      && forall q :: 0 <= q < |s.queues| ==> q in s.phases[w].passed
    case TakeToken(w) => w < |s.phases| && s.phases[w].Waiting? && s.tokens > 0
    case Exit(w) => w < |s.phases| && s.phases[w].Awake? && !s.running
    case StopRunning => s.running
    case NotifyAll => !s.running && !s.notifiedAll
  }

  function Less(s: System, q: Queue, n: nat): System
    requires q < |s.queues| && n <= s.queues[q]
  {
    s.(queues := s.queues[q := s.queues[q] - n])
  }

  function At(s: System, w: Worker, p: Phase): System
    requires w < |s.phases|
  {
    s.(phases := s.phases[w := p])
  }

  function Do(s: System, step: Step): System
    requires Enabled(s, step)
  {
    match step
    case Submit(t, q) =>
      s.(queues := s.queues[q := s.queues[q] + 1], submitters := s.submitters[t := PushedJob])
    case LoadSleepers(t) =>
      s.(submitters := if s.sleepers > 0 then s.submitters[t := Notifying(s.sleepers)] else s.submitters - {t})
    case Notify(t) =>
      // Tokens are capped at the number of sleepers the submitter saw.
      s.(tokens := if s.tokens >= s.submitters[t].seen then s.tokens else s.tokens + 1,
         submitters := s.submitters - {t})
    case Help(q) => Less(s, q, 1)
    case Take(w, q) => At(Less(s, q, 1), w, if s.phases[w].Rescan? then Found else Awake)
    case TakeBatch(w, q, n) => At(Less(s, q, n), w, Moving(s.phases[w].Rescan?, n - 1))
    case PutBatch(w, own) =>
      At(s.(queues := s.queues[own := s.queues[own] + s.phases[w].jobs]), w,
         if s.phases[w].asleep then Found else Awake)
    case FallAsleep(w) => At(s, w, Rescan({})).(sleepers := s.sleepers + 1)
    case PassEmpty(w, q) => At(s, w, Rescan(s.phases[w].passed + {q}))
    case Leave(w) => At(s, w, Awake).(sleepers := s.sleepers - 1)
    case Commit(w) => if s.running then At(s, w, Waiting) else At(s, w, Exited).(sleepers := s.sleepers - 1)
    case TakeToken(w) => At(s, w, Woken).(tokens := s.tokens - 1)
    case Exit(w) => At(s, w, Exited)
    case StopRunning => s.(running := false)
    case NotifyAll => s.(tokens := s.tokens + |s.phases|, notifiedAll := true)
  }

  // -- Invariants ----------------------------------------------------------------------------

  function Sleepers(phases: seq<Phase>): (n: nat)
    ensures n == 0 ==> forall w :: 0 <= w < |phases| ==> !Asleep(phases[w])
  {
    if phases == [] then 0
    else Sleepers(phases[..|phases| - 1]) + if Asleep(phases[|phases| - 1]) then 1 else 0
  }

  function Waiters(phases: seq<Phase>): (n: nat)
    ensures n <= |phases|
  {
    if phases == [] then 0
    else Waiters(phases[..|phases| - 1]) + if phases[|phases| - 1].Waiting? then 1 else 0
  }

  /// The worker will look at the queue before it can wait.
  predicate Alert(p: Phase, q: Queue) {
    !p.Waiting? && !p.Exited? && (p.Rescan? ==> q !in p.passed)
  }

  predicate SomeAlert(s: System, q: Queue) {
    exists w :: 0 <= w < |s.phases| && Alert(s.phases[w], q)
  }

  predicate Covered(s: System, q: Queue) {
    s.submitters != map[] || s.tokens > 0 || SomeAlert(s, q)
  }

  predicate SystemInv(s: System) {
    && |s.phases| > 0
    && s.sleepers == Sleepers(s.phases)
    && (forall t :: t in s.submitters && s.submitters[t].Notifying? ==> s.submitters[t].seen > 0)
    && (s.running ==> !s.notifiedAll && (forall w :: 0 <= w < |s.phases| ==> !s.phases[w].Exited?)
                      && forall q :: 0 <= q < |s.queues| && s.queues[q] > 0 ==> Covered(s, q))
    && (s.notifiedAll ==> s.tokens >= Waiters(s.phases))
  }

  lemma {:induction false} PhaseChanges(phases: seq<Phase>, w: Worker, p: Phase)
    requires w < |phases|
    ensures Sleepers(phases[w := p])
            == Sleepers(phases) - (if Asleep(phases[w]) then 1 else 0) + (if Asleep(p) then 1 else 0)
    ensures Waiters(phases[w := p])
            == Waiters(phases) - (if phases[w].Waiting? then 1 else 0) + (if p.Waiting? then 1 else 0)
    decreases |phases|
  {
    var n := |phases| - 1;
    if w < n {
      PhaseChanges(phases[..n], w, p);
      assert phases[w := p][..n] == phases[..n][w := p];
    } else {
      assert phases[w := p][..n] == phases[..n];
    }
  }

  function Mover(step: Step): Option<Worker> {
    match step
    case Take(w, _) => Some(w)
    case TakeBatch(w, _, _) => Some(w)
    case PutBatch(w, _) => Some(w)
    case FallAsleep(w) => Some(w)
    case PassEmpty(w, _) => Some(w)
    case Leave(w) => Some(w)
    case Commit(w) => Some(w)
    case TakeToken(w) => Some(w)
    case Exit(w) => Some(w)
    case _ => None
  }

  lemma CountsKept(s: System, step: Step)
    requires SystemInv(s) && Enabled(s, step)
    ensures Do(s, step).sleepers == Sleepers(Do(s, step).phases)
    ensures Do(s, step).notifiedAll ==> Do(s, step).tokens >= Waiters(Do(s, step).phases)
  {
    if Mover(step).Some? {
      var w := Mover(step).value;
      PhaseChanges(s.phases, w, Do(s, step).phases[w]);
    }
  }

  /// A queue that was covered, or filled in this very step, is covered afterwards.
  lemma CoverKept(s: System, step: Step, q: Queue)
    requires SystemInv(s) && Enabled(s, step) && Do(s, step).running
    requires q < |s.queues| && Do(s, step).queues[q] > 0
    ensures Covered(Do(s, step), q)
  {
    var t := Do(s, step);
    if Mover(step).Some? {
      var w := Mover(step).value;
      if Alert(t.phases[w], q) {
      } else {
        assert s.queues[q] > 0 && !Alert(s.phases[w], q);
        if v :| 0 <= v < |s.phases| && Alert(s.phases[v], q) {
          assert Alert(t.phases[v], q);
        }
      }
    } else if step.LoadSleepers? && s.sleepers == 0 {
      assert Alert(t.phases[0], q);
    } else if step.Submit? {
      assert step.t in t.submitters;
    } else if step.LoadSleepers? {
      assert step.t in t.submitters;
    } else if SomeAlert(s, q) {
      assert t.phases == s.phases;
    }
  }

  lemma StepKeepsInv(s: System, step: Step)
    requires SystemInv(s) && Enabled(s, step)
    ensures SystemInv(Do(s, step))
  {
    CountsKept(s, step);
    if Do(s, step).running {
      forall q | 0 <= q < |s.queues| && Do(s, step).queues[q] > 0 ensures Covered(Do(s, step), q) {
        CoverKept(s, step, q);
      }
    }
  }

  // -- Runs ----------------------------------------------------------------------------------

  predicate Started(s: System) {
    && |s.phases| > 0 && (forall w :: 0 <= w < |s.phases| ==> s.phases[w].Awake?)
    && (forall q :: 0 <= q < |s.queues| ==> s.queues[q] == 0)
    && s.sleepers == 0 && s.tokens == 0 && s.submitters == map[] && s.running && !s.notifiedAll
  }

  lemma {:induction false} NobodySleeps(phases: seq<Phase>)
    requires forall w :: 0 <= w < |phases| ==> phases[w].Awake?
    ensures Sleepers(phases) == 0
  {
    if phases != [] { NobodySleeps(phases[..|phases| - 1]); }
  }

  predicate IsRun(states: seq<System>, steps: seq<Step>) {
    && |states| == |steps| + 1 && Started(states[0])
    && forall i {:trigger steps[i]} :: 0 <= i < |steps| ==>
         Enabled(states[i], steps[i]) && states[i + 1] == Do(states[i], steps[i])
  }

  lemma {:induction false} RunKeepsInv(states: seq<System>, steps: seq<Step>, n: nat)
    requires IsRun(states, steps) && n < |states|
    ensures SystemInv(states[n]) && (n > 0 ==> SystemInv(states[n - 1]))
  {
    if n == 0 {
      NobodySleeps(states[0].phases);
    } else {
      RunKeepsInv(states, steps, n - 1);
      StepKeepsInv(states[n - 1], steps[n - 1]);
    }
  }

  /// No wake-up is lost: while the system runs, a job is never left in a queue with every worker
  /// blocked, no token to wake one and no submitter on its way to notify.
  lemma NoLostWakeUp(states: seq<System>, steps: seq<Step>, n: nat, q: Queue)
    requires IsRun(states, steps) && n < |states| && states[n].running
    requires q < |states[n].queues| && states[n].queues[q] > 0 && states[n].submitters == map[]
    ensures states[n].tokens > 0
            || exists w :: 0 <= w < |states[n].phases| && !states[n].phases[w].Waiting? && Alert(states[n].phases[w], q)
  {
    RunKeepsInv(states, steps, n);
    assert Covered(states[n], q);
    if SomeAlert(states[n], q) {
      var w :| 0 <= w < |states[n].phases| && Alert(states[n].phases[w], q);
      assert !states[n].phases[w].Waiting?;
    }
  }

  /// Shutting down leaves no worker blocked: after notifyAll there is a token for each waiting worker.
  lemma {:induction false} ShutdownWakesEveryone(states: seq<System>, steps: seq<Step>, n: nat)
    requires IsRun(states, steps) && n < |states| && states[n].notifiedAll
    ensures Waiters(states[n].phases) <= states[n].tokens
    ensures forall w :: 0 <= w < |states[n].phases| && states[n].phases[w].Waiting? ==> Enabled(states[n], TakeToken(w))
  {
    RunKeepsInv(states, steps, n);
    forall w | 0 <= w < |states[n].phases| && states[n].phases[w].Waiting? ensures Enabled(states[n], TakeToken(w)) {
      PhaseChanges(states[n].phases, w, Awake);
    }
  }

  /// The sleeper count is exact in every reachable state, so a submitter that reads 0 may skip the
  /// notification.
  lemma SleepersAreCounted(states: seq<System>, steps: seq<Step>, n: nat)
    requires IsRun(states, steps) && n < |states|
    ensures states[n].sleepers == Sleepers(states[n].phases)
    ensures states[n].sleepers == 0 ==> forall w :: 0 <= w < |states[n].phases| ==> !Asleep(states[n].phases[w])
  {
    RunKeepsInv(states, steps, n);
  }

  // -- Conservation --------------------------------------------------------------------------

  /// The jobs of global batches that workers still carry.
  function Carried(phases: seq<Phase>): nat {
    if phases == [] then 0
    else Carried(phases[..|phases| - 1]) + if phases[|phases| - 1].Moving? then phases[|phases| - 1].jobs else 0
  }

  lemma {:induction false} CarriedChanges(phases: seq<Phase>, w: Worker, p: Phase)
    requires w < |phases|
    ensures Carried(phases[w := p])
            == Carried(phases) - (if phases[w].Moving? then phases[w].jobs else 0) + (if p.Moving? then p.jobs else 0)
    ensures phases[w].Moving? ==> phases[w].jobs <= Carried(phases)
    decreases |phases|
  {
    var n := |phases| - 1;
    if w < n {
      CarriedChanges(phases[..n], w, p);
      assert phases[w := p][..n] == phases[..n][w := p];
    } else {
      assert phases[w := p][..n] == phases[..n];
    }
  }

  function Submissions(steps: seq<Step>): nat {
    if steps == [] then 0 else Submissions(steps[..|steps| - 1]) + if steps[|steps| - 1].Submit? then 1 else 0
  }

  predicate StartsJob(step: Step) {
    step.Take? || step.TakeBatch? || step.Help?
  }

  function Starts(steps: seq<Step>): nat {
    if steps == [] then 0 else Starts(steps[..|steps| - 1]) + if StartsJob(steps[|steps| - 1]) then 1 else 0
  }

  /// What a step does to the queues, and what to the jobs carried.
  lemma QueuesChange(s: System, step: Step)
    requires Enabled(s, step)
    ensures Sum(Do(s, step).queues)
            == Sum(s.queues)
               + (match step
                  case Submit(_, _) => 1
                  case Help(_) => -1
                  case Take(_, _) => -1
                  case TakeBatch(_, _, n) => 0 - n
                  case PutBatch(w, _) => s.phases[w].jobs
                  case _ => 0)
  {
    hide Sum;
    match step
    case Submit(_, q) => SumUpdate(s.queues, q, s.queues[q] + 1);
    case Help(q) => SumUpdate(s.queues, q, s.queues[q] - 1);
    case Take(_, q) => SumUpdate(s.queues, q, s.queues[q] - 1);
    case TakeBatch(_, q, n) => SumUpdate(s.queues, q, s.queues[q] - n);
    case PutBatch(w, own) => SumUpdate(s.queues, own, s.queues[own] + s.phases[w].jobs);
    case _ =>
  }

  lemma CarriedByStep(s: System, step: Step)
    requires Enabled(s, step)
    ensures Carried(Do(s, step).phases)
            == Carried(s.phases)
               + (match step
                  case TakeBatch(_, _, n) => n - 1
                  case PutBatch(w, _) => 0 - s.phases[w].jobs
                  case _ => 0)
  {
    hide Carried;
    if Mover(step).Some? { CarriedChanges(s.phases, Mover(step).value, Do(s, step).phases[Mover(step).value]); }
  }

  lemma StepConserves(s: System, step: Step)
    requires Enabled(s, step)
    ensures var t := Do(s, step);
      Sum(t.queues) + Carried(t.phases) + (if StartsJob(step) then 1 else 0)
      == Sum(s.queues) + Carried(s.phases) + if step.Submit? then 1 else 0
  {
    QueuesChange(s, step);
    CarriedByStep(s, step);
    hide Enabled, Do, Sum, Carried;
  }

  lemma {:induction false} NothingQueued(queues: seq<nat>)
    requires forall q :: 0 <= q < |queues| ==> queues[q] == 0
    ensures Sum(queues) == 0
  {
    if queues != [] { NothingQueued(queues[..|queues| - 1]); }
  }

  /// No job is lost and none is run twice: in every reachable state the jobs submitted are those in the queues, those
  /// that a worker carries from one queue to another, and those that were started.
  lemma {:induction false} JobsAreConserved(states: seq<System>, steps: seq<Step>, n: nat)
    requires IsRun(states, steps) && n < |states|
    ensures Submissions(steps[..n]) == Sum(states[n].queues) + Carried(states[n].phases) + Starts(steps[..n])
  {
    if n == 0 {
      NothingQueued(states[0].queues);
      NobodyCarries(states[0].phases);
    } else {
      JobsAreConserved(states, steps, n - 1);
      StepConserves(states[n - 1], steps[n - 1]);
      assert steps[..n][..n - 1] == steps[..n - 1];
      hide Enabled, Do;
    }
  }

  /// So when the queues are empty and nobody carries a batch, every job submitted was started.
  lemma DrainedMeansStarted(states: seq<System>, steps: seq<Step>)
    requires IsRun(states, steps)
    requires var s := states[|steps|];
      (forall q :: 0 <= q < |s.queues| ==> s.queues[q] == 0) && forall w :: 0 <= w < |s.phases| ==> !s.phases[w].Moving?
    ensures Submissions(steps) == Starts(steps)
  {
    var s := states[|steps|];
    JobsAreConserved(states, steps, |steps|);
    assert steps[..|steps|] == steps;
    NothingQueued(s.queues);
    NobodyCarries(s.phases);
    hide Do;
  }

  lemma {:induction false} NobodyCarries(phases: seq<Phase>)
    requires forall w :: 0 <= w < |phases| ==> !phases[w].Moving?
    ensures Carried(phases) == 0
  {
    if phases != [] { NobodyCarries(phases[..|phases| - 1]); }
  }

  // -- Tokens --------------------------------------------------------------------------------

  lemma {:induction false} SleepersFit(phases: seq<Phase>)
    ensures Sleepers(phases) <= |phases|
  {
    if phases != [] { SleepersFit(phases[..|phases| - 1]); }
  }

  predicate TokensFit(s: System) {
    && (forall t :: t in s.submitters && s.submitters[t].Notifying? ==> s.submitters[t].seen <= |s.phases|)
    && s.tokens <= (if s.notifiedAll then 2 * |s.phases| else |s.phases|)
    && (s.running ==> !s.notifiedAll)
  }

  lemma StepKeepsTokens(s: System, step: Step)
    requires SystemInv(s) && Enabled(s, step) && TokensFit(s)
    ensures TokensFit(Do(s, step)) && |Do(s, step).phases| == |s.phases|
  {
    SleepersFit(s.phases);
  }

  /// Submissions bank no wake-ups: while the system runs there is at most one token for each worker, however many jobs
  /// were submitted, and shutting down adds at most one more for each.
  lemma {:induction false} TokensAreCapped(states: seq<System>, steps: seq<Step>, n: nat)
    requires IsRun(states, steps) && n < |states|
    ensures TokensFit(states[n]) && |states[n].phases| == |states[0].phases|
  {
    if n > 0 {
      TokensAreCapped(states, steps, n - 1);
      RunKeepsInv(states, steps, n - 1);
      StepKeepsTokens(states[n - 1], steps[n - 1]);
    }
  }
}
