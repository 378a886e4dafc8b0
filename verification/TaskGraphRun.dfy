/// Running a task graph by atomic countdowns (TaskGraph::run and runNode in
/// engine/core/src/jobs.cpp). Each atomic decrement, launch and node function is one step, and any
/// job that was launched may take the next one.
module TaskGraphRun {
  import opened OrderedSets
  import opened TaskGraphs

  /// What the job of a node is doing.
  datatype Job =
    | Absent                    // not launched
    | Queued
    | InFunction                // the node's function runs
    | Counting(next: nat)       // about to count down the successor at this position
    | Launching(next: nat)      // counted that successor down to 0: about to launch it
    | Finished                  // decremented `done`: touches the shared state no more

  datatype Main = Starting(next: NodeId) | WaitingForDone | Returned

  /// `launches` is a history: how often each node was launched.
  datatype State = State(jobs: seq<Job>, remaining: seq<nat>, done: nat, main: Main, launches: seq<nat>)

  datatype Step = MainStep | JobStep(v: NodeId)

  function Initial(g: Graph): State {
    State(seq(|g|, _ => Absent), seq(|g|, v requires 0 <= v < |g| => |Predecessors(g, v)|), |g|, Starting(0),
          seq(|g|, _ => 0))
  }

  predicate Sized(g: Graph, s: State) {
    && |s.jobs| == |g| && |s.remaining| == |g| && |s.launches| == |g|
    && (s.main.Starting? ==> s.main.next <= |g|)
    && forall v :: 0 <= v < |g| ==>
         (s.jobs[v].Counting? ==> s.jobs[v].next <= |g[v]|) && (s.jobs[v].Launching? ==> s.jobs[v].next < |g[v]|)
  }

  function Launch(s: State, v: NodeId): State
    requires v < |s.jobs| && v < |s.launches|
  {
    s.(jobs := s.jobs[v := Queued], launches := s.launches[v := s.launches[v] + 1])
  }

  function Successor(g: Graph, v: NodeId, k: nat): (w: NodeId)
    requires GraphOk(g) && v < |g| && k < |g[v]|
    ensures w == g[v][k] && w < |g| && w != v && v in Predecessors(g, w)
  {
    assert g[v][k] in g[v];
    g[v][k]
  }

  predicate Enabled(s: State, step: Step) {
    match step
    case MainStep => s.main.Starting? || (s.main.WaitingForDone? && s.done == 0)
    case JobStep(v) => v < |s.jobs| && !s.jobs[v].Absent? && !s.jobs[v].Finished?
  }

  /// The counters a step may decrement are positive: fetch_sub never wraps around.
  predicate CountersOk(g: Graph, s: State, step: Step)
    requires Sized(g, s) && GraphOk(g)
  {
    step.JobStep? && step.v < |g| && s.jobs[step.v].Counting? ==>
      if s.jobs[step.v].next < |g[step.v]| then s.remaining[Successor(g, step.v, s.jobs[step.v].next)] > 0
      else s.done > 0
  }

  function Do(g: Graph, s: State, step: Step): State
    requires GraphOk(g) && Sized(g, s) && Enabled(s, step) && CountersOk(g, s, step)
  {
    match step
    case MainStep =>
      if s.main.WaitingForDone? then s.(main := Returned)
      else if s.main.next == |g| then s.(main := WaitingForDone)
      else
        var t := if Predecessors(g, s.main.next) == {} then Launch(s, s.main.next) else s;
        t.(main := Starting(s.main.next + 1))
    case JobStep(v) =>
      match s.jobs[v]
      case Queued => s.(jobs := s.jobs[v := InFunction])
      case InFunction => s.(jobs := s.jobs[v := Counting(0)])
      case Counting(k) =>
        if k == |g[v]| then s.(jobs := s.jobs[v := Finished], done := s.done - 1)
        else
          var w := Successor(g, v, k);
          s.(remaining := s.remaining[w := s.remaining[w] - 1],
             jobs := s.jobs[v := if s.remaining[w] == 1 then Launching(k) else Counting(k + 1)])
      case Launching(k) =>
        var t := s.(jobs := s.jobs[v := Counting(k + 1)]);
        Launch(t, Successor(g, v, k))
      case _ => s
  }

  // -- Invariants ----------------------------------------------------------------------------

  predicate FunctionReturned(j: Job) {
    j.Counting? || j.Launching? || j.Finished?
  }

  /// The job of u counted down the edge to v.
  predicate CountedDown(g: Graph, j: Job, u: NodeId, v: NodeId)
    requires u < |g| && (j.Counting? ==> j.next <= |g[u]|) && (j.Launching? ==> j.next < |g[u]|)
  {
    (j.Finished? && v in g[u]) || (j.Counting? && v in g[u][..j.next]) || (j.Launching? && v in g[u][..j.next + 1])
  }

  /// The edges into v that were not counted down.
  function Pending(g: Graph, s: State, v: NodeId): set<NodeId>
    requires Sized(g, s)
  {
    set u | u in Predecessors(g, v) && !CountedDown(g, s.jobs[u], u, v)
  }

  predicate HandsOver(g: Graph, j: Job, u: NodeId, v: NodeId)
    requires u < |g| && (j.Launching? ==> j.next < |g[u]|)
  {
    j.Launching? && g[u][j.next] == v
  }

  /// The jobs that counted v down to 0 and are about to launch it.
  function Handers(g: Graph, s: State, v: NodeId): set<NodeId>
    requires Sized(g, s)
  {
    set u | u in Predecessors(g, v) && HandsOver(g, s.jobs[u], u, v)
  }

  predicate ReadyToStart(g: Graph, s: State, v: NodeId) {
    Predecessors(g, v) == {} && s.main.Starting? && s.main.next <= v
  }

  ghost predicate AtMostOne(ids: set<NodeId>) {
    forall u, w :: u in ids && w in ids ==> u == w
  }

  /// A node is launched once: by the main thread when it depends on nothing, or by the job that
  /// counts down the last edge into it.
  ghost predicate NodeInv(g: Graph, s: State, v: NodeId)
    requires Sized(g, s) && v < |g|
  {
    && s.remaining[v] == |Pending(g, s, v)|
    && s.launches[v] == (if s.jobs[v].Absent? then 0 else 1)
    && (s.jobs[v].Absent? <==> Pending(g, s, v) != {} || Handers(g, s, v) != {} || ReadyToStart(g, s, v))
    && (Handers(g, s, v) != {} ==> Pending(g, s, v) == {})
    && AtMostOne(Handers(g, s, v))
  }

  function Unfinished(s: State): set<NodeId> {
    set v | 0 <= v < |s.jobs| && !s.jobs[v].Finished?
  }

  ghost predicate RunInv(g: Graph, s: State) {
    && GraphOk(g) && Sized(g, s)
    && s.done == |Unfinished(s)|
    && (s.main.Returned? ==> s.done == 0)
    && forall v :: 0 <= v < |g| ==> NodeInv(g, s, v)
  }

  lemma SameEdges(g: Graph, s: State, t: State, v: NodeId)
    requires Sized(g, s) && Sized(g, t)
    requires forall u :: u in Predecessors(g, v) ==>
               && CountedDown(g, s.jobs[u], u, v) == CountedDown(g, t.jobs[u], u, v)
               && HandsOver(g, s.jobs[u], u, v) == HandsOver(g, t.jobs[u], u, v)
    ensures Pending(g, t, v) == Pending(g, s, v) && Handers(g, t, v) == Handers(g, s, v)
  {
  }

  /// No counter goes below zero.
  lemma CountersHold(g: Graph, s: State, step: Step)
    requires RunInv(g, s) && Enabled(s, step)
    ensures CountersOk(g, s, step)
  {
    if step.JobStep? && s.jobs[step.v].Counting? {
      var v, k := step.v, s.jobs[step.v].next;
      if k < |g[v]| {
        var w := Successor(g, v, k);
        assert NodeInv(g, s, w);
        assert v in Pending(g, s, w);
      } else {
        assert v in Unfinished(s);
      }
    }
  }

  lemma QuietStep(g: Graph, s: State, v: NodeId, j: Job)
    requires RunInv(g, s) && v < |g| && !s.jobs[v].Absent? && !j.Absent?
    requires !j.Finished? && !s.jobs[v].Finished?
    requires (j.Counting? ==> j.next <= |g[v]|) && !j.Launching? && !s.jobs[v].Launching?
    requires forall w :: CountedDown(g, s.jobs[v], v, w) == CountedDown(g, j, v, w)
    ensures RunInv(g, s.(jobs := s.jobs[v := j]))
  {
    var t := s.(jobs := s.jobs[v := j]);
    assert Unfinished(t) == Unfinished(s);
    forall w | 0 <= w < |g| ensures NodeInv(g, t, w) {
      assert NodeInv(g, s, w);
      SameEdges(g, s, t, w);
    }
  }

  lemma FinishStep(g: Graph, s: State, v: NodeId)
    requires RunInv(g, s) && v < |g| && s.jobs[v] == Counting(|g[v]|)
    ensures s.done > 0 && RunInv(g, s.(jobs := s.jobs[v := Finished], done := s.done - 1))
  {
    assert v in Unfinished(s);
    var t := s.(jobs := s.jobs[v := Finished], done := s.done - 1);
    assert Unfinished(t) == Unfinished(s) - {v};
    assert g[v][..|g[v]|] == g[v];
    forall w | 0 <= w < |g| ensures NodeInv(g, t, w) {
      assert NodeInv(g, s, w);
      SameEdges(g, s, t, w);
    }
  }

  lemma CountsOneMore(g: Graph, v: NodeId, k: nat, x: NodeId)
    requires GraphOk(g) && v < |g| && k < |g[v]|
    ensures x in g[v][..k + 1] <==> x in g[v][..k] || x == g[v][k]
    ensures g[v][k] !in g[v][..k]
  {
    assert g[v][..k + 1] == g[v][..k] + [g[v][k]];
  }

  lemma CountOther(g: Graph, s: State, v: NodeId, x: NodeId)
    requires RunInv(g, s) && v < |g| && s.jobs[v].Counting? && s.jobs[v].next < |g[v]|
    requires CountersOk(g, s, JobStep(v)) && x < |g| && x != g[v][s.jobs[v].next]
    ensures NodeInv(g, Do(g, s, JobStep(v)), x)
  {
    assert NodeInv(g, s, x);
    CountsOneMore(g, v, s.jobs[v].next, x);
    SameEdges(g, s, Do(g, s, JobStep(v)), x);
  }

  lemma CountTarget(g: Graph, s: State, v: NodeId)
    requires RunInv(g, s) && v < |g| && s.jobs[v].Counting? && s.jobs[v].next < |g[v]|
    requires CountersOk(g, s, JobStep(v))
    ensures NodeInv(g, Do(g, s, JobStep(v)), Successor(g, v, s.jobs[v].next))
  {
    var t, w := Do(g, s, JobStep(v)), Successor(g, v, s.jobs[v].next);
    assert NodeInv(g, s, w);
    CountsOneMore(g, v, s.jobs[v].next, w);
    assert v in Pending(g, s, w);
    assert Pending(g, t, w) == Pending(g, s, w) - {v};
    assert Handers(g, t, w) == Handers(g, s, w) + if t.jobs[v].Launching? then {v} else {};
  }

  lemma CountStep(g: Graph, s: State, v: NodeId)
    requires RunInv(g, s) && v < |g| && s.jobs[v].Counting? && s.jobs[v].next < |g[v]|
    requires CountersOk(g, s, JobStep(v))
    ensures RunInv(g, Do(g, s, JobStep(v)))
  {
    var t, w := Do(g, s, JobStep(v)), Successor(g, v, s.jobs[v].next);
    assert Unfinished(t) == Unfinished(s);
    forall x | 0 <= x < |g| ensures NodeInv(g, t, x) {
      if x == w { CountTarget(g, s, v); } else { CountOther(g, s, v, x); }
    }
  }

  lemma LaunchStep(g: Graph, s: State, v: NodeId)
    requires RunInv(g, s) && v < |g| && s.jobs[v].Launching?
    ensures RunInv(g, Do(g, s, JobStep(v)))
    ensures s.jobs[Successor(g, v, s.jobs[v].next)].Absent?
  {
    var k := s.jobs[v].next;
    var w := Successor(g, v, k);
    var t := Do(g, s, JobStep(v));
    assert NodeInv(g, s, w);
    assert v in Handers(g, s, w);
    assert Unfinished(t) == Unfinished(s);
    forall x | 0 <= x < |g| ensures NodeInv(g, t, x) {
      assert NodeInv(g, s, x);
      if x != w {
        SameEdges(g, s, t, x);
      } else {
        assert Pending(g, t, w) == Pending(g, s, w);
        assert Handers(g, t, w) == Handers(g, s, w) - {v};
      }
    }
  }

  lemma MainStepKeepsInv(g: Graph, s: State)
    requires RunInv(g, s) && Enabled(s, MainStep)
    ensures RunInv(g, Do(g, s, MainStep))
    ensures s.main.Starting? && s.main.next < |g| && Predecessors(g, s.main.next) == {} ==> s.jobs[s.main.next].Absent?
  {
    var t := Do(g, s, MainStep);
    if s.main.Starting? && s.main.next < |g| { assert NodeInv(g, s, s.main.next); }
    assert Unfinished(t) == Unfinished(s);
    forall x | 0 <= x < |g| ensures NodeInv(g, t, x) {
      assert NodeInv(g, s, x);
      SameEdges(g, s, t, x);
    }
  }

  lemma StepKeepsInv(g: Graph, s: State, step: Step)
    requires RunInv(g, s) && Enabled(s, step)
    ensures CountersOk(g, s, step) && RunInv(g, Do(g, s, step))
  {
    CountersHold(g, s, step);
    match step
    case MainStep => MainStepKeepsInv(g, s);
    case JobStep(v) =>
      match s.jobs[v]
      case Queued => QuietStep(g, s, v, InFunction);
      case InFunction => QuietStep(g, s, v, Counting(0));
      case Launching(_) => LaunchStep(g, s, v);
      case Counting(k) => if k == |g[v]| { FinishStep(g, s, v); } else { CountStep(g, s, v); }
  }

  // -- Runs ----------------------------------------------------------------------------------

  lemma InitialInv(g: Graph)
    requires GraphOk(g)
    ensures RunInv(g, Initial(g))
  {
    var s := Initial(g);
    Numbers(|g|);
    assert Unfinished(s) == UpTo(|g|);
    forall v | 0 <= v < |g| ensures NodeInv(g, s, v) {
      assert Pending(g, s, v) == Predecessors(g, v);
      assert Handers(g, s, v) == {};
    }
  }

  ghost predicate IsRun(g: Graph, states: seq<State>, steps: seq<Step>) {
    && GraphOk(g) && |states| == |steps| + 1 && states[0] == Initial(g)
    && forall i {:trigger steps[i]} :: 0 <= i < |steps| ==>
         Enabled(states[i], steps[i])
         && (RunInv(g, states[i]) && CountersOk(g, states[i], steps[i]) ==> states[i + 1] == Do(g, states[i], steps[i]))
  }

  lemma {:induction false} RunKeepsInv(g: Graph, states: seq<State>, steps: seq<Step>, n: nat)
    requires IsRun(g, states, steps) && n < |states|
    ensures RunInv(g, states[n])
  {
    if n == 0 {
      InitialInv(g);
    } else {
      RunKeepsInv(g, states, steps, n - 1);
      StepKeepsInv(g, states[n - 1], steps[n - 1]);
    }
  }

  /// Whatever the schedule, a node's function starts only after those of all nodes it depends on
  /// have returned.
  lemma PredecessorsReturnFirst(g: Graph, states: seq<State>, steps: seq<Step>, n: nat, u: NodeId, v: NodeId)
    requires IsRun(g, states, steps) && n < |states| && Edge(g, u, v)
    requires v < |states[n].jobs| && !states[n].jobs[v].Absent?
    ensures u < |states[n].jobs| && FunctionReturned(states[n].jobs[u])
  {
    RunKeepsInv(g, states, steps, n);
    assert NodeInv(g, states[n], v);
    assert u in Predecessors(g, v) && u !in Pending(g, states[n], v);
  }

  /// No node is launched twice, and when run() has returned every node was launched once and its job
  /// has made its last access to the shared state.
  lemma RunsEachNodeOnce(g: Graph, states: seq<State>, steps: seq<Step>, n: nat, v: NodeId)
    requires IsRun(g, states, steps) && n < |states| && v < |g|
    ensures v < |states[n].launches| == |states[n].jobs|
    ensures states[n].launches[v] <= 1
    ensures states[n].main.Returned? ==> states[n].launches[v] == 1 && states[n].jobs[v].Finished?
  {
    RunKeepsInv(g, states, steps, n);
    assert NodeInv(g, states[n], v);
    if states[n].main.Returned? { assert v !in Unfinished(states[n]); }
  }

  /// After run() returned nothing is left that could touch its state.
  lemma NothingRunsAfterReturn(g: Graph, states: seq<State>, steps: seq<Step>, n: nat, step: Step)
    requires IsRun(g, states, steps) && n < |states| && states[n].main.Returned?
    ensures !Enabled(states[n], step)
  {
    RunKeepsInv(g, states, steps, n);
    if step.JobStep? && step.v < |states[n].jobs| {
      RunsEachNodeOnce(g, states, steps, n, step.v);
    }
  }

  /// A run of an acyclic graph never gets stuck before run() has returned.
  lemma NeverStuck(g: Graph, states: seq<State>, steps: seq<Step>, n: nat)
    requires IsRun(g, states, steps) && n < |states| && Acyclic(g) && !states[n].main.Returned?
    ensures exists step :: Enabled(states[n], step)
  {
    RunKeepsInv(g, states, steps, n);
    var s := states[n];
    var absent := set v | 0 <= v < |g| && s.jobs[v].Absent?;
    if v :| 0 <= v < |g| && !s.jobs[v].Absent? && !s.jobs[v].Finished? {
      assert Enabled(s, JobStep(v));
    } else if s.main.Starting? {
      assert Enabled(s, MainStep);
    } else if absent == {} {
      assert Unfinished(s) == {};
      assert Enabled(s, MainStep);
    } else {
      forall v | v in absent ensures DependsOn(g, absent, v) {
        assert NodeInv(g, s, v);
        assert Handers(g, s, v) == {};
        var u :| u in Pending(g, s, v);
        assert u in absent && Edge(g, u, v);
      }
      var c := StuckHaveCycle(g, absent);
      assert false;
    }
  }

  // -- Every run ends ------------------------------------------------------------------------

  /// How many steps the job of a node with this many successors may still take.
  function Work(j: Job, successors: nat): nat
    requires j.Counting? || j.Launching? ==> j.next <= successors
  {
    match j
    case Absent => 2 * successors + 4
    case Queued => 2 * successors + 3
    case InFunction => 2 * successors + 2
    case Counting(k) => 2 * (successors - k) + 1
    case Launching(k) => 2 * (successors - k)
    case Finished => 0
  }

  function WorkBelow(g: Graph, s: State, n: nat): nat
    requires Sized(g, s) && n <= |g|
  {
    if n == 0 then 0 else WorkBelow(g, s, n - 1) + Work(s.jobs[n - 1], |g[n - 1]|)
  }

  function StepsLeft(g: Graph, s: State): nat
    requires Sized(g, s)
  {
    WorkBelow(g, s, |g|)
    + match s.main
      case Starting(i) => |g| - i + 2
      case WaitingForDone => 1
      case Returned => 0
  }

  lemma {:induction false} WorkDrops(g: Graph, s: State, t: State, n: nat)
    requires Sized(g, s) && Sized(g, t) && n <= |g|
    requires forall v :: 0 <= v < n ==> Work(t.jobs[v], |g[v]|) <= Work(s.jobs[v], |g[v]|)
    ensures WorkBelow(g, t, n) <= WorkBelow(g, s, n)
    ensures (exists v :: 0 <= v < n && Work(t.jobs[v], |g[v]|) < Work(s.jobs[v], |g[v]|)) ==>
              WorkBelow(g, t, n) < WorkBelow(g, s, n)
  {
    if n > 0 { WorkDrops(g, s, t, n - 1); }
  }

  lemma StepDoesWork(g: Graph, s: State, step: Step)
    requires RunInv(g, s) && Enabled(s, step) && CountersOk(g, s, step)
    ensures Sized(g, Do(g, s, step)) && StepsLeft(g, Do(g, s, step)) < StepsLeft(g, s)
  {
    var t := Do(g, s, step);
    StepKeepsInv(g, s, step);
    match step
    case MainStep =>
      MainStepKeepsInv(g, s);
      WorkDrops(g, s, t, |g|);
    case JobStep(v) =>
      if s.jobs[v].Launching? { LaunchStep(g, s, v); }
      assert Work(t.jobs[v], |g[v]|) < Work(s.jobs[v], |g[v]|);
      WorkDrops(g, s, t, |g|);
  }

  /// Every run has at most as many steps as its first state allows; so on an acyclic graph run()
  /// returns under every schedule.
  lemma {:induction false} RunsAreBounded(g: Graph, states: seq<State>, steps: seq<Step>, n: nat)
    requires IsRun(g, states, steps) && n < |states|
    ensures RunInv(g, states[n]) && n + StepsLeft(g, states[n]) <= StepsLeft(g, Initial(g))
  {
    RunKeepsInv(g, states, steps, n);
    if n > 0 {
      RunsAreBounded(g, states, steps, n - 1);
      CountersHold(g, states[n - 1], steps[n - 1]);
      StepDoesWork(g, states[n - 1], steps[n - 1]);
    }
  }
}
