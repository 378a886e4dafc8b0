/// LeaseHolder: region lease generations and the holder rule (engine/authority/src/lease.cpp).
/// Statistics and log lines are left out.
module Lease {
  import opened AuthorityTypes
  import opened Naturals
  import opened OrderedSets

  type Floors = map<RegionId, LeaseGen>

  datatype Assignment = Assignment(region: RegionId, name: string, leaseGen: LeaseGen)

  datatype LossReason =
    LeaseLost | Unassigned | GenerationChanged | HigherGenerationSeen | CheckpointRejected | GivenUp

  datatype LeaseEvent = Acquired(assignment: Assignment) | Lost(assignment: Assignment, reason: LossReason)

  datatype Held = Held(assignment: Assignment, verify: bool)

  type Holdings = map<RegionId, Held>

  datatype State = State(held: Holdings, floor: Floors)

  function FloorOf(floor: Floors, region: RegionId): LeaseGen {
    if region in floor then floor[region] else 0
  }

  function Raised(floor: Floors, region: RegionId, gen: LeaseGen): Floors {
    floor[region := Max(FloorOf(floor, region), gen)]
  }

  /// The reasons that end a generation inside one registration.
  predicate RaisesFloor(reason: LossReason) {
    reason != LeaseLost && reason != GivenUp
  }

  /// A held region is held under its own name, at a generation that is not below its floor.
  predicate HeldOk(s: State) {
    forall r :: r in s.held ==>
      r != 0 && s.held[r].assignment.region == r && FloorOf(s.floor, r) <= s.held[r].assignment.leaseGen
  }

  predicate Holds(s: State, region: RegionId, gen: LeaseGen) {
    region in s.held && s.held[region].assignment.leaseGen == gen
  }

  // -- An assignment list --------------------------------------------------------------------

  /// The assignment that counts for each listed region: the last entry at or above the floor, or
  /// the one held when that entry is older.
  function Incoming(s: State, list: seq<Assignment>): (m: map<RegionId, Assignment>)
    requires HeldOk(s)
    ensures forall r :: r in m ==>
              r != 0 && m[r].region == r && FloorOf(s.floor, r) <= m[r].leaseGen
              && (r in s.held ==> s.held[r].assignment.leaseGen <= m[r].leaseGen)
  {
    if list == [] then map[]
    else
      var earlier := Incoming(s, list[..|list| - 1]);
      var a := list[|list| - 1];
      if a.region == 0 || a.leaseGen < FloorOf(s.floor, a.region) then earlier
      else if a.region in s.held && a.leaseGen < s.held[a.region].assignment.leaseGen then
        earlier[a.region := s.held[a.region].assignment]
      else earlier[a.region := a]
  }

  predicate Keeps(held: Holdings, inc: map<RegionId, Assignment>, r: RegionId) {
    r in held && r in inc && inc[r].leaseGen == held[r].assignment.leaseGen
  }

  /// The region's holding once the orchestrator confirmed its generation.
  function Confirmed(h: Held, a: Assignment): Held {
    Held(h.assignment.(name := a.name), false)
  }

  function LossOf(held: Holdings, inc: map<RegionId, Assignment>, r: RegionId): LeaseEvent
    requires r in held
  {
    Lost(held[r].assignment, if r in inc then GenerationChanged else Unassigned)
  }

  /// The losses of the listed held regions, in order.
  function Losses(held: Holdings, inc: map<RegionId, Assignment>, keys: seq<RegionId>): seq<LeaseEvent>
    requires forall r :: r in keys ==> r in held
  {
    if keys == [] then []
    else
      (if Keeps(held, inc, keys[0]) then [] else [LossOf(held, inc, keys[0])]) + Losses(held, inc, keys[1..])
  }

  function Gains(held: Holdings, inc: map<RegionId, Assignment>, keys: seq<RegionId>): seq<LeaseEvent>
    requires forall r :: r in keys ==> r in inc
  {
    if keys == [] then []
    else (if Keeps(held, inc, keys[0]) then [] else [Acquired(inc[keys[0]])]) + Gains(held, inc, keys[1..])
  }

  /// The floors while the held regions in `todo` are still to be compared with the incoming ones.
  function FloorsComparing(s: State, inc: map<RegionId, Assignment>, todo: set<RegionId>): Floors {
    map r | r in s.floor.Keys + (s.held.Keys - todo) && (r in s.floor || !Keeps(s.held, inc, r)) ::
      if r in s.held && r !in todo && !Keeps(s.held, inc, r)
      then Max(FloorOf(s.floor, r), s.held[r].assignment.leaseGen + 1) else FloorOf(s.floor, r)
  }

  /// The holdings while the held regions in `todo` are still to be compared.
  function HeldComparing(s: State, inc: map<RegionId, Assignment>, todo: set<RegionId>): Holdings {
    map r | r in s.held && (r in todo || Keeps(s.held, inc, r)) ::
      if r in todo then s.held[r] else Confirmed(s.held[r], inc[r])
  }

  /// The holdings after the whole comparison: confirmed ones, and those taken at a new generation.
  function HeldThen(held: Holdings, inc: map<RegionId, Assignment>): Holdings {
    map r | r in inc :: if Keeps(held, inc, r) then Confirmed(held[r], inc[r]) else Held(inc[r], false)
  }

  function OnAssignments(s: State, list: seq<Assignment>): (State, seq<LeaseEvent>)
    requires HeldOk(s)
  {
    var inc := Incoming(s, list);
    (State(HeldThen(s.held, inc), FloorsComparing(s, inc, {})),
     Losses(s.held, inc, InOrder(s.held.Keys)) + Gains(s.held, inc, InOrder(inc.Keys)))
  }

  /// A lost region's floor is above the generation it was held at; the other floors are as before.
  lemma FloorThen(s: State, inc: map<RegionId, Assignment>, r: RegionId)
    ensures FloorOf(FloorsComparing(s, inc, {}), r)
            == if r in s.held && !Keeps(s.held, inc, r)
               then Max(FloorOf(s.floor, r), s.held[r].assignment.leaseGen + 1) else FloorOf(s.floor, r)
  {
  }

  // -- The other signals ---------------------------------------------------------------------

  function AllLost(held: Holdings, keys: seq<RegionId>, reason: LossReason): seq<LeaseEvent>
    requires forall r :: r in keys ==> r in held
  {
    if keys == [] then [] else [Lost(held[keys[0]].assignment, reason)] + AllLost(held, keys[1..], reason)
  }

  /// The end of the registration: every region is lost and the floors start afresh.
  function EndRegistration(s: State, reason: LossReason): (State, seq<LeaseEvent>) {
    (State(map[], map[]), AllLost(s.held, InOrder(s.held.Keys), reason))
  }

  function Lose(s: State, region: RegionId, reason: LossReason): (State, seq<LeaseEvent>)
    requires region in s.held && RaisesFloor(reason)
  {
    (State(s.held - {region}, Raised(s.floor, region, s.held[region].assignment.leaseGen + 1)),
     [Lost(s.held[region].assignment, reason)])
  }

  function OnHigherGeneration(s: State, region: RegionId, seen: LeaseGen): (State, seq<LeaseEvent>) {
    var (t, events) :=
      if region in s.held && seen > s.held[region].assignment.leaseGen
      then Lose(s, region, HigherGenerationSeen) else (s, []);
    (if region != 0 then t.(floor := Raised(t.floor, region, seen)) else t, events)
  }

  function OnCheckpointRejected(s: State, region: RegionId): (State, seq<LeaseEvent>) {
    if region in s.held then Lose(s, region, CheckpointRejected) else (s, [])
  }

  function OnAgFenceRejected(s: State, region: RegionId): State {
    if region in s.held then s.(held := s.held[region := s.held[region].(verify := true)]) else s
  }

  datatype Signal =
    | Assignments(list: seq<Assignment>)
    | LeaseIsLost
    | HigherGeneration(region: RegionId, seen: LeaseGen)
    | RegionCheckpointRejected(region: RegionId)
    | AgFenceRejected(region: RegionId)
    | ControlPlaneUnreachable
    | ReleaseAll

  function On(s: State, signal: Signal): (State, seq<LeaseEvent>)
    requires HeldOk(s)
  {
    match signal
    case Assignments(list) => OnAssignments(s, list)
    case LeaseIsLost => EndRegistration(s, LeaseLost)
    case HigherGeneration(region, seen) => OnHigherGeneration(s, region, seen)
    case RegionCheckpointRejected(region) => OnCheckpointRejected(s, region)
    case AgFenceRejected(region) => (OnAgFenceRejected(s, region), [])
    case ControlPlaneUnreachable => (s, [])
    case ReleaseAll => EndRegistration(s, GivenUp)
  }

  lemma SignalKeepsHeldOk(s: State, signal: Signal)
    requires HeldOk(s)
    ensures HeldOk(On(s, signal).0)
  {
    if signal.Assignments? {
      var inc := Incoming(s, signal.list);
      var t := OnAssignments(s, signal.list).0;
      forall r | r in t.held
        ensures r != 0 && t.held[r].assignment.region == r && FloorOf(t.floor, r) <= t.held[r].assignment.leaseGen
      {
        assert r in inc;
        FloorThen(s, inc, r);
      }
    }
  }

  // -- What each signal decides --------------------------------------------------------------

  /// Entry `i` of the list assigns the region at a generation that was not given up.
  predicate Counts(s: State, list: seq<Assignment>, i: nat, region: RegionId)
    requires i < |list|
  {
    region != 0 && list[i].region == region && list[i].leaseGen >= FloorOf(s.floor, region)
  }

  predicate LastCounting(s: State, list: seq<Assignment>, i: nat, region: RegionId) {
    i < |list| && Counts(s, list, i, region) && forall j :: i < j < |list| ==> !Counts(s, list, j, region)
  }

  function Taken(s: State, a: Assignment): Assignment {
    if a.region in s.held && a.leaseGen < s.held[a.region].assignment.leaseGen then s.held[a.region].assignment else a
  }

  lemma IncomingStep(s: State, list: seq<Assignment>, region: RegionId)
    requires HeldOk(s) && list != []
    ensures var n := |list| - 1; var earlier := Incoming(s, list[..n]);
      if Counts(s, list, n, region)
      then region in Incoming(s, list) && Incoming(s, list)[region] == Taken(s, list[n])
      else (region in Incoming(s, list) <==> region in earlier)
           && (region in earlier ==> Incoming(s, list)[region] == earlier[region])
  {
  }

  lemma FrontLast(s: State, list: seq<Assignment>, i: nat, region: RegionId)
    requires list != [] && i < |list| - 1
    ensures LastCounting(s, list, i, region) <==>
            LastCounting(s, list[..|list| - 1], i, region) && !Counts(s, list, |list| - 1, region)
  {
    var n := |list| - 1;
    forall j | 0 <= j < n ensures Counts(s, list[..n], j, region) == Counts(s, list, j, region) { }
    hide Counts;
  }

  lemma {:induction false} LastIsIncoming(s: State, list: seq<Assignment>, i: nat, region: RegionId)
    requires HeldOk(s) && LastCounting(s, list, i, region)
    ensures region in Incoming(s, list) && Incoming(s, list)[region] == Taken(s, list[i])
    decreases |list|
  {
    IncomingStep(s, list, region);
    if i < |list| - 1 {
      FrontLast(s, list, i, region);
      hide HeldOk, Incoming, Taken, Counts, LastCounting;
      LastIsIncoming(s, list[..|list| - 1], i, region);
    }
  }

  lemma {:induction false} IncomingIsLast(s: State, list: seq<Assignment>, region: RegionId) returns (i: nat)
    requires HeldOk(s) && region in Incoming(s, list)
    ensures LastCounting(s, list, i, region)
    decreases |list|
  {
    IncomingStep(s, list, region);
    i := |list| - 1;
    if !Counts(s, list, i, region) {
      hide HeldOk, Incoming, Taken, Counts, LastCounting;
      i := IncomingIsLast(s, list[..|list| - 1], region);
      assert i < |list| - 1 by { LastCounts(s, list[..|list| - 1], i, region); }
      FrontLast(s, list, i, region);
    }
  }

  lemma LastCounts(s: State, list: seq<Assignment>, i: nat, region: RegionId)
    requires LastCounting(s, list, i, region)
    ensures i < |list| && Counts(s, list, i, region) && list[i].region == region
  {
  }

  lemma {:induction false} SomeLast(s: State, list: seq<Assignment>, i: nat, region: RegionId) returns (last: nat)
    requires i < |list| && Counts(s, list, i, region)
    ensures LastCounting(s, list, last, region)
    decreases |list| - i
  {
    hide Counts;
    last := i;
    if j :| i < j < |list| && Counts(s, list, j, region) { last := SomeLast(s, list, j, region); }
  }

  /// After a list, exactly the regions are held that some entry assigns at a generation not below the floor; the last
  /// such entry decides, unless it is older than what is held. What was held at another generation is below the floor.
  lemma ListDecides(s: State, list: seq<Assignment>, region: RegionId)
    requires HeldOk(s)
    ensures var t := OnAssignments(s, list).0;
      && (region in t.held <==> exists i :: 0 <= i < |list| && Counts(s, list, i, region))
      && (forall i: nat :: LastCounting(s, list, i, region) ==>
            && !t.held[region].verify && t.held[region].assignment.region == region
            && var older := region in s.held && list[i].leaseGen < s.held[region].assignment.leaseGen;
               && t.held[region].assignment.leaseGen
                  == (if older then s.held[region].assignment.leaseGen else list[i].leaseGen)
               && t.held[region].assignment.name
                  == (if older then s.held[region].assignment.name else list[i].name))
      && FloorOf(t.floor, region)
         == if region in s.held && !Holds(t, region, s.held[region].assignment.leaseGen)
               && FloorOf(s.floor, region) <= s.held[region].assignment.leaseGen
            then s.held[region].assignment.leaseGen + 1 else FloorOf(s.floor, region)
  {
    hide Incoming, Losses, Gains, InOrder, Counts, LastCounting, FloorsComparing;
    var inc := Incoming(s, list);
    FloorThen(s, inc, region);
    if region in inc {
      var i := IncomingIsLast(s, list, region);
      assert 0 <= i < |list| && Counts(s, list, i, region) by { LastCounts(s, list, i, region); }
    }
    if i :| 0 <= i < |list| && Counts(s, list, i, region) {
      var last := SomeLast(s, list, i, region);
      LastIsIncoming(s, list, last, region);
    }
    forall i: nat | LastCounting(s, list, i, region)
      ensures i < |list| && region in inc && inc[region] == Taken(s, list[i]) && list[i].region == region
    {
      LastCounts(s, list, i, region);
      LastIsIncoming(s, list, i, region);
    }
  }

  /// A higher generation seen elsewhere ends a holding at a lower one, and no generation below it is taken any more.
  lemma HigherGenerationDecides(s: State, region: RegionId, seen: LeaseGen)
    requires HeldOk(s)
    ensures var (t, events) := On(s, HigherGeneration(region, seen));
      var ends := region in s.held && s.held[region].assignment.leaseGen < seen;
      && (forall r :: r in t.held <==> r in s.held && !(r == region && ends))
      && (forall r :: r in t.held ==> t.held[r] == s.held[r])
      && events == (if ends then [Lost(s.held[region].assignment, HigherGenerationSeen)] else [])
      && (forall r :: FloorOf(t.floor, r)
                      == if r == region && r != 0 && FloorOf(s.floor, r) < seen then seen else FloorOf(s.floor, r))
  {
  }

  /// A rejected region checkpoint ends the holding, and its generation is not taken again.
  lemma RejectionEnds(s: State, region: RegionId)
    requires HeldOk(s)
    ensures var (t, events) := On(s, RegionCheckpointRejected(region));
      && (forall r :: r in t.held <==> r in s.held && r != region)
      && (forall r :: r in t.held ==> t.held[r] == s.held[r])
      && events == (if region in s.held then [Lost(s.held[region].assignment, CheckpointRejected)] else [])
      && (forall r :: FloorOf(t.floor, r)
                      == if r == region && r in s.held then s.held[r].assignment.leaseGen + 1 else FloorOf(s.floor, r))
  {
  }

  lemma {:induction false} AllLostListed(held: Holdings, keys: seq<RegionId>, reason: LossReason)
    requires forall r :: r in keys ==> r in held
    ensures |AllLost(held, keys, reason)| == |keys|
    ensures forall i :: 0 <= i < |keys| ==> AllLost(held, keys, reason)[i] == Lost(held[keys[i]].assignment, reason)
    decreases |keys|
  {
    if keys != [] { AllLostListed(held, keys[1..], reason); }
  }

  /// The end of a registration loses every region, each with one event in region order, and forgets the floors.
  lemma EndLosesAll(s: State, signal: Signal)
    requires HeldOk(s) && (signal.LeaseIsLost? || signal.ReleaseAll?)
    ensures var (t, events) := On(s, signal);
      var reason := if signal.ReleaseAll? then GivenUp else LeaseLost;
      && (forall r: RegionId :: r !in t.held && FloorOf(t.floor, r) == 0)
      && (forall i, j :: 0 <= i < j < |events| ==> events[i].assignment.region < events[j].assignment.region)
      && (forall e :: e in events ==> exists r :: r in s.held && e == Lost(s.held[r].assignment, reason))
      && (forall r :: r in s.held ==> Lost(s.held[r].assignment, reason) in events)
  {
    hide AllLost, InOrder;
    var keys, reason := InOrder(s.held.Keys), if signal.ReleaseAll? then GivenUp else LeaseLost;
    InOrderAscends(s.held.Keys);
    AllLostListed(s.held, keys, reason);
    LossesOf(s.held, keys, AllLost(s.held, keys, reason), reason);
  }

  /// One loss for each held region, in the order of the keys.
  lemma LossesOf(held: Holdings, keys: seq<RegionId>, events: seq<LeaseEvent>, reason: LossReason)
    requires Ascending(keys) && (forall r :: r in keys <==> r in held) && |events| == |keys|
    requires forall r :: r in held ==> held[r].assignment.region == r
    requires forall i :: 0 <= i < |keys| ==> events[i] == Lost(held[keys[i]].assignment, reason)
    ensures forall i, j :: 0 <= i < j < |events| ==> events[i].assignment.region < events[j].assignment.region
    ensures forall e :: e in events ==> exists r :: r in held && e == Lost(held[r].assignment, reason)
    ensures forall r :: r in held ==> Lost(held[r].assignment, reason) in events
  {
    forall r | r in held ensures Lost(held[r].assignment, reason) in events {
      var i :| 0 <= i < |keys| && keys[i] == r;
      assert events[i] == Lost(held[r].assignment, reason);
    }
    forall e | e in events ensures exists r :: r in held && e == Lost(held[r].assignment, reason) {
      var i :| 0 <= i < |events| && events[i] == e;
      assert keys[i] in held;
    }
    forall i, j | 0 <= i < j < |events| ensures events[i].assignment.region < events[j].assignment.region {
      assert keys[i] in held && keys[j] in held && keys[i] < keys[j];
    }
  }

  /// A rejected tree fence only asks for a verification, and an unreachable control plane does nothing.
  lemma OthersOnlyMark(s: State, region: RegionId)
    requires HeldOk(s)
    ensures var (t, events) := On(s, AgFenceRejected(region));
      && events == [] && t.floor == s.floor && t.held.Keys == s.held.Keys
      && forall r :: r in s.held ==> t.held[r] == if r == region then s.held[r].(verify := true) else s.held[r]
    ensures On(s, ControlPlaneUnreachable) == (s, [])
  {
  }

  // -- Replaying the events ------------------------------------------------------------------

  function Generations(held: Holdings): map<RegionId, LeaseGen> {
    map r | r in held :: held[r].assignment.leaseGen
  }

  /// The events lead from `before` to `after`: each loss names a generation that is held then, and
  /// a region is acquired only while it is not held.
  predicate Replays(before: map<RegionId, LeaseGen>, events: seq<LeaseEvent>, after: map<RegionId, LeaseGen>)
    decreases |events|
  {
    if events == [] then before == after
    else
      var a := events[0].assignment;
      match events[0]
      case Lost(_, _) =>
        a.region in before && before[a.region] == a.leaseGen && Replays(before - {a.region}, events[1..], after)
      case Acquired(_) =>
        a.region !in before && Replays(before[a.region := a.leaseGen], events[1..], after)
  }

  lemma {:induction false} ReplaysConcat(a: map<RegionId, LeaseGen>, e: seq<LeaseEvent>, b: map<RegionId, LeaseGen>,
                                         f: seq<LeaseEvent>, c: map<RegionId, LeaseGen>)
    requires Replays(a, e, b) && Replays(b, f, c)
    ensures Replays(a, e + f, c)
    decreases |e|
  {
    if e == [] {
      assert e + f == f;
    } else {
      assert (e + f)[1..] == e[1..] + f && (e + f)[0] == e[0];
      var region := e[0].assignment.region;
      ReplaysConcat(if e[0].Lost? then a - {region} else a[region := e[0].assignment.leaseGen], e[1..], b, f, c);
    }
  }

  lemma FirstLost(before: map<RegionId, LeaseGen>, e: LeaseEvent, rest: seq<LeaseEvent>, after: map<RegionId, LeaseGen>)
    requires e.Lost? && e.assignment.region in before && before[e.assignment.region] == e.assignment.leaseGen
    requires Replays(before - {e.assignment.region}, rest, after)
    ensures Replays(before, [e] + rest, after)
  {
    assert ([e] + rest)[1..] == rest;
  }

  lemma FirstAcquired(before: map<RegionId, LeaseGen>, a: Assignment, rest: seq<LeaseEvent>,
                      after: map<RegionId, LeaseGen>)
    requires a.region !in before && Replays(before[a.region := a.leaseGen], rest, after)
    ensures Replays(before, [Acquired(a)] + rest, after)
  {
    assert ([Acquired(a)] + rest)[1..] == rest;
  }

  lemma DistinctTail(keys: seq<RegionId>)
    requires NoRepeats(keys) && keys != []
    ensures NoRepeats(keys[1..]) && keys[0] !in keys[1..]
    ensures forall r :: r in keys[1..] ==> r in keys
  {
  }

  lemma {:induction false} LossesReplay(held: Holdings, inc: map<RegionId, Assignment>, keys: seq<RegionId>,
                                        before: map<RegionId, LeaseGen>)
    requires NoRepeats(keys)
    requires forall r :: r in keys ==>
               r in held && held[r].assignment.region == r && r in before && before[r] == held[r].assignment.leaseGen
    ensures Replays(before, Losses(held, inc, keys), before - (set r | r in keys && !Keeps(held, inc, r)))
    decreases |keys|
  {
    var lost := set r | r in keys && !Keeps(held, inc, r);
    if keys == [] {
      assert before - lost == before;
    } else {
      DistinctTail(keys);
      var k := keys[0];
      var rest := Losses(held, inc, keys[1..]);
      var later := set r | r in keys[1..] && !Keeps(held, inc, r);
      if Keeps(held, inc, k) {
        assert lost == later;
        assert Losses(held, inc, keys) == rest;
        LossesReplay(held, inc, keys[1..], before);
      } else {
        assert lost == later + {k};
        LossesReplay(held, inc, keys[1..], before - {k});
        assert before - {k} - later == before - lost;
        FirstLost(before, LossOf(held, inc, k), rest, before - lost);
      }
    }
  }

  function Gained(held: Holdings, inc: map<RegionId, Assignment>, keys: seq<RegionId>): map<RegionId, LeaseGen>
    requires forall r :: r in keys ==> r in inc
  {
    map r | r in keys && !Keeps(held, inc, r) :: inc[r].leaseGen
  }

  lemma GainedFirst(held: Holdings, inc: map<RegionId, Assignment>, keys: seq<RegionId>,
                    before: map<RegionId, LeaseGen>)
    requires NoRepeats(keys) && keys != [] && forall r :: r in keys ==> r in inc
    ensures forall r :: r in keys[1..] ==> r in inc
    ensures Keeps(held, inc, keys[0]) ==> Gained(held, inc, keys) == Gained(held, inc, keys[1..])
    ensures !Keeps(held, inc, keys[0]) ==>
              before[keys[0] := inc[keys[0]].leaseGen] + Gained(held, inc, keys[1..])
              == before + Gained(held, inc, keys)
  {
    hide Keeps, NoRepeats;
    DistinctTail(keys);
    assert forall r :: r in keys <==> r == keys[0] || r in keys[1..];
  }

  lemma {:induction false} GainsReplay(held: Holdings, inc: map<RegionId, Assignment>, keys: seq<RegionId>,
                                       before: map<RegionId, LeaseGen>)
    requires NoRepeats(keys)
    requires forall r :: r in keys ==> r in inc && inc[r].region == r
    requires forall r :: r in keys ==> Keeps(held, inc, r) || r !in before
    ensures Replays(before, Gains(held, inc, keys), before + Gained(held, inc, keys))
    decreases |keys|
  {
    if keys == [] {
      assert before + Gained(held, inc, keys) == before;
    } else {
      DistinctTail(keys);
      GainedFirst(held, inc, keys, before);
      var k := keys[0];
      var rest := Gains(held, inc, keys[1..]);
      if Keeps(held, inc, k) {
        assert Gains(held, inc, keys) == rest;
        GainsReplay(held, inc, keys[1..], before);
      } else {
        GainsReplay(held, inc, keys[1..], before[k := inc[k].leaseGen]);
        FirstAcquired(before, inc[k], rest, before + Gained(held, inc, keys));
      }
    }
  }

  lemma {:induction false} AllLostReplay(held: Holdings, keys: seq<RegionId>, reason: LossReason,
                                         before: map<RegionId, LeaseGen>)
    requires NoRepeats(keys)
    requires forall r :: r in keys ==>
               r in held && held[r].assignment.region == r && r in before && before[r] == held[r].assignment.leaseGen
    ensures Replays(before, AllLost(held, keys, reason), before - set r | r in keys)
    decreases |keys|
  {
    if keys == [] {
      assert before - (set r | r in keys) == before;
    } else {
      DistinctTail(keys);
      AllLostReplay(held, keys[1..], reason, before - {keys[0]});
      assert before - {keys[0]} - (set r | r in keys[1..]) == before - (set r | r in keys);
      FirstLost(before, Lost(held[keys[0]].assignment, reason), AllLost(held, keys[1..], reason),
                before - set r | r in keys);
    }
  }

  lemma KeysAreDistinct(ids: set<RegionId>)
    ensures NoRepeats(InOrder(ids))
  {
    InOrderAscends(ids);
  }

  lemma GenerationsThen(held: Holdings, inc: map<RegionId, Assignment>, keys: seq<RegionId>, gained: seq<RegionId>)
    requires forall r :: r in keys <==> r in held
    requires forall r :: r in gained <==> r in inc
    ensures Generations(HeldThen(held, inc))
            == Generations(held) - (set r | r in keys && !Keeps(held, inc, r)) + Gained(held, inc, gained)
  {
  }

  lemma ComparisonReplays(held: Holdings, inc: map<RegionId, Assignment>)
    requires forall r :: r in held ==> held[r].assignment.region == r
    requires forall r :: r in inc ==> inc[r].region == r
    ensures Replays(Generations(held), Losses(held, inc, InOrder(held.Keys)) + Gains(held, inc, InOrder(inc.Keys)),
                    Generations(HeldThen(held, inc)))
  {
    var keys, gained := InOrder(held.Keys), InOrder(inc.Keys);
    KeysAreDistinct(held.Keys);
    KeysAreDistinct(inc.Keys);
    var middle := Generations(held) - (set r | r in keys && !Keeps(held, inc, r));
    LossesReplay(held, inc, keys, Generations(held));
    GainsReplay(held, inc, gained, middle);
    GenerationsThen(held, inc, keys, gained);
    ReplaysConcat(Generations(held), Losses(held, inc, keys), middle, Gains(held, inc, gained),
                  Generations(HeldThen(held, inc)));
  }

  lemma EndReplays(s: State, reason: LossReason)
    requires HeldOk(s)
    ensures Replays(Generations(s.held), EndRegistration(s, reason).1, map[])
  {
    var keys := InOrder(s.held.Keys);
    KeysAreDistinct(s.held.Keys);
    AllLostReplay(s.held, keys, reason, Generations(s.held));
    assert Generations(s.held) - (set r | r in keys) == map[];
  }

  lemma LoseReplays(s: State, region: RegionId, reason: LossReason)
    requires HeldOk(s) && region in s.held && RaisesFloor(reason)
    ensures Replays(Generations(s.held), Lose(s, region, reason).1, Generations(Lose(s, region, reason).0.held))
  {
    var e := Lost(s.held[region].assignment, reason);
    assert Generations(s.held - {region}) == Generations(s.held) - {region};
    FirstLost(Generations(s.held), e, [], Generations(s.held - {region}));
    assert [e] + [] == [e];
  }

  /// Replaying what a signal emitted turns the held generations before it into those after it.
  lemma EventsReplay(s: State, signal: Signal)
    requires HeldOk(s)
    ensures Replays(Generations(s.held), On(s, signal).1, Generations(On(s, signal).0.held))
  {
    match signal
    case Assignments(list) => ComparisonReplays(s.held, Incoming(s, list));
    case LeaseIsLost => EndReplays(s, LeaseLost);
    case ReleaseAll => EndReplays(s, GivenUp);
    case HigherGeneration(region, seen) =>
      if region in s.held && seen > s.held[region].assignment.leaseGen {
        LoseReplays(s, region, HigherGenerationSeen);
      }
    case RegionCheckpointRejected(region) =>
      if region in s.held { LoseReplays(s, region, CheckpointRejected); }
    case AgFenceRejected(region) =>
      assert Generations(OnAgFenceRejected(s, region).held) == Generations(s.held);
    case ControlPlaneUnreachable =>
  }

  // -- Whole runs ----------------------------------------------------------------------------

  type Trace = (State, seq<LeaseEvent>)

  function Then(before: Trace, signal: Signal): Trace
    requires HeldOk(before.0)
  {
    (On(before.0, signal).0, before.1 + On(before.0, signal).1)
  }

  /// The holder and everything it emitted after the listed signals, starting unregistered.
  function Run(signals: seq<Signal>): (r: Trace)
    ensures HeldOk(r.0)
  {
    if signals == [] then (State(map[], map[]), [])
    else
      SignalKeepsHeldOk(Run(signals[..|signals| - 1]).0, signals[|signals| - 1]);
      Then(Run(signals[..|signals| - 1]), signals[|signals| - 1])
  }

  function After(trace: Trace, earlier: seq<LeaseEvent>): Trace {
    (trace.0, earlier + trace.1)
  }

  lemma ThenAfter(trace: Trace, earlier: seq<LeaseEvent>, signal: Signal)
    requires HeldOk(trace.0)
    ensures Then(After(trace, earlier), signal) == After(Then(trace, signal), earlier)
  {
    Reassociate(earlier, trace.1, On(trace.0, signal).1);
  }

  /// Replaying all events of a run gives exactly the held regions at their generations, and no
  /// held generation is below its region's floor.
  lemma {:induction false} RunReplays(signals: seq<Signal>)
    ensures Replays(map[], Run(signals).1, Generations(Run(signals).0.held))
    ensures forall r :: r in Run(signals).0.held ==>
              FloorOf(Run(signals).0.floor, r) <= Run(signals).0.held[r].assignment.leaseGen
  {
    if signals != [] {
      var before := Run(signals[..|signals| - 1]);
      var signal := signals[|signals| - 1];
      RunReplays(signals[..|signals| - 1]);
      EventsReplay(before.0, signal);
      ReplaysConcat(map[], before.1, Generations(before.0.held), On(before.0, signal).1,
                    Generations(On(before.0, signal).0.held));
    }
  }

  predicate EndsRegistration(signal: Signal) {
    signal.LeaseIsLost? || signal.ReleaseAll?
  }

  predicate WithinRegistration(signals: seq<Signal>) {
    forall i :: 0 <= i < |signals| ==> !EndsRegistration(signals[i])
  }

  /// A generation the registration used up: below the floor, or not above the one held.
  predicate Spent(s: State, region: RegionId, gen: LeaseGen) {
    gen < FloorOf(s.floor, region) || (region in s.held && gen <= s.held[region].assignment.leaseGen)
  }

  lemma SpentStaysSpent(s: State, signal: Signal, region: RegionId, gen: LeaseGen)
    requires HeldOk(s) && !EndsRegistration(signal) && Spent(s, region, gen)
    ensures Spent(On(s, signal).0, region, gen)
  {
    if signal.Assignments? {
      var inc := Incoming(s, signal.list);
      FloorThen(s, inc, region);
    }
  }

  /// Events of one kind, each list in the order of the regions.
  predicate ByRegion(events: seq<LeaseEvent>) {
    forall i, j :: 0 <= i < j < |events| ==> events[i].assignment.region < events[j].assignment.region
  }

  lemma {:induction false} GainsByRegion(held: Holdings, inc: map<RegionId, Assignment>, keys: seq<RegionId>)
    requires Ascending(keys)
    requires forall r :: r in keys ==> r in inc && inc[r].region == r
    ensures ByRegion(Gains(held, inc, keys))
    ensures forall e :: e in Gains(held, inc, keys) <==>
              e.Acquired? && e.assignment.region in keys && !Keeps(held, inc, e.assignment.region)
              && e.assignment == inc[e.assignment.region]
    decreases |keys|
  {
    if keys != [] {
      var k, rest := keys[0], Gains(held, inc, keys[1..]);
      GainsByRegion(held, inc, keys[1..]);
      assert forall r :: r in keys <==> r == k || r in keys[1..];
      forall r | r in keys[1..] ensures k < r { }
      if Keeps(held, inc, k) {
        assert Gains(held, inc, keys) == rest;
      } else {
        assert Gains(held, inc, keys) == [Acquired(inc[k])] + rest;
        forall j | 0 <= j < |rest| ensures k < rest[j].assignment.region { assert rest[j] in rest; }
      }
    }
  }

  lemma {:induction false} LossesByRegion(held: Holdings, inc: map<RegionId, Assignment>, keys: seq<RegionId>)
    requires Ascending(keys)
    requires forall r :: r in keys ==> r in held && held[r].assignment.region == r
    ensures ByRegion(Losses(held, inc, keys))
    ensures forall e :: e in Losses(held, inc, keys) <==>
              e.assignment.region in keys && !Keeps(held, inc, e.assignment.region)
              && e == LossOf(held, inc, e.assignment.region)
    decreases |keys|
  {
    if keys != [] {
      var k, rest := keys[0], Losses(held, inc, keys[1..]);
      LossesByRegion(held, inc, keys[1..]);
      assert forall r :: r in keys <==> r == k || r in keys[1..];
      forall r | r in keys[1..] ensures k < r { }
      if Keeps(held, inc, k) {
        assert Losses(held, inc, keys) == rest;
      } else {
        assert Losses(held, inc, keys) == [LossOf(held, inc, k)] + rest;
        forall j | 0 <= j < |rest| ensures k < rest[j].assignment.region { assert rest[j] in rest; }
      }
    }
  }

  /// What an assignment list emits, told from the holdings before and after it: the losses and then
  /// the gains, each by region, with one event for each region whose generation went or came.
  lemma EventsAreOrdered(s: State, list: seq<Assignment>) returns (lost: seq<LeaseEvent>, gained: seq<LeaseEvent>)
    requires HeldOk(s)
    ensures OnAssignments(s, list).1 == lost + gained && ByRegion(lost) && ByRegion(gained)
    ensures var t := OnAssignments(s, list).0;
            forall e :: e in lost <==>
              e.Lost? && Holds(s, e.assignment.region, e.assignment.leaseGen)
              && !Holds(t, e.assignment.region, e.assignment.leaseGen)
              && e.assignment == s.held[e.assignment.region].assignment
              && e.reason == if e.assignment.region in t.held then GenerationChanged else Unassigned
    ensures var t := OnAssignments(s, list).0;
            forall e :: e in gained <==>
              e.Acquired? && Holds(t, e.assignment.region, e.assignment.leaseGen)
              && !Holds(s, e.assignment.region, e.assignment.leaseGen)
              && e.assignment == t.held[e.assignment.region].assignment
  {
    hide Losses, Gains, Incoming, FloorsComparing, InOrder;
    var inc := Incoming(s, list);
    InOrderAscends(s.held.Keys);
    InOrderAscends(inc.Keys);
    lost, gained := Losses(s.held, inc, InOrder(s.held.Keys)), Gains(s.held, inc, InOrder(inc.Keys));
    LossesByRegion(s.held, inc, InOrder(s.held.Keys));
    GainsByRegion(s.held, inc, InOrder(inc.Keys));
  }

  /// For each region, each acquisition is at a higher generation than the ones before it.
  predicate Increasing(log: seq<LeaseEvent>) {
    forall i, j :: (0 <= i < j < |log| && log[i].Acquired? && log[j].Acquired?
                    && log[i].assignment.region == log[j].assignment.region)
      ==> log[i].assignment.leaseGen < log[j].assignment.leaseGen
  }

  predicate AcquiredAreSpent(s: State, log: seq<LeaseEvent>) {
    forall e :: e in log && e.Acquired? ==> Spent(s, e.assignment.region, e.assignment.leaseGen)
  }

  /// A region is only acquired above every generation its registration used up.
  lemma AcquiresFresh(s: State, signal: Signal, e: LeaseEvent, gen: LeaseGen)
    requires HeldOk(s) && e in On(s, signal).1 && e.Acquired?
    requires Spent(s, e.assignment.region, gen)
    ensures gen < e.assignment.leaseGen
  {
    OnlyListsAcquire(s, signal, e);
    var lost, gained := EventsAreOrdered(s, signal.list);
    assert e in gained;
    assert e.assignment.region in Incoming(s, signal.list);
  }

  lemma AcquiresOnce(s: State, signal: Signal)
    requires HeldOk(s)
    ensures Increasing(On(s, signal).1) && AcquiredAreSpent(On(s, signal).0, On(s, signal).1)
  {
    if e :| e in On(s, signal).1 && e.Acquired? {
      OnlyListsAcquire(s, signal, e);
      var lost, gained := EventsAreOrdered(s, signal.list);
      SplitIncreases(lost, gained);
    }
  }

  lemma SplitIncreases(lost: seq<LeaseEvent>, gained: seq<LeaseEvent>)
    requires forall e :: e in lost ==> e.Lost?
    requires ByRegion(gained)
    ensures Increasing(lost + gained)
  {
    forall i | 0 <= i < |lost| ensures (lost + gained)[i].Lost? { assert lost[i] in lost; }
  }

  lemma LogIncreases(log: seq<LeaseEvent>, events: seq<LeaseEvent>)
    requires Increasing(log) && Increasing(events)
    requires forall d, e :: (d in log && e in events && d.Acquired? && e.Acquired?
                             && d.assignment.region == e.assignment.region)
               ==> d.assignment.leaseGen < e.assignment.leaseGen
    ensures Increasing(log + events)
  {
    var all := log + events;
    forall i, j | 0 <= i < j < |all| && all[i].Acquired? && all[j].Acquired?
        && all[i].assignment.region == all[j].assignment.region
      ensures all[i].assignment.leaseGen < all[j].assignment.leaseGen
    {
      if i < |log| <= j {
        assert all[i] in log && all[j] in events;
      }
    }
  }

  lemma {:induction false} OnlyListsAcquire(s: State, signal: Signal, e: LeaseEvent)
    requires HeldOk(s) && e.Acquired? && e in On(s, signal).1
    ensures signal.Assignments?
  {
    if EndsRegistration(signal) {
      AllLostAreLost(s.held, InOrder(s.held.Keys), if signal.ReleaseAll? then GivenUp else LeaseLost);
    }
  }

  lemma {:induction false} AllLostAreLost(held: Holdings, keys: seq<RegionId>, reason: LossReason)
    requires forall r :: r in keys ==> r in held
    ensures forall e :: e in AllLost(held, keys, reason) ==> e.Lost?
    decreases |keys|
  {
    if keys != [] {
      AllLostAreLost(held, keys[1..], reason);
    }
  }

  /// Within one registration, whatever lists and rejections arrive, stale, twice or out of order,
  /// the generations at which a region is acquired strictly increase.
  lemma {:induction false} AcquiredGenerationsIncrease(signals: seq<Signal>)
    requires WithinRegistration(signals)
    ensures Increasing(Run(signals).1) && AcquiredAreSpent(Run(signals).0, Run(signals).1)
    decreases |signals|
  {
    if signals != [] {
      AcquiredGenerationsIncrease(signals[..|signals| - 1]);
      var (s, log) := Run(signals[..|signals| - 1]);
      SignalIncreases(s, log, signals[|signals| - 1]);
    }
  }

  lemma SignalIncreases(s: State, log: seq<LeaseEvent>, signal: Signal)
    requires HeldOk(s) && !EndsRegistration(signal)
    requires Increasing(log) && AcquiredAreSpent(s, log)
    ensures Increasing(log + On(s, signal).1)
    ensures AcquiredAreSpent(On(s, signal).0, log + On(s, signal).1)
  {
    var (t, events) := On(s, signal);
    AcquiresOnce(s, signal);
    forall d, e | d in log && e in events && d.Acquired? && e.Acquired? && d.assignment.region == e.assignment.region
      ensures d.assignment.leaseGen < e.assignment.leaseGen
    {
      AcquiresFresh(s, signal, e, d.assignment.leaseGen);
    }
    LogIncreases(log, events);
    forall d | d in log && d.Acquired?
      ensures Spent(t, d.assignment.region, d.assignment.leaseGen)
    {
      SpentStaysSpent(s, signal, d.assignment.region, d.assignment.leaseGen);
    }
  }

  lemma RunEnds(signals: seq<Signal>)
    requires signals != [] && EndsRegistration(signals[|signals| - 1])
    ensures Run(signals).0 == State(map[], map[])
  {
  }

  /// What happened before a registration ended does not matter to the next one.
  lemma {:induction false} RegistrationsStartAfresh(earlier: seq<Signal>, signals: seq<Signal>)
    requires earlier != [] && EndsRegistration(earlier[|earlier| - 1])
    ensures Run(earlier + signals) == After(Run(signals), Run(earlier).1)
    decreases |signals|
  {
    hide On, Then;
    var all := earlier + signals;
    if signals == [] {
      RunEnds(earlier);
      assert all == earlier;
      assert Run(earlier).1 + [] == Run(earlier).1;
    } else {
      var signal := signals[|signals| - 1];
      var front := signals[..|signals| - 1];
      assert all[..|all| - 1] == earlier + front && all[|all| - 1] == signal;
      RegistrationsStartAfresh(earlier, front);
      ThenAfter(Run(front), Run(earlier).1, signal);
    }
  }

  lemma Reassociate(a: seq<LeaseEvent>, b: seq<LeaseEvent>, c: seq<LeaseEvent>)
    ensures (a + b) + c == a + (b + c)
  {
  }

  // -- The holder ----------------------------------------------------------------------------

  lemma InOrderFirst(ids: set<RegionId>)
    requires ids != {}
    ensures InOrder(ids) == [Least(ids)] + InOrder(ids - {Least(ids)})
  {
  }

  lemma HeldStep(s: State, inc: map<RegionId, Assignment>, todo: set<RegionId>, r: RegionId)
    requires r in s.held && r in todo
    ensures var held := HeldComparing(s, inc, todo);
            r in held && held[r] == s.held[r]
            && HeldComparing(s, inc, todo - {r})
               == if Keeps(s.held, inc, r) then held[r := Confirmed(s.held[r], inc[r])] else held - {r}
  {
  }

  lemma FloorsStep(s: State, inc: map<RegionId, Assignment>, todo: set<RegionId>, r: RegionId)
    requires r in s.held && r in todo
    ensures FloorsComparing(s, inc, todo - {r})
            == if Keeps(s.held, inc, r) then FloorsComparing(s, inc, todo)
               else Raised(FloorsComparing(s, inc, todo), r, s.held[r].assignment.leaseGen + 1)
  {
    var f := FloorsComparing(s, inc, todo);
    assert FloorOf(f, r) == FloorOf(s.floor, r);
  }

  lemma NothingCompared(s: State, inc: map<RegionId, Assignment>)
    ensures HeldComparing(s, inc, s.held.Keys) == s.held && FloorsComparing(s, inc, s.held.Keys) == s.floor
  {
  }

  lemma LossesFirst(held: Holdings, inc: map<RegionId, Assignment>, k: RegionId, rest: seq<RegionId>)
    requires k in held && forall r :: r in rest ==> r in held
    ensures forall r :: r in [k] + rest ==> r in held
    ensures Losses(held, inc, [k] + rest)
            == (if Keeps(held, inc, k) then [] else [LossOf(held, inc, k)]) + Losses(held, inc, rest)
  {
    assert ([k] + rest)[1..] == rest;
  }

  lemma GainsFirst(held: Holdings, inc: map<RegionId, Assignment>, k: RegionId, rest: seq<RegionId>)
    requires k in inc && forall r :: r in rest ==> r in inc
    ensures forall r :: r in [k] + rest ==> r in inc
    ensures Gains(held, inc, [k] + rest)
            == (if Keeps(held, inc, k) then [] else [Acquired(inc[k])]) + Gains(held, inc, rest)
  {
    assert ([k] + rest)[1..] == rest;
  }

  lemma LossesStep(held: Holdings, inc: map<RegionId, Assignment>, todo: set<RegionId>, lost: seq<LeaseEvent>)
    requires todo != {} && todo <= held.Keys
    ensures var r := Least(todo);
            lost + Losses(held, inc, InOrder(todo))
            == (lost + if Keeps(held, inc, r) then [] else [LossOf(held, inc, r)])
               + Losses(held, inc, InOrder(todo - {r}))
  {
    hide Least, Keeps, LossOf, InOrder, Losses;
    InOrderFirst(todo);
    LossesFirst(held, inc, Least(todo), InOrder(todo - {Least(todo)}));
    Reassociate(lost, if Keeps(held, inc, Least(todo)) then [] else [LossOf(held, inc, Least(todo))],
                Losses(held, inc, InOrder(todo - {Least(todo)})));
  }

  lemma GainsStep(held: Holdings, inc: map<RegionId, Assignment>, todo: set<RegionId>, acquired: seq<LeaseEvent>)
    requires todo != {} && todo <= inc.Keys
    ensures var r := Least(todo);
            acquired + Gains(held, inc, InOrder(todo))
            == (acquired + if Keeps(held, inc, r) then [] else [Acquired(inc[r])])
               + Gains(held, inc, InOrder(todo - {r}))
  {
    hide Least, Keeps, InOrder, Gains;
    InOrderFirst(todo);
    GainsFirst(held, inc, Least(todo), InOrder(todo - {Least(todo)}));
    Reassociate(acquired, if Keeps(held, inc, Least(todo)) then [] else [Acquired(inc[Least(todo)])],
                Gains(held, inc, InOrder(todo - {Least(todo)})));
  }

  /// The holdings while the incoming regions in `todo` are still to be taken.
  function HeldTaking(held: Holdings, inc: map<RegionId, Assignment>, todo: set<RegionId>): Holdings {
    map r | r in inc && (r in todo ==> Keeps(held, inc, r)) :: HeldThen(held, inc)[r]
  }

  lemma TakingStarts(s: State, inc: map<RegionId, Assignment>)
    ensures HeldTaking(s.held, inc, inc.Keys) == HeldComparing(s, inc, {})
  {
  }

  lemma TakingStep(held: Holdings, inc: map<RegionId, Assignment>, todo: set<RegionId>, r: RegionId)
    requires r in todo && r in inc
    ensures r in HeldTaking(held, inc, todo) <==> Keeps(held, inc, r)
    ensures HeldTaking(held, inc, todo - {r})
            == if Keeps(held, inc, r) then HeldTaking(held, inc, todo)
               else HeldTaking(held, inc, todo)[r := Held(inc[r], false)]
  {
  }

  lemma TakingEnds(held: Holdings, inc: map<RegionId, Assignment>, acquired: seq<LeaseEvent>)
    ensures HeldTaking(held, inc, {}) == HeldThen(held, inc)
    ensures acquired + Gains(held, inc, InOrder({})) == acquired
  {
  }

  lemma NothingLeft(held: Holdings, reason: LossReason, lost: seq<LeaseEvent>)
    ensures lost + AllLost(held, InOrder({}), reason) == lost
  {
  }

  lemma AllLostStep(held: Holdings, todo: set<RegionId>, reason: LossReason, lost: seq<LeaseEvent>)
    requires todo != {} && todo <= held.Keys
    ensures var r := Least(todo);
            lost + AllLost(held, InOrder(todo), reason)
            == (lost + [Lost(held[r].assignment, reason)]) + AllLost(held, InOrder(todo - {r}), reason)
  {
    InOrderFirst(todo);
    assert InOrder(todo)[1..] == InOrder(todo - {Least(todo)});
  }

  class LeaseHolder {
    var m_held: Holdings
    var m_floor: Floors

    constructor ()
      ensures Abstract() == State(map[], map[])
    {
      m_held, m_floor := map[], map[];
    }

    ghost function Abstract(): State
      reads this
    {
      State(m_held, m_floor)
    }

    method RaiseFloor(region: RegionId, gen: LeaseGen)
      modifies this`m_floor
      ensures m_floor == Raised(old(m_floor), region, gen)
    {
      if region !in m_floor {
        m_floor := m_floor[region := 0];
      }
      if gen > m_floor[region] {
        m_floor := m_floor[region := gen];
      }
    }

    method GenerationFloor(region: RegionId) returns (gen: LeaseGen)
      ensures gen == FloorOf(m_floor, region)
    {
      if region in m_floor {
        gen := m_floor[region];
      } else {
        gen := 0;
      }
    }

    /// Drops a held region; inside a registration its floor rises above the lost generation.
    method LoseRegion(region: RegionId, reason: LossReason) returns (e: LeaseEvent)
      requires region in m_held && m_held[region].assignment.region == region
      modifies this
      ensures e == Lost(old(m_held[region].assignment), reason)
      ensures m_held == old(m_held) - {region}
      ensures m_floor == if RaisesFloor(reason) then Raised(old(m_floor), region, e.assignment.leaseGen + 1)
                         else old(m_floor)
    {
      e := Lost(m_held[region].assignment, reason);
      m_held := m_held - {region};
      if reason != LeaseLost && reason != GivenUp {
        RaiseFloor(e.assignment.region, e.assignment.leaseGen + 1);
      }
    }

    /// The assignment that counts for each listed region.
    method Accept(list: seq<Assignment>) returns (incoming: map<RegionId, Assignment>)
      requires HeldOk(Abstract())
      ensures incoming == Incoming(Abstract(), list)
    {
      incoming := map[];
      for i := 0 to |list|
        invariant incoming == Incoming(Abstract(), list[..i])
      {
        var a := list[i];
        assert list[..i + 1][..i] == list[..i];
        var floor := GenerationFloor(a.region);
        if a.region != 0 && a.leaseGen >= floor {
          if a.region in m_held && a.leaseGen < m_held[a.region].assignment.leaseGen {
            incoming := incoming[a.region := m_held[a.region].assignment];
          } else {
            incoming := incoming[a.region := a];
          }
        }
      }
      assert list[..|list|] == list;
    }

    /// Compares one held region with its incoming assignment.
    method Compare(region: RegionId, incoming: map<RegionId, Assignment>, ghost start: State, ghost todo: set<RegionId>)
        returns (lost: seq<LeaseEvent>)
      requires region in start.held && region in todo && start.held[region].assignment.region == region
      requires m_held == HeldComparing(start, incoming, todo) && m_floor == FloorsComparing(start, incoming, todo)
      modifies this
      ensures lost == if Keeps(start.held, incoming, region) then [] else [LossOf(start.held, incoming, region)]
      ensures m_held == HeldComparing(start, incoming, todo - {region})
      ensures m_floor == FloorsComparing(start, incoming, todo - {region})
    {
      HeldStep(start, incoming, todo, region);
      FloorsStep(start, incoming, todo, region);
      lost := [];
      if region !in incoming {
        var e := LoseRegion(region, Unassigned);
        lost := [e];
      } else if incoming[region].leaseGen != m_held[region].assignment.leaseGen {
        var e := LoseRegion(region, GenerationChanged);
        lost := [e];
      } else {
        var h := m_held[region].(verify := false);
        if incoming[region].name != h.assignment.name {
          h := h.(assignment := h.assignment.(name := incoming[region].name));
        }
        m_held := m_held[region := h];
      }
    }

    /// Losses first: held regions no longer listed, or listed at another generation.
    method DropSuperseded(incoming: map<RegionId, Assignment>) returns (lost: seq<LeaseEvent>)
      requires forall r :: r in m_held ==> m_held[r].assignment.region == r
      modifies this
      ensures lost == Losses(old(m_held), incoming, InOrder(old(m_held).Keys))
      ensures m_held == HeldComparing(old(Abstract()), incoming, {})
      ensures m_floor == FloorsComparing(old(Abstract()), incoming, {})
    {
      hide InOrder, Least, HeldComparing, FloorsComparing;
      lost := [];
      var todo := m_held.Keys;
      ghost var start := Abstract();
      ghost var all := Losses(m_held, incoming, InOrder(todo));
      NothingCompared(start, incoming);
      while todo != {}
        invariant todo <= start.held.Keys
        invariant m_held == HeldComparing(start, incoming, todo)
        invariant m_floor == FloorsComparing(start, incoming, todo)
        invariant lost + Losses(start.held, incoming, InOrder(todo)) == all
        decreases |todo|
      {
        var region := Least(todo);
        LossesStep(start.held, incoming, todo, lost);
        var one := Compare(region, incoming, start, todo);
        todo := todo - {region};
        lost := lost + one;
      }
    }

    /// Then the gains: incoming regions that are not held.
    method TakeNew(incoming: map<RegionId, Assignment>, ghost before: Holdings) returns (acquired: seq<LeaseEvent>)
      requires m_held == HeldTaking(before, incoming, incoming.Keys)
      modifies this`m_held
      ensures acquired == Gains(before, incoming, InOrder(incoming.Keys))
      ensures m_held == HeldThen(before, incoming)
    {
      hide Gains, HeldTaking, HeldThen, InOrder, Least;
      acquired := [];
      var todo := incoming.Keys;
      ghost var all := Gains(before, incoming, InOrder(todo));
      while todo != {}
        invariant todo <= incoming.Keys
        invariant m_held == HeldTaking(before, incoming, todo)
        invariant acquired + Gains(before, incoming, InOrder(todo)) == all
        decreases |todo|
      {
        var region := Least(todo);
        GainsStep(before, incoming, todo, acquired);
        TakingStep(before, incoming, todo, region);
        ghost var one := if Keeps(before, incoming, region) then [] else [Acquired(incoming[region])];
        todo := todo - {region};
        if region !in m_held {
          m_held := m_held[region := Held(incoming[region], false)];
          acquired := acquired + [Acquired(incoming[region])];
        } else {
          assert acquired + one == acquired;
        }
      }
      TakingEnds(before, incoming, acquired);
    }

    method OnAssignmentList(list: seq<Assignment>) returns (events: seq<LeaseEvent>)
      requires HeldOk(Abstract())
      modifies this
      ensures HeldOk(Abstract())
      ensures (Abstract(), events) == OnAssignments(old(Abstract()), list)
    {
      SignalKeepsHeldOk(Abstract(), Assignments(list));
      ghost var before := Abstract();
      var incoming := Accept(list);
      var lost := DropSuperseded(incoming);
      TakingStarts(before, incoming);
      var acquired := TakeNew(incoming, before.held);
      events := lost + acquired;
    }

    /// Loses every region in order and forgets the floors.
    method LoseAll(reason: LossReason) returns (events: seq<LeaseEvent>)
      requires HeldOk(Abstract()) && !RaisesFloor(reason)
      modifies this
      ensures Abstract() == EndRegistration(old(Abstract()), reason).0
      ensures events == EndRegistration(old(Abstract()), reason).1
    {
      hide InOrder, Least, AllLost, Raised;
      events := [];
      ghost var before := m_held;
      ghost var all := AllLost(m_held, InOrder(m_held.Keys), reason);
      while m_held != map[]
        invariant m_held.Keys <= before.Keys
        invariant forall r :: r in m_held ==> m_held[r] == before[r]
        invariant events + AllLost(before, InOrder(m_held.Keys), reason) == all
        invariant m_floor == old(m_floor)
        decreases |m_held|
      {
        var region := Least(m_held.Keys);
        AllLostStep(before, m_held.Keys, reason, events);
        assert (m_held - {region}).Keys == m_held.Keys - {region};
        var e := LoseRegion(region, reason);
        events := events + [e];
      }
      NothingLeft(before, reason, events);
      m_floor := map[];
    }

    method OnLeaseLost() returns (events: seq<LeaseEvent>)
      requires HeldOk(Abstract())
      modifies this
      ensures HeldOk(Abstract())
      ensures (Abstract(), events) == On(old(Abstract()), LeaseIsLost)
    {
      events := LoseAll(LeaseLost);
    }

    method GiveUpAll() returns (events: seq<LeaseEvent>)
      requires HeldOk(Abstract())
      modifies this
      ensures HeldOk(Abstract())
      ensures (Abstract(), events) == On(old(Abstract()), ReleaseAll)
    {
      events := LoseAll(GivenUp);
    }

    method OnHigherGenerationSeen(region: RegionId, seen: LeaseGen) returns (events: seq<LeaseEvent>)
      requires HeldOk(Abstract())
      modifies this
      ensures HeldOk(Abstract())
      ensures (Abstract(), events) == On(old(Abstract()), HigherGeneration(region, seen))
    {
      SignalKeepsHeldOk(Abstract(), HigherGeneration(region, seen));
      events := [];
      if region in m_held && seen > m_held[region].assignment.leaseGen {
        var e := LoseRegion(region, HigherGenerationSeen);
        events := [e];
      }
      if region != 0 {
        RaiseFloor(region, seen);
      }
    }

    method OnRegionCheckpointRejected(region: RegionId) returns (events: seq<LeaseEvent>)
      requires HeldOk(Abstract())
      modifies this
      ensures HeldOk(Abstract())
      ensures (Abstract(), events) == On(old(Abstract()), RegionCheckpointRejected(region))
    {
      events := [];
      if region in m_held {
        var e := LoseRegion(region, CheckpointRejected);
        events := [e];
      }
    }

    method OnAgFenceRejection(region: RegionId)
      requires HeldOk(Abstract())
      modifies this
      ensures HeldOk(Abstract())
      ensures (Abstract(), []) == On(old(Abstract()), AgFenceRejected(region))
    {
      if region in m_held {
        m_held := m_held[region := m_held[region].(verify := true)];
      }
    }
  }
}
