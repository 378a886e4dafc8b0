/// The integer step accounting of the dilatable clock (engine/core/src/time.cpp). Its counters are
/// unbounded here.
module DilatableClocks {
  import opened Naturals

  const SCALE_ONE: nat := 1_000_000
  const MAX_ADVANCE: nat := 3600 * 1_000_000_000

  datatype Clock = Clock(stepNanos: nat, minScale: nat, maxPending: nat, scale: nat,
                         accumulator: nat, remainder: nat, steps: nat, dropped: nat)

  predicate ClockOk(c: Clock) {
    1 <= c.stepNanos && 1 <= c.maxPending && 1 <= c.minScale <= c.scale <= SCALE_ONE && c.remainder < SCALE_ONE
  }

  function Clamp(x: nat, lo: nat, hi: nat): nat {
    if x < lo then lo else if hi < x then hi else x
  }

  function WithScale(c: Clock, ppm: nat): Clock {
    c.(scale := Clamp(ppm, c.minScale, SCALE_ONE))
  }

  /// A backlog beyond the allowed steps is cut down to them, whole steps at a time.
  function Capped(c: Clock): Clock
    requires ClockOk(c)
  {
    var cap := c.maxPending * c.stepNanos;
    if c.accumulator >= cap + c.stepNanos then
      var kept := cap + c.accumulator % c.stepNanos;
      c.(dropped := c.dropped + (c.accumulator - kept), accumulator := kept)
    else c
  }

  function Counted(wall: nat): nat {
    if wall < MAX_ADVANCE then wall else MAX_ADVANCE
  }

  function Accrued(c: Clock, wall: nat): Clock {
    var fraction := wall % SCALE_ONE * c.scale + c.remainder;
    c.(accumulator := c.accumulator + wall / SCALE_ONE * c.scale + fraction / SCALE_ONE,
       remainder := fraction % SCALE_ONE)
  }

  function Advanced(c: Clock, wall: nat): Clock
    requires ClockOk(c)
  {
    Capped(Accrued(c, Counted(wall)))
  }

  function CleanClock(c: Clock): Clock {
    c.(accumulator := 0, remainder := 0, steps := 0, dropped := 0)
  }

  /// All scaled time the clock accounts for, in millionths of a nanosecond: taken as steps, dropped
  /// as backlog, or still accumulated.
  function Weight(c: Clock): nat {
    (c.accumulator + c.dropped + c.steps * c.stepNanos) * SCALE_ONE + c.remainder
  }

  lemma AccruedWeighs(c: Clock, wall: nat)
    requires ClockOk(c)
    ensures ClockOk(Accrued(c, wall))
    ensures Accrued(c, wall).accumulator * SCALE_ONE + Accrued(c, wall).remainder
            == c.accumulator * SCALE_ONE + c.remainder + wall * c.scale
  {
    var q, r := wall / SCALE_ONE, wall % SCALE_ONE;
    assert wall * c.scale == q * c.scale * SCALE_ONE + r * c.scale by {
      assert wall == q * SCALE_ONE + r;
    }
  }

  /// No scaled time is lost or made up: advancing adds the counted wall time at the current scale,
  /// and what the cap removes is recorded as dropped.
  lemma AdvanceConserves(c: Clock, wall: nat)
    requires ClockOk(c)
    ensures ClockOk(Advanced(c, wall))
    ensures Weight(Advanced(c, wall)) == Weight(c) + Counted(wall) * c.scale
    ensures Advanced(c, wall).accumulator < (c.maxPending + 1) * c.stepNanos
  {
    AccruedWeighs(c, Counted(wall));
    var a := Accrued(c, Counted(wall));
    CapKeepsPhase(a);
  }

  /// The cap drops whole steps and keeps the position within the step.
  lemma CapKeepsPhase(c: Clock)
    requires ClockOk(c)
    ensures Capped(c).accumulator % c.stepNanos == c.accumulator % c.stepNanos
    ensures Capped(c).accumulator + Capped(c).dropped == c.accumulator + c.dropped
    ensures Capped(c).accumulator < (c.maxPending + 1) * c.stepNanos
    ensures (Capped(c).dropped - c.dropped) % c.stepNanos == 0
  {
    var phase := c.accumulator % c.stepNanos;
    var k := c.accumulator / c.stepNanos;
    assert c.accumulator == k * c.stepNanos + phase;
    if c.accumulator >= c.maxPending * c.stepNanos + c.stepNanos {
      DivisionIsUnique(c.maxPending * c.stepNanos + phase, c.stepNanos, c.maxPending, phase);
      assert c.accumulator - (c.maxPending * c.stepNanos + phase) == (k - c.maxPending) * c.stepNanos;
      Ordered(k, c.maxPending, c.stepNanos, phase);
      DivisionIsUnique((k - c.maxPending) * c.stepNanos, c.stepNanos, k - c.maxPending, 0);
    } else {
      DivisionIsUnique(0, c.stepNanos, 0, 0);
    }
  }

  lemma Ordered(k: nat, m: nat, step: nat, phase: nat)
    requires phase < step && k * step + phase >= m * step + step
    ensures k > m
  {
    if k <= m { ProductGrows(k, m, step); }
  }

  lemma AccruedSplits(c: Clock, first: nat, second: nat)
    requires ClockOk(c)
    ensures Accrued(Accrued(c, first), second) == Accrued(c, first + second)
  {
    AccruedWeighs(c, first + second);
    AccruedWeighs(c, first);
    AccruedWeighs(Accrued(c, first), second);
    assert (first + second) * c.scale == first * c.scale + second * c.scale;
  }

  /// As long as nothing is dropped, how wall time is cut into calls does not matter: the remainder
  /// carries what a call could not turn into whole nanoseconds.
  lemma AdvanceSplits(c: Clock, first: nat, second: nat)
    requires ClockOk(c) && first + second <= MAX_ADVANCE
    requires Advanced(c, first + second).dropped == c.dropped
    ensures Advanced(Advanced(c, first), second) == Advanced(c, first + second)
  {
    var a := Accrued(c, first);
    AccruedSplits(c, first, second);
    AccruedWeighs(c, first);
    AccruedWeighs(c, first + second);
    NothingDropped(Accrued(c, first + second));
    AccruedGrows(a, second);
    BelowCap(a);
  }

  lemma AccruedGrows(c: Clock, wall: nat)
    ensures c.accumulator <= Accrued(c, wall).accumulator
  {
  }

  lemma BelowCap(c: Clock)
    requires ClockOk(c) && c.accumulator < c.maxPending * c.stepNanos + c.stepNanos
    ensures Capped(c) == c
  {
  }

  lemma NothingDropped(c: Clock)
    requires ClockOk(c) && Capped(c).dropped == c.dropped
    ensures c.accumulator < c.maxPending * c.stepNanos + c.stepNanos
  {
    CapKeepsPhase(c);
  }

  class DilatableClock {
    const m_stepNanos: nat
    const m_minScalePpm: nat
    const m_maxPendingSteps: nat
    var m_scalePpm: nat
    var m_accumulator: nat
    var m_remainder: nat
    var m_steps: nat
    var m_dropped: nat

    ghost function Abstract(): Clock
      reads this
    {
      Clock(m_stepNanos, m_minScalePpm, m_maxPendingSteps, m_scalePpm, m_accumulator, m_remainder, m_steps, m_dropped)
    }

    constructor (stepNanos: nat, minScalePpm: nat, maxPendingSteps: nat)
      ensures ClockOk(Abstract())
      ensures Abstract() == Clock(if stepNanos == 0 then 1 else stepNanos, Clamp(minScalePpm, 1, SCALE_ONE),
                                  if maxPendingSteps == 0 then 1 else maxPendingSteps, SCALE_ONE, 0, 0, 0, 0)
    {
      m_stepNanos := if stepNanos == 0 then 1 else stepNanos;
      m_minScalePpm := Clamp(minScalePpm, 1, SCALE_ONE);
      m_maxPendingSteps := if maxPendingSteps == 0 then 1 else maxPendingSteps;
      m_scalePpm := SCALE_ONE;
      m_accumulator, m_remainder, m_steps, m_dropped := 0, 0, 0, 0;
    }

    method SetScalePpm(ppm: nat)
      requires ClockOk(Abstract())
      modifies this
      ensures Abstract() == WithScale(old(Abstract()), ppm) && ClockOk(Abstract())
    {
      m_scalePpm := Clamp(ppm, m_minScalePpm, SCALE_ONE);
    }

    method Advance(wallNanos: nat)
      requires ClockOk(Abstract())
      modifies this
      ensures Abstract() == Advanced(old(Abstract()), wallNanos) && ClockOk(Abstract())
      ensures Weight(Abstract()) == old(Weight(Abstract())) + Counted(wallNanos) * m_scalePpm
    {
      AdvanceConserves(Abstract(), wallNanos);
      var wall := if wallNanos < MAX_ADVANCE then wallNanos else MAX_ADVANCE;
      var q, r := wall / SCALE_ONE, wall % SCALE_ONE;
      var fraction := r * m_scalePpm + m_remainder;
      var scaled := q * m_scalePpm + fraction / SCALE_ONE;
      m_remainder := fraction % SCALE_ONE;
      m_accumulator := m_accumulator + scaled;
      var cap := m_maxPendingSteps * m_stepNanos;
      if m_accumulator >= cap + m_stepNanos {
        var kept := cap + m_accumulator % m_stepNanos;
        m_dropped := m_dropped + (m_accumulator - kept);
        m_accumulator := kept;
      }
    }

    method ConsumeStep() returns (taken: bool)
      requires ClockOk(Abstract())
      modifies this
      ensures taken == (old(m_accumulator) >= m_stepNanos)
      ensures Abstract() == if taken then OneStep(old(Abstract())) else old(Abstract())
      ensures ClockOk(Abstract()) && Weight(Abstract()) == old(Weight(Abstract()))
      ensures m_steps == old(m_steps) + (if taken then 1 else 0) && m_dropped == old(m_dropped)
    {
      taken := m_accumulator >= m_stepNanos;
      if taken {
        m_accumulator := m_accumulator - m_stepNanos;
        m_steps := m_steps + 1;
      }
    }

    method Reset()
      requires ClockOk(Abstract())
      modifies this
      ensures Abstract() == CleanClock(old(Abstract())) && ClockOk(Abstract())
    {
      m_accumulator, m_remainder, m_steps, m_dropped := 0, 0, 0, 0;
    }
  }

  function OneStep(c: Clock): Clock
    requires c.accumulator >= c.stepNanos
  {
    c.(accumulator := c.accumulator - c.stepNanos, steps := c.steps + 1)
  }

  predicate StepDue(c: Clock) {
    c.accumulator >= c.stepNanos
  }
}

/// The zone clock: ticks, scheduled dilation changes, holds and rejoins
/// (engine/authority/src/zone_clock.cpp). The controller's demand is an input.
module ZoneClocks {
  import opened DilatableClocks
  import opened Naturals
  import opened Options

  type Tick = nat

  datatype Change = Change(effectiveTick: Tick, ppm: nat)

  datatype Config = Config(selfLed: bool, leadTicks: nat)

  datatype Zone = Zone(config: Config, clock: Clock, tick: Tick, lastWall: int, started: bool, held: bool,
                       holdDeadline: int, rejoinDue: bool, demand: nat, pending: Option<Change>, announced: seq<Change>)

  datatype ZoneSchedule = ZoneSchedule(anchorTick: Tick, tickDtNs: nat, ppm: nat)

  predicate InRange(c: Clock, ppm: nat) {
    c.minScale <= ppm <= SCALE_ONE
  }

  /// Only values the clock can run at are ever scheduled.
  predicate ZoneOk(z: Zone) {
    ClockOk(z.clock) && (z.pending.Some? ==> InRange(z.clock, z.pending.value.ppm))
  }

  function LargerTime(a: int, b: int): int {
    if a < b then b else a
  }

  function Started(z: Zone, wallNow: int, lastTick: Tick): Zone {
    z.(clock := CleanClock(z.clock), tick := lastTick, lastWall := wallNow, started := true, held := false,
       rejoinDue := false)
  }

  function Fed(z: Zone, wallNow: int): Zone
    requires ZoneOk(z)
  {
    if !z.started then Started(z, wallNow, 0)
    else if wallNow <= z.lastWall then z
    else if z.held && wallNow < z.holdDeadline then z.(lastWall := wallNow)
    else
      // A hold ends by itself at its deadline: only the time after it accrues.
      var since := if z.held then LargerTime(z.lastWall, z.holdDeadline) else z.lastWall;
      var y := z.(held := false, lastWall := since);
      if wallNow <= since then y
      else y.(clock := Advanced(z.clock, wallNow - since), lastWall := wallNow)
  }

  predicate TickDue(z: Zone) {
    z.started && !z.held && (z.rejoinDue || StepDue(z.clock))
  }

  /// Begins the due tick: it takes a step, unless a rejoin made it due, and applies a change whose
  /// tick has come.
  function Begun(z: Zone): Zone
    requires TickDue(z)
  {
    var t := z.tick + 1;
    var c := if z.rejoinDue then z.clock else OneStep(z.clock);
    if z.pending.Some? && t >= z.pending.value.effectiveTick
    then z.(rejoinDue := false, tick := t, clock := WithScale(c, z.pending.value.ppm), pending := None)
    else z.(rejoinDue := false, tick := t, clock := c)
  }

  function Target(z: Zone): nat {
    if z.pending.Some? then z.pending.value.ppm else z.clock.scale
  }

  /// Schedules a change. One already announced for a future tick keeps that tick, and is given up
  /// when the demand returns to the running value.
  function Scheduled(z: Zone, anchor: Tick, ppm: nat): Zone {
    var change := if z.pending.Some? && z.pending.value.effectiveTick > z.tick
                  then Change(z.pending.value.effectiveTick, ppm)
                  else Change(Max(anchor, z.tick + 1), ppm);
    z.(announced := z.announced + [change], pending := if ppm == z.clock.scale then None else Some(change))
  }

  function Measured(z: Zone, demand: nat): Zone {
    var y := z.(demand := demand);
    if z.config.selfLed && demand != Target(z) then Scheduled(y, z.tick + z.config.leadTicks, demand) else y
  }

  predicate Accepts(z: Zone, s: ZoneSchedule) {
    s.tickDtNs == 0 || s.tickDtNs == z.clock.stepNanos
  }

  function Installed(z: Zone, s: ZoneSchedule): Zone {
    if !Accepts(z, s) then z
    else
      var ppm := Clamp(s.ppm, z.clock.minScale, SCALE_ONE);
      if s.anchorTick <= z.tick
      then z.(clock := WithScale(z.clock, ppm), pending := None, announced := z.announced + [Change(z.tick + 1, ppm)])
      else z.(pending := Some(Change(s.anchorTick, ppm)), announced := z.announced + [Change(s.anchorTick, ppm)])
  }

  function WithHold(z: Zone, deadline: int): Zone {
    if deadline <= z.lastWall then z else z.(held := true, holdDeadline := deadline)
  }

  function Rejoined(z: Zone, current: Tick, wallNow: int): Zone {
    z.(clock := CleanClock(z.clock), tick := if current > 0 then current - 1 else 0, lastWall := wallNow,
       started := true, held := false, rejoinDue := true, pending := None)
  }

  // -- Runs between two (re)starts -----------------------------------------------------------

  datatype Op =
    | Feed(wallNow: int)
    | Begin
    | Measure(demand: nat)
    | Install(schedule: ZoneSchedule)
    | Hold(deadline: int)
    | Release
    | Drain

  /// The controller only asks for values the clock can run at.
  predicate OpOk(z: Zone, op: Op) {
    op.Measure? ==> InRange(z.clock, op.demand)
  }

  function Do(z: Zone, op: Op): (r: Zone)
    requires ZoneOk(z)
  {
    match op
    case Feed(wallNow) => Fed(z, wallNow)
    case Begin => if TickDue(z) then Begun(z) else z
    case Measure(demand) => Measured(z, demand)
    case Install(schedule) => Installed(z, schedule)
    case Hold(deadline) => WithHold(z, deadline)
    case Release => z.(held := false)
    case Drain => z.(announced := [])
  }

  /// The changes the zone announces in a step.
  function Announces(z: Zone, op: Op): seq<Change>
    requires ZoneOk(z)
  {
    if op.Drain? then [] else Do(z, op).announced[|z.announced|..]
  }

  lemma DoKeepsOk(z: Zone, op: Op)
    requires ZoneOk(z) && OpOk(z, op)
    ensures ZoneOk(Do(z, op))
    ensures Do(z, op).clock.minScale == z.clock.minScale
  {
    if op.Feed? && z.started {
      var since := if z.held then LargerTime(z.lastWall, z.holdDeadline) else z.lastWall;
      if op.wallNow > since { AdvanceConserves(z.clock, op.wallNow - since); }
    }
  }

  // -- A listener ----------------------------------------------------------------------------

  /// A consumer of the announcements: it keeps only the latest change and applies it at its tick.
  datatype Listener = Listener(scale: nat, pending: Option<Change>)

  function HeardAll(l: Listener, changes: seq<Change>): Listener {
    if changes == [] then l else l.(pending := Some(changes[|changes| - 1]))
  }

  function ListenerBegins(l: Listener, tick: Tick): Listener {
    if l.pending.Some? && tick >= l.pending.value.effectiveTick then Listener(l.pending.value.ppm, None) else l
  }

  /// The zone with its listener; `tickScale` is the value the current tick began with and `latest`
  /// the last change announced.
  datatype View = View(zone: Zone, listener: Listener, tickScale: nat, latest: Option<Change>)

  predicate Begins(z: Zone, op: Op) {
    op.Begin? && TickDue(z)
  }

  function Look(v: View, op: Op): View
    requires ZoneOk(v.zone)
  {
    var z := Do(v.zone, op);
    if Begins(v.zone, op) then View(z, ListenerBegins(v.listener, z.tick), z.clock.scale, v.latest)
    else
      var heard := Announces(v.zone, op);
      View(z, HeardAll(v.listener, heard), v.tickScale, if heard == [] then v.latest else Some(heard[|heard| - 1]))
  }

  predicate OpsOk(z: Zone, ops: seq<Op>) {
    forall i :: 0 <= i < |ops| ==> OpOk(z, ops[i])
  }

  function Run(v: View, ops: seq<Op>): (w: View)
    requires ZoneOk(v.zone) && OpsOk(v.zone, ops)
    ensures ZoneOk(w.zone) && w.zone.clock.minScale == v.zone.clock.minScale
  {
    if ops == [] then v
    else
      var before := Run(v, ops[..|ops| - 1]);
      DoKeepsOk(before.zone, ops[|ops| - 1]);
      Look(before, ops[|ops| - 1])
  }

  /// A listener that just joined: it was told the running value and the change to come.
  predicate Joined(v: View) {
    && ZoneOk(v.zone) && v.zone.started
    && v.listener == Listener(v.zone.clock.scale, v.zone.pending)
    && v.tickScale == v.zone.clock.scale && v.latest == v.zone.pending
  }

  /// Zone and listener run every tick of the run at the same dilation.
  predicate AgreeThroughout(v: View, ops: seq<Op>)
    requires ZoneOk(v.zone) && OpsOk(v.zone, ops)
  {
    ops == [] || (
      AgreeThroughout(v, ops[..|ops| - 1])
      && var before := Run(v, ops[..|ops| - 1]);
         Begins(before.zone, ops[|ops| - 1]) ==>
           Run(v, ops).listener.scale == Run(v, ops).zone.clock.scale)
  }

  /// Nothing the zone did since the current tick began changed its running value, or the change
  /// announced last is for the next tick at the latest.
  predicate Timely(v: View) {
    v.zone.clock.scale == v.tickScale || (v.latest.Some? && v.latest.value.effectiveTick <= v.zone.tick + 1)
  }

  predicate TimelyThroughout(v: View, ops: seq<Op>)
    requires ZoneOk(v.zone) && OpsOk(v.zone, ops)
  {
    ops == [] || (
      TimelyThroughout(v, ops[..|ops| - 1])
      && var before := Run(v, ops[..|ops| - 1]);
         Begins(before.zone, ops[|ops| - 1]) ==> Timely(before))
  }

  /// What the listener holds compared with the zone, until the next tick begins.
  predicate Following(v: View) {
    var (z, l) := (v.zone, v.listener);
    && l.scale == v.tickScale
    && (l.pending.Some? ==> v.latest == l.pending)
    && (l.pending == z.pending
        || (z.pending.None? && l.pending.Some? && l.pending.value.ppm == z.clock.scale
            && l.pending.value.effectiveTick > z.tick))
    && (l.pending.None? ==> z.clock.scale == v.tickScale)
  }

  lemma FollowingStep(v: View, op: Op)
    requires ZoneOk(v.zone) && OpOk(v.zone, op) && v.zone.started && Following(v)
    ensures Look(v, op).zone.started
    ensures !Begins(v.zone, op) ==> Following(Look(v, op))
    ensures Begins(v.zone, op) ==> (Look(v, op).listener.scale == Look(v, op).zone.clock.scale <==> Timely(v))
    ensures Begins(v.zone, op) && Timely(v) ==> Following(Look(v, op))
  {
  }

  /// The listener agrees with the clock at every tick begun exactly when every tick was timely: an
  /// immediate change must not be followed, before the next tick, by one for a later tick.
  lemma {:induction false} ListenerAgreesIffTimely(v: View, ops: seq<Op>)
    requires Joined(v) && OpsOk(v.zone, ops)
    ensures AgreeThroughout(v, ops) <==> TimelyThroughout(v, ops)
    ensures TimelyThroughout(v, ops) ==> Following(Run(v, ops)) && Run(v, ops).zone.started
  {
    if ops != [] {
      ListenerAgreesIffTimely(v, ops[..|ops| - 1]);
      var before := Run(v, ops[..|ops| - 1]);
      if TimelyThroughout(v, ops[..|ops| - 1]) {
        FollowingStep(before, ops[|ops| - 1]);
      }
    }
  }

  /// An external schedule that the zone takes over at once, because its tick has passed.
  predicate Immediate(z: Zone, op: Op) {
    op.Install? && Accepts(z, op.schedule) && op.schedule.anchorTick <= z.tick
  }

  predicate NeverImmediate(v: View, ops: seq<Op>)
    requires ZoneOk(v.zone) && OpsOk(v.zone, ops)
  {
    ops == [] || (NeverImmediate(v, ops[..|ops| - 1]) && !Immediate(Run(v, ops[..|ops| - 1]).zone, ops[|ops| - 1]))
  }

  lemma NotImmediateStep(v: View, op: Op)
    requires ZoneOk(v.zone) && v.zone.started && v.zone.clock.scale == v.tickScale && !Immediate(v.zone, op)
    ensures Look(v, op).zone.started && Look(v, op).zone.clock.scale == Look(v, op).tickScale
  {
  }

  lemma {:induction false} FutureSchedulesAreTimely(v: View, ops: seq<Op>)
    requires Joined(v) && OpsOk(v.zone, ops) && NeverImmediate(v, ops)
    ensures TimelyThroughout(v, ops) && Run(v, ops).zone.started
    ensures Run(v, ops).zone.clock.scale == Run(v, ops).tickScale
  {
    if ops != [] {
      FutureSchedulesAreTimely(v, ops[..|ops| - 1]);
      var before, op := Run(v, ops[..|ops| - 1]), ops[|ops| - 1];
      hide Do, Look, Immediate;
      NotImmediateStep(before, op);
    }
  }

  predicate SelfLedOnly(ops: seq<Op>) {
    forall i :: 0 <= i < |ops| ==> !ops[i].Install?
  }

  /// A zone that leads itself never loses a listener, however the demand moves and the ticks fall.
  lemma {:induction false} SelfLedAlwaysAgrees(v: View, ops: seq<Op>)
    requires Joined(v) && OpsOk(v.zone, ops) && SelfLedOnly(ops)
    ensures AgreeThroughout(v, ops)
  {
    SelfLedIsNeverImmediate(v, ops);
    FutureSchedulesAreTimely(v, ops);
    ListenerAgreesIffTimely(v, ops);
  }

  lemma {:induction false} SelfLedIsNeverImmediate(v: View, ops: seq<Op>)
    requires ZoneOk(v.zone) && OpsOk(v.zone, ops) && SelfLedOnly(ops)
    ensures NeverImmediate(v, ops)
  {
    if ops != [] {
      SelfLedIsNeverImmediate(v, ops[..|ops| - 1]);
    }
  }

  lemma RunOfTwo(v: View, first: Op, second: Op)
    requires ZoneOk(v.zone) && OpsOk(v.zone, [first, second])
    ensures ZoneOk(Look(v, first).zone) && Run(v, [first, second]) == Look(Look(v, first), second)
  {
    hide Look;
    assert OpOk(v.zone, [first, second][0]);
    assert [first, second][..1] == [first] && [first][..0] == [];
    assert Run(v, [first]) == Look(v, first);
  }

  /// Agreement is not unconditional: a schedule for a passed tick, then one for a later tick, and
  /// the listener runs the next tick at a value the zone has left.
  lemma ImmediateChangeCanBeMissed() returns (v: View, ops: seq<Op>)
    ensures Joined(v) && OpsOk(v.zone, ops) && !AgreeThroughout(v, ops)
  {
    var clock := Clock(50_000_000, 100_000, 4, SCALE_ONE, 0, 0, 0, 0);
    var zone := Zone(Config(true, 2), clock, 7, 0, true, false, 0, true, SCALE_ONE, None, []);
    v := View(zone, Listener(SCALE_ONE, None), SCALE_ONE, None);
    var first, second := Install(ZoneSchedule(3, 0, 500_000)), Install(ZoneSchedule(20, 0, 700_000));
    ops := [first, second, Begin];
    assert ops[..2] == [first, second];
    RunOfTwo(v, first, second);
    var one := Look(v, first);
    assert one.zone.announced == [Change(8, 500_000)] && one.listener == Listener(SCALE_ONE, Some(Change(8, 500_000)));
    var two := Look(one, second);
    assert two.zone.announced == [Change(8, 500_000), Change(20, 700_000)];
    assert two.zone.clock.scale == 500_000 && two.listener == Listener(SCALE_ONE, Some(Change(20, 700_000)));
    assert Begins(two.zone, Begin) && two.zone.tick == 7;
  }

  /// In step k the change announced for `tick` is applied when that tick begins, at the value last
  /// demanded, or given up because the running value is demanded again.
  predicate SettledAt(v: View, ops: seq<Op>, k: nat, tick: Tick)
    requires ZoneOk(v.zone) && OpsOk(v.zone, ops) && k < |ops|
  {
    var before, after := Run(v, ops[..k]).zone, Run(v, ops[..k + 1]).zone;
    && before.pending.Some? && before.pending.value.effectiveTick == tick && before.tick < tick
    && after.pending.None?
    && ((after.tick == tick && after.clock.scale == before.pending.value.ppm)
        || ops[k] == Measure(before.clock.scale))
  }

  predicate Anchored(z: Zone, tick: Tick) {
    z.started && z.pending.Some? && z.pending.value.effectiveTick == tick > z.tick
  }

  lemma AnchoredStep(z: Zone, op: Op, tick: Tick)
    requires ZoneOk(z) && OpOk(z, op) && !op.Install? && Anchored(z, tick)
    ensures var y := Do(z, op);
            Anchored(y, tick)
            || (y.pending.None?
                && ((y.tick == tick && y.clock.scale == z.pending.value.ppm) || op == Measure(z.clock.scale)))
  {
  }

  lemma {:induction false} AnchoredUntilSettled(v: View, ops: seq<Op>, tick: Tick)
    requires ZoneOk(v.zone) && OpsOk(v.zone, ops) && SelfLedOnly(ops) && Anchored(v.zone, tick)
    ensures Anchored(Run(v, ops).zone, tick) || exists k :: 0 <= k < |ops| && SettledAt(v, ops, k, tick)
  {
    if ops != [] {
      var front, last := ops[..|ops| - 1], ops[|ops| - 1];
      AnchoredUntilSettled(v, front, tick);
      if k :| 0 <= k < |front| && SettledAt(v, front, k, tick) {
        assert front[..k] == ops[..k] && front[..k + 1] == ops[..k + 1];
        assert SettledAt(v, ops, k, tick);
      } else {
        AnchoredStep(Run(v, front).zone, last, tick);
        assert ops[..|front| + 1] == ops;
        if !Anchored(Run(v, ops).zone, tick) { assert SettledAt(v, ops, |front|, tick); }
      }
    }
  }

  /// Without external schedules a change is applied or given up no later than the tick it was first
  /// announced for, however often the demand changes meanwhile.
  lemma SettledByItsTick(v: View, ops: seq<Op>)
    requires ZoneOk(v.zone) && v.zone.started && OpsOk(v.zone, ops) && SelfLedOnly(ops)
    requires v.zone.pending.Some? && v.zone.pending.value.effectiveTick > v.zone.tick
    requires Run(v, ops).zone.tick >= v.zone.pending.value.effectiveTick
    ensures exists k :: 0 <= k < |ops| && SettledAt(v, ops, k, v.zone.pending.value.effectiveTick)
  {
    AnchoredUntilSettled(v, ops, v.zone.pending.value.effectiveTick);
  }

  // -- The clock object ----------------------------------------------------------------------

  class ZoneClock {
    const m_config: Config
    const m_clock: DilatableClock
    var m_tick: Tick
    var m_lastWall: int
    var m_started: bool
    var m_held: bool
    var m_holdDeadline: int
    var m_rejoinDue: bool
    var m_demandPpm: nat
    var m_pending: Option<Change>
    var m_announce: seq<Change>

    ghost function Abstract(): Zone
      reads this, m_clock
    {
      Zone(m_config, m_clock.Abstract(), m_tick, m_lastWall, m_started, m_held, m_holdDeadline, m_rejoinDue,
           m_demandPpm, m_pending, m_announce)
    }

    constructor (tickHz: nat, minScalePpm: nat, maxCatchUpTicks: nat, config: Config)
      requires 1 <= tickHz <= 60 && 1 <= maxCatchUpTicks
      ensures fresh(m_clock) && ZoneOk(Abstract())
      ensures m_config == config && !m_started && m_tick == 0 && m_pending.None? && m_announce == []
      ensures m_clock.m_scalePpm == SCALE_ONE && m_clock.m_stepNanos == 1_000_000_000 / tickHz
    {
      m_config := config;
      m_clock := new DilatableClock(1_000_000_000 / tickHz, minScalePpm, maxCatchUpTicks);
      m_tick, m_lastWall, m_started, m_held, m_holdDeadline, m_rejoinDue := 0, 0, false, false, 0, false;
      m_demandPpm, m_pending, m_announce := SCALE_ONE, None, [];
    }

    method Start(wallNow: int, lastTick: Tick)
      requires ZoneOk(Abstract())
      modifies this, m_clock
      ensures Abstract() == Started(old(Abstract()), wallNow, lastTick) && ZoneOk(Abstract())
    {
      m_clock.Reset();
      m_tick, m_lastWall := lastTick, wallNow;
      m_started, m_held, m_rejoinDue := true, false, false;
    }

    method AdvanceTo(wallNow: int)
      requires ZoneOk(Abstract())
      modifies this, m_clock
      ensures Abstract() == Do(old(Abstract()), Feed(wallNow)) && ZoneOk(Abstract())
    {
      if !m_started {
        Start(wallNow, 0);
        return;
      }
      if wallNow <= m_lastWall {
        return;
      }
      if m_held {
        if wallNow < m_holdDeadline {
          m_lastWall := wallNow;
          return;
        }
        m_held := false;
        m_lastWall := LargerTime(m_lastWall, m_holdDeadline);
        if wallNow <= m_lastWall {
          return;
        }
      }
      m_clock.Advance(wallNow - m_lastWall);
      m_lastWall := wallNow;
    }

    method BeginTick() returns (tick: Option<Tick>)
      requires ZoneOk(Abstract())
      modifies this, m_clock
      ensures tick == if old(TickDue(Abstract())) then Some(m_tick) else None
      ensures Abstract() == Do(old(Abstract()), Begin) && ZoneOk(Abstract())
    {
      if !(m_started && !m_held && (m_rejoinDue || m_clock.m_accumulator >= m_clock.m_stepNanos)) {
        return None;
      }
      if m_rejoinDue {
        m_rejoinDue := false;
      } else {
        var taken := m_clock.ConsumeStep();
      }
      m_tick := m_tick + 1;
      if m_pending.Some? && m_tick >= m_pending.value.effectiveTick {
        m_clock.SetScalePpm(m_pending.value.ppm);
        m_pending := None;
      }
      return Some(m_tick);
    }

    method OnTickMeasured(demandPpm: nat)
      requires ZoneOk(Abstract()) && InRange(m_clock.Abstract(), demandPpm)
      modifies this
      ensures Abstract() == Do(old(Abstract()), Measure(demandPpm)) && ZoneOk(Abstract())
    {
      var target := if m_pending.Some? then m_pending.value.ppm else m_clock.m_scalePpm;
      m_demandPpm := demandPpm;
      if m_config.selfLed && m_demandPpm != target {
        Schedule(m_tick + m_config.leadTicks, m_demandPpm);
      }
    }

    method Schedule(anchor: Tick, ppm: nat)
      requires ZoneOk(Abstract()) && InRange(m_clock.Abstract(), ppm)
      modifies this`m_pending, this`m_announce
      ensures Abstract() == Scheduled(old(Abstract()), anchor, ppm) && ZoneOk(Abstract())
    {
      if m_pending.Some? && m_pending.value.effectiveTick > m_tick {
        m_pending := Some(m_pending.value.(ppm := ppm));
      } else {
        m_pending := Some(Change(Max(anchor, m_tick + 1), ppm));
      }
      m_announce := m_announce + [m_pending.value];
      if m_pending.value.ppm == m_clock.m_scalePpm && m_pending.value.effectiveTick > m_tick {
        m_pending := None;
      }
    }

    method ApplySchedule(schedule: ZoneSchedule) returns (ok: bool)
      requires ZoneOk(Abstract())
      modifies this, m_clock
      ensures ok == Accepts(old(Abstract()), schedule)
      ensures Abstract() == Do(old(Abstract()), Install(schedule)) && ZoneOk(Abstract())
    {
      if schedule.tickDtNs != 0 && schedule.tickDtNs != m_clock.m_stepNanos {
        return false;
      }
      var ppm := Clamp(schedule.ppm, m_clock.m_minScalePpm, SCALE_ONE);
      if schedule.anchorTick <= m_tick {
        m_clock.SetScalePpm(ppm);
        m_pending := None;
        m_announce := m_announce + [Change(m_tick + 1, ppm)];
      } else {
        m_pending := Some(Change(schedule.anchorTick, ppm));
        m_announce := m_announce + [m_pending.value];
      }
      return true;
    }

    method ApplyHold(deadline: int)
      requires ZoneOk(Abstract())
      modifies this
      ensures Abstract() == Do(old(Abstract()), Hold(deadline)) && ZoneOk(Abstract())
    {
      if deadline > m_lastWall {
        m_held, m_holdDeadline := true, deadline;
      }
    }

    method ReleaseHold()
      requires ZoneOk(Abstract())
      modifies this
      ensures Abstract() == Do(old(Abstract()), Release) && ZoneOk(Abstract())
    {
      m_held := false;
    }

    method Rejoin(current: Tick, wallNow: int)
      requires ZoneOk(Abstract())
      modifies this, m_clock
      ensures Abstract() == Rejoined(old(Abstract()), current, wallNow) && ZoneOk(Abstract())
    {
      m_clock.Reset();
      m_tick := if current > 0 then current - 1 else 0;
      m_lastWall, m_started, m_held, m_rejoinDue, m_pending := wallNow, true, false, true, None;
    }

    method TakeDilationChanges() returns (changes: seq<Change>)
      requires ZoneOk(Abstract())
      modifies this`m_announce
      ensures changes == old(m_announce)
      ensures Abstract() == Do(old(Abstract()), Drain) && ZoneOk(Abstract())
    {
      changes := m_announce;
      m_announce := [];
    }
  }
}
