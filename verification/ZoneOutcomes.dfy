/// What each operation of the zone clock does, and how much wall time its ticks are made of
/// (engine/authority/src/zone_clock.cpp:96-224, engine/core/src/time.cpp).
module ZoneOutcomes {
  import opened DilatableClocks
  import opened Naturals
  import opened Options
  import opened ZoneClocks

  // -- The step accounting -------------------------------------------------------------------

  /// Advancing counts the wall time at the running scale, an hour at most; beyond the allowed backlog whole steps are
  /// dropped, and as many as it takes.
  lemma AdvanceCounts(c: Clock, wall: nat)
    requires ClockOk(c)
    ensures var d := Advanced(c, wall);
      var counted := if wall < 3_600_000_000_000 then wall else 3_600_000_000_000;
      var all := (c.accumulator * SCALE_ONE + c.remainder + counted * c.scale) / SCALE_ONE;
      && d == c.(accumulator := d.accumulator, remainder := d.remainder, dropped := d.dropped)
      && (d.accumulator + (d.dropped - c.dropped)) * SCALE_ONE + d.remainder
         == c.accumulator * SCALE_ONE + c.remainder + counted * c.scale
      && d.remainder < SCALE_ONE
      && d.accumulator % c.stepNanos == all % c.stepNanos
      && d.accumulator / c.stepNanos
         == if all / c.stepNanos <= c.maxPending then all / c.stepNanos else c.maxPending
  {
    var a := Accrued(c, Counted(wall));
    AccruedWeighs(c, Counted(wall));
    WholeNanos(a.accumulator, a.remainder);
    CapKeepsPhase(a);
    CapKeepsAllowed(a);
  }

  lemma WholeNanos(whole: nat, rest: nat)
    requires rest < SCALE_ONE
    ensures (whole * SCALE_ONE + rest) / SCALE_ONE == whole
  {
  }

  lemma CapKeepsAllowed(c: Clock)
    requires ClockOk(c)
    ensures Capped(c).accumulator / c.stepNanos
            == if c.accumulator / c.stepNanos <= c.maxPending then c.accumulator / c.stepNanos else c.maxPending
  {
    var phase, k := c.accumulator % c.stepNanos, c.accumulator / c.stepNanos;
    assert c.accumulator == k * c.stepNanos + phase;
    assert (c.maxPending + 1) * c.stepNanos == c.maxPending * c.stepNanos + c.stepNanos;
    if c.accumulator >= c.maxPending * c.stepNanos + c.stepNanos {
      Ordered(k, c.maxPending, c.stepNanos, phase);
      DivisionIsUnique(c.maxPending * c.stepNanos + phase, c.stepNanos, c.maxPending, phase);
    } else if k > c.maxPending {
      ProductGrows(c.maxPending + 1, k, c.stepNanos);
    }
  }

  // -- Wall time and holds -------------------------------------------------------------------

  /// From when on wall time accrues: a hold pushes it to its deadline.
  function AccruesFrom(z: Zone): int {
    if z.held && z.holdDeadline > z.lastWall then z.holdDeadline else z.lastWall
  }

  function TimePast(from: int, until: int): nat {
    if until > from then until - from else 0
  }

  /// Feeding a started clock accrues exactly the wall time since the last feeding during which it was not held, and a
  /// hold is over once its deadline has passed.
  lemma FeedAccrues(z: Zone, now: int)
    requires ZoneOk(z) && z.started
    ensures var y := Do(z, Feed(now));
      && Weight(y.clock) == Weight(z.clock) + Counted(TimePast(AccruesFrom(z), now)) * z.clock.scale
      && y.lastWall == (if now > z.lastWall then now else z.lastWall)
      && (y.held <==> z.held && !(now > z.lastWall && now >= z.holdDeadline))
      && y == z.(clock := y.clock, lastWall := y.lastWall, held := y.held)
      && y.clock.scale == z.clock.scale && ZoneOk(y)
  {
    var from := AccruesFrom(z);
    if now > from { AdvanceConserves(z.clock, now - from); }
    hide Advanced;
  }

  function FeedAll(z: Zone, times: seq<int>): (y: Zone)
    requires ZoneOk(z) && z.started
    ensures ZoneOk(y) && y.started
  {
    if times == [] then z
    else
      FeedAccrues(FeedAll(z, times[..|times| - 1]), times[|times| - 1]);
      Do(FeedAll(z, times[..|times| - 1]), Feed(times[|times| - 1]))
  }

  /// However wall time is cut into feedings, and whether or not a hold covers some of it, an hour of feedings accrues
  /// exactly the time that was not held.
  lemma {:induction false} FeedingsAccrue(z: Zone, times: seq<int>)
    requires ZoneOk(z) && z.started && times != []
    requires forall i :: 0 <= i < |times| ==> z.lastWall < times[i] <= z.lastWall + 3_600_000_000_000
    requires forall i, j :: 0 <= i < j < |times| ==> times[i] < times[j]
    ensures var y := FeedAll(z, times); var last := times[|times| - 1];
      && Weight(y.clock) == Weight(z.clock) + TimePast(AccruesFrom(z), last) * z.clock.scale
      && y.lastWall == last && y.clock.scale == z.clock.scale && y.holdDeadline == z.holdDeadline
      && (y.held <==> z.held && last < z.holdDeadline)
  {
    var n := |times| - 1;
    var x := FeedAll(z, times[..n]);
    FeedAccrues(x, times[n]);
    assert FeedAll(z, times) == Do(x, Feed(times[n]));
    assert n == 0 ==> x == z by { if n == 0 { assert times[..n] == []; } }
    hide Weight, Do, FeedAll;
    if n > 0 {
      FeedingsAccrue(z, times[..n]);
      TimesAdd(z, x, times[n]);
    }
  }

  /// The time past until the later feeding is that until the earlier one and that from there on.
  lemma TimesAdd(z: Zone, x: Zone, until: int)
    requires z.lastWall < x.lastWall < until && x.holdDeadline == z.holdDeadline && x.clock.scale == z.clock.scale
    requires x.held <==> z.held && x.lastWall < z.holdDeadline
    ensures TimePast(AccruesFrom(z), until) * z.clock.scale
            == TimePast(AccruesFrom(z), x.lastWall) * z.clock.scale + TimePast(AccruesFrom(x), until) * z.clock.scale
  {
    var a, b := TimePast(AccruesFrom(z), x.lastWall), TimePast(AccruesFrom(x), until);
    assert TimePast(AccruesFrom(z), until) == a + b;
    assert (a + b) * z.clock.scale == a * z.clock.scale + b * z.clock.scale;
  }

  // -- Ticks and changes ---------------------------------------------------------------------

  /// A tick begins exactly when the clock is started, not held, and a step or a rejoin is due; it takes that step, or
  /// the rejoin, and runs a change whose tick has come.
  lemma BeginDecides(z: Zone)
    requires ZoneOk(z)
    ensures var y := Do(z, Begin);
      var due := z.started && !z.held && (z.rejoinDue || z.clock.accumulator >= z.clock.stepNanos);
      var comes := z.pending.Some? && z.pending.value.effectiveTick <= z.tick + 1;
      && (!due ==> y == z)
      && (due ==>
            && y.tick == z.tick + 1 && !y.rejoinDue
            && y.clock.steps == z.clock.steps + (if z.rejoinDue then 0 else 1)
            && y.clock.accumulator == z.clock.accumulator - (if z.rejoinDue then 0 else z.clock.stepNanos)
            && y.clock.scale == (if comes then z.pending.value.ppm else z.clock.scale)
            && y.pending == (if comes then None else z.pending)
            && y.clock == z.clock.(steps := y.clock.steps, accumulator := y.clock.accumulator, scale := y.clock.scale)
            && y == z.(tick := y.tick, rejoinDue := false, clock := y.clock, pending := y.pending))
  {
  }

  /// A self-led zone whose demand differs from its target announces one change: at the tick already announced if that
  /// is still to come, else after the lead; it stays pending unless it is back at the running value.
  lemma MeasureDecides(z: Zone, demand: nat)
    requires ZoneOk(z)
    ensures var y := Do(z, Measure(demand));
      var target := if z.pending.Some? then z.pending.value.ppm else z.clock.scale;
      var lead := if z.config.leadTicks == 0 then 1 else z.config.leadTicks;
      var at := if z.pending.Some? && z.pending.value.effectiveTick > z.tick then z.pending.value.effectiveTick
                else z.tick + lead;
      && y.demand == demand
      && (if z.config.selfLed && demand != target
          then y.announced == z.announced + [Change(at, demand)]
               && y.pending == (if demand == z.clock.scale then None else Some(Change(at, demand)))
          else y.announced == z.announced && y.pending == z.pending)
      && y == z.(demand := demand, announced := y.announced, pending := y.pending)
  {
  }

  /// A schedule of another step length is refused; one for a passed tick takes effect at once, and a later one is
  /// pending. Its value is brought into the clock's range, and it is announced.
  lemma InstallDecides(z: Zone, s: ZoneSchedule)
    requires ZoneOk(z)
    ensures var y := Do(z, Install(s));
      var ppm := if s.ppm < z.clock.minScale then z.clock.minScale
                 else if s.ppm > SCALE_ONE then SCALE_ONE else s.ppm;
      if s.tickDtNs != 0 && s.tickDtNs != z.clock.stepNanos then y == z
      else if s.anchorTick <= z.tick then
        y == z.(clock := z.clock.(scale := ppm), pending := None, announced := z.announced + [Change(z.tick + 1, ppm)])
      else
        var change := Change(s.anchorTick, ppm);
        y == z.(pending := Some(change), announced := z.announced + [change])
  {
  }

  /// A hold is taken exactly when its deadline is still to come, and released on request.
  lemma HoldDecides(z: Zone, deadline: int)
    requires ZoneOk(z)
    ensures Do(z, Hold(deadline)) == if deadline > z.lastWall then z.(held := true, holdDeadline := deadline) else z
    ensures Do(z, Release) == z.(held := false)
    ensures Do(z, Drain) == z.(announced := [])
  {
  }

  /// After a rejoin the next tick begun is the current one, at once, with nothing pending and no time carried over.
  lemma RejoinRunsCurrent(z: Zone, current: Tick, wallNow: int)
    requires ZoneOk(z) && current > 0
    ensures var y := Rejoined(z, current, wallNow);
      && ZoneOk(y) && TickDue(y) && Do(y, Begin).tick == current
      && y.pending.None? && !y.held && y.lastWall == wallNow && y.clock.scale == z.clock.scale
      && y.clock.accumulator == 0 && y.clock.remainder == 0 && y.clock.steps == 0 && y.clock.dropped == 0
      && Do(y, Begin).clock == y.clock && !TickDue(Do(y, Begin))
  {
  }

  /// A clock that was not started starts with the first feeding, and that feeding accrues nothing.
  lemma FirstFeedStarts(z: Zone, now: int)
    requires ZoneOk(z) && !z.started
    ensures var y := Do(z, Feed(now));
      && y.started && !y.held && y.tick == 0 && y.lastWall == now && !TickDue(y)
      && Weight(y.clock) == 0 && y.clock.scale == z.clock.scale && y.pending == z.pending
  {
  }
}
