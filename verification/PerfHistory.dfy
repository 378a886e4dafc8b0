/// The anchors of the performance history (_evaluate, baseline_values and compare in tools/scorecard/perf.py), for one
/// gated metric without a bound and without accept records: its nights come on changing host classes, and only the
/// last nights stay in the history.
module PerfHistory {
  import opened Options

  const HISTORY_LIMIT := 60

  type HostClass = string

  datatype Verdict = New | NewHostClass | Calibrating | Fine | Regression | HostChurn

  datatype Levels = Levels(baseline: real, anchor: real, anchorN: nat)

  /// What a night stored for the metric: its value, the levels carried over a night without it, or nothing.
  datatype Entry =
    | Measured(value: real, verdict: Verdict, host: HostClass, levels: Levels)
    | Missing(host: HostClass, levels: Levels)
    | Absent

  /// A host class's newest levels, and its clean values while it calibrates.
  datatype Stored = Stored(levels: Levels, calibration: Option<seq<real>>)

  datatype History = History(entries: seq<Entry>, store: map<HostClass, Stored>)

  /// How a metric is judged: lower or higher is better, its budget in per cent, and the nights that calibrate it.
  datatype Metric = Metric(lowerIsBetter: bool, budget: real, window: nat)

  datatype Row = Row(verdict: Verdict, levels: Levels, calibration: seq<real>)

  // -- Medians -------------------------------------------------------------------------------

  function Insert(x: real, s: seq<real>): (t: seq<real>)
    ensures |t| == |s| + 1
  {
    if s == [] || x <= s[0] then [x] + s else [s[0]] + Insert(x, s[1..])
  }

  function Sort(s: seq<real>): (t: seq<real>)
    ensures |t| == |s|
  {
    if s == [] then [] else Insert(s[0], Sort(s[1..]))
  }

  lemma {:induction false} InsertOne(x: real, s: seq<real>)
    ensures multiset(Insert(x, s)) == multiset(s) + multiset{x}
  {
    if s != [] && x > s[0] {
      InsertOne(x, s[1..]);
      assert s == [s[0]] + s[1..];
    }
  }

  predicate Ascending(s: seq<real>) {
    forall i, j :: 0 <= i < j < |s| ==> s[i] <= s[j]
  }

  lemma {:induction false} InsertAscends(x: real, s: seq<real>)
    requires Ascending(s)
    ensures Ascending(Insert(x, s))
  {
    if s != [] && x > s[0] {
      var more := Insert(x, s[1..]);
      InsertAscends(x, s[1..]);
      InsertOne(x, s[1..]);
      forall k | 0 <= k < |more| ensures s[0] <= more[k] {
        assert more[k] in multiset(more);
        assert more[k] == x || more[k] in s[1..];
      }
    }
  }

  lemma {:induction false} SortIsSorted(s: seq<real>)
    ensures Ascending(Sort(s)) && multiset(Sort(s)) == multiset(s)
  {
    if s != [] {
      SortIsSorted(s[1..]);
      InsertAscends(s[0], Sort(s[1..]));
      InsertOne(s[0], Sort(s[1..]));
      assert s == [s[0]] + s[1..];
    }
  }

  function Median(s: seq<real>): real
    requires s != []
  {
    var t := Sort(s);
    if |t| % 2 == 1 then t[|t| / 2] else (t[|t| / 2 - 1] + t[|t| / 2]) / 2.0
  }

  predicate Positive(s: seq<real>) {
    forall k :: 0 <= k < |s| ==> s[k] > 0.0
  }

  lemma MedianPositive(s: seq<real>)
    requires s != [] && Positive(s)
    ensures Median(s) > 0.0
  {
    SortIsSorted(s);
    forall x | x in Sort(s) ensures x > 0.0 {
      assert x in multiset(Sort(s));
    }
    var t := Sort(s);
    assert t[|t| / 2] in t;
    if |t| % 2 == 0 { assert t[|t| / 2 - 1] in t; }
  }

  // -- What a night is compared with ------------------------------------------------------------

  predicate On(e: Entry, cls: HostClass) {
    !e.Absent? && e.host == cls
  }

  /// The newest levels among the entries of the class.
  function Newest(entries: seq<Entry>, cls: HostClass): Option<Levels> {
    if entries == [] then None
    else
      var e := entries[|entries| - 1];
      if On(e, cls) then Some(e.levels) else Newest(entries[..|entries| - 1], cls)
  }

  predicate MeasuredOn(e: Entry, cls: HostClass) {
    e.Measured? && e.host == cls
  }

  /// The values measured on the class that were not regressions, oldest first.
  function Clean(entries: seq<Entry>, cls: HostClass): (values: seq<real>)
    ensures |values| <= |entries|
  {
    if entries == [] then []
    else
      var e := entries[|entries| - 1];
      Clean(entries[..|entries| - 1], cls) + if MeasuredOn(e, cls) && e.verdict != Regression then [e.value] else []
  }

  predicate Regressed(entries: seq<Entry>, cls: HostClass) {
    exists k :: 0 <= k < |entries| && MeasuredOn(entries[k], cls) && entries[k].verdict == Regression
  }

  function Last(s: seq<real>, n: nat): seq<real> {
    if |s| > n then s[|s| - n..] else s
  }

  function First(s: seq<real>, n: nat): seq<real> {
    if |s| > n then s[..n] else s
  }

  /// How much worse, in per cent of the level, a value is than the level.
  function Worse(value: real, level: real, lowerIsBetter: bool): real {
    var change := if level != 0.0 then 100.0 * (value - level) / level else 0.0;
    if lowerIsBetter then change else -change
  }

  /// The class's clean values, from its stored calibration where that holds as many.
  function CleanValues(h: History, cls: HostClass): seq<real> {
    var clean := Clean(h.entries, cls);
    if cls in h.store && h.store[cls].calibration.Some? && |h.store[cls].calibration.value| >= |clean| then
      h.store[cls].calibration.value
    else clean
  }

  function LevelsOf(h: History, cls: HostClass): Option<Levels> {
    if Newest(h.entries, cls).Some? then Newest(h.entries, cls)
    else if cls in h.store then Some(h.store[cls].levels)
    else None
  }

  predicate OtherClass(h: History, cls: HostClass) {
    || (exists c :: c in h.store && c != cls)
    || exists k :: 0 <= k < |h.entries| && !h.entries[k].Absent? && h.entries[k].host != cls
  }

  /// The row of a night once the class has an anchor to be judged by.
  function Judged(m: Metric, value: real, base: real, anchor: real, n: nat, calibration: seq<real>): Row {
    var held := if m.lowerIsBetter then (if base > anchor then base else anchor)
                else (if base < anchor then base else anchor);
    var flagged := Worse(value, held, m.lowerIsBetter) > m.budget || Worse(value, anchor, m.lowerIsBetter) > m.budget;
    Row(if flagged then Regression else Fine, Levels(held, anchor, n), calibration)
  }

  /// The row of tonight's value.
  function RowOf(m: Metric, h: History, cls: HostClass, value: real): Row {
    var clean := CleanValues(h, cls);
    var calibration := First(clean, m.window);
    var levels := LevelsOf(h, cls);
    if levels.None? then
      Row(if OtherClass(h, cls) then NewHostClass else New, Levels(value, value, 1), calibration)
    else
      var carried := levels.value;
      var values := Last(Clean(h.entries, cls), m.window);
      var base := if values != [] then Median(values) else carried.baseline;
      if carried.anchorN >= m.window then Judged(m, value, base, carried.anchor, m.window, calibration)
      else if |clean| >= m.window && m.window > 0 then
        Judged(m, value, base, Median(clean[..m.window]), m.window, calibration)
      else if !Regressed(h.entries, cls) then
        var level := Median(clean + [value]);
        Row(Calibrating, Levels(level, level, |clean| + 1), calibration)
      else Judged(m, value, base, carried.anchor, carried.anchorN, calibration)
  }

  /// The values tonight is compared with.
  method BaselineValues(entries: seq<Entry>, cls: HostClass, window: nat) returns (values: seq<real>)
    ensures values == Last(Clean(entries, cls), window)
  {
    values := [];
    var i := 0;
    while i < |entries|
      invariant 0 <= i <= |entries| && values == Clean(entries[..i], cls)
    {
      assert entries[..i + 1][..i] == entries[..i];
      var e := entries[i];
      if e.Measured? && e.host == cls && e.verdict != Regression {
        values := values + [e.value];
      }
      i := i + 1;
    }
    assert entries[..i] == entries;
    if |values| > window { values := values[|values| - window..]; }
  }

  // -- A night ----------------------------------------------------------------------------------

  /// What a night brings: the metric's value on a host class or no value, and whether the run's host classes
  /// keep changing.
  datatype Night = Night(sample: Option<(HostClass, real)>, churn: bool)

  predicate Ungated(v: Verdict) {
    v == New || v == NewHostClass || v == Calibrating
  }

  function Shown(v: Verdict, churn: bool): Verdict {
    if churn && Ungated(v) then HostChurn else v
  }

  function Newer(entries: seq<Entry>, e: Entry): seq<Entry> {
    var all := entries + [e];
    if |all| > HISTORY_LIMIT then all[|all| - HISTORY_LIMIT..] else all
  }

  function Level(m: Metric, row: Row, value: real): Stored {
    var first := row.calibration + if row.verdict != Regression then [value] else [];
    Stored(row.levels, if row.levels.anchorN < m.window then Some(First(first, m.window)) else None)
  }

  /// The entry of a night without the metric: once it was measured, its newest levels are carried.
  function Carried(entries: seq<Entry>): Entry {
    if entries == [] || entries[|entries| - 1].Absent? then Absent
    else Missing(entries[|entries| - 1].host, entries[|entries| - 1].levels)
  }

  /// compare: the history after a night.
  function Next(m: Metric, h: History, night: Night): History {
    if night.sample.None? then h.(entries := Newer(h.entries, Carried(h.entries)))
    else
      var (cls, value) := night.sample.value;
      var row := RowOf(m, h, cls, value);
      History(Newer(h.entries, Measured(value, Shown(row.verdict, night.churn), cls, row.levels)),
              h.store[cls := Level(m, row, value)])
  }

  /// The history after all the nights, from an empty one.
  function After(m: Metric, nights: seq<Night>): History {
    if nights == [] then History([], map[])
    else Next(m, After(m, nights[..|nights| - 1]), nights[|nights| - 1])
  }

  /// Every value ever measured on the class, oldest first.
  function Values(nights: seq<Night>, cls: HostClass): seq<real> {
    if nights == [] then []
    else
      var last := nights[|nights| - 1].sample;
      Values(nights[..|nights| - 1], cls) + if last.Some? && last.value.0 == cls then [last.value.1] else []
  }

  method Compare(m: Metric, h: History, night: Night) returns (next: History, row: Option<Row>)
    ensures next == Next(m, h, night)
    ensures row.Some? <==> night.sample.Some?
    ensures row.Some? ==> row.value == RowOf(m, h, night.sample.value.0, night.sample.value.1)
  {
    var store := h.store;
    var entry := Carried(h.entries);
    row := None;
    if night.sample.Some? {
      var (cls, value) := night.sample.value;
      var r := Evaluate(m, h, cls, value);
      row := Some(r);
      var verdict := r.verdict;
      if night.churn && Ungated(verdict) { verdict := HostChurn; }
      entry := Measured(value, verdict, cls, r.levels);
      var calibration := None;
      if r.levels.anchorN < m.window {
        var clean := r.calibration;
        if r.verdict != Regression { clean := clean + [value]; } else { assert clean + [] == clean; }
        calibration := Some(First(clean, m.window));
      }
      store := store[cls := Stored(r.levels, calibration)];
    }
    next := History(Newer(h.entries, entry), store);
  }

  /// The row of tonight's value, decided case by case.
  method Evaluate(m: Metric, h: History, cls: HostClass, value: real) returns (row: Row)
    ensures row == RowOf(m, h, cls, value)
  {
    hide Median, Clean, Worse, CleanValues, LevelsOf, OtherClass, Regressed;
    var clean := CleanValues(h, cls);
    row := Row(New, Levels(value, value, 1), First(clean, m.window));
    var levels := LevelsOf(h, cls);
    if levels.None? {
      if OtherClass(h, cls) { row := row.(verdict := NewHostClass); }
      return;
    }
    var values := BaselineValues(h.entries, cls, m.window);
    var base := levels.value.baseline;
    if values != [] { base := Median(values); }
    var anchor, n := levels.value.anchor, levels.value.anchorN;
    if n >= m.window {
      n := m.window;
    } else if |clean| >= m.window {
      anchor, n := Median(clean[..m.window]), m.window;
    } else if !Regressed(h.entries, cls) {
      var level := Median(clean + [value]);
      return row.(verdict := Calibrating, levels := Levels(level, level, |clean| + 1));
    }
    if m.lowerIsBetter { base := if base > anchor then base else anchor; }
    else { base := if base < anchor then base else anchor; }
    var flagged := Worse(value, base, m.lowerIsBetter) > m.budget || Worse(value, anchor, m.lowerIsBetter) > m.budget;
    row := row.(verdict := if flagged then Regression else Fine, levels := Levels(base, anchor, n));
  }

  // -- What a history holds ---------------------------------------------------------------------

  predicate PositiveNights(nights: seq<Night>) {
    forall k :: 0 <= k < |nights| && nights[k].sample.Some? ==> nights[k].sample.value.1 > 0.0
  }

  lemma {:induction false} ValuesPositive(nights: seq<Night>, cls: HostClass)
    requires PositiveNights(nights)
    ensures Positive(Values(nights, cls))
  {
    if nights != [] {
      ValuesPositive(nights[..|nights| - 1], cls);
    }
  }

  /// A class's stored levels agree with the values ever measured on it.
  predicate LevelsMatch(m: Metric, store: map<HostClass, Stored>, cls: HostClass, values: seq<real>)
    requires m.window > 0
  {
    && (cls in store <==> values != [])
    && (cls in store ==>
          var s := store[cls];
          && s.levels.anchorN == |First(values, m.window)|
          && s.levels.anchor == Median(First(values, m.window))
          && s.levels.baseline > 0.0
          && s.calibration == if |values| < m.window then Some(values) else None)
  }

  /// The entries left in the history agree with the class's store.
  predicate EntriesMatch(m: Metric, h: History, cls: HostClass, values: seq<real>) {
    && (Newest(h.entries, cls).Some? ==> cls in h.store && Newest(h.entries, cls).value == h.store[cls].levels)
    && |Clean(h.entries, cls)| <= |values|
    && Positive(Clean(h.entries, cls))
    && (|values| <= m.window ==> !Regressed(h.entries, cls))
  }

  predicate Matches(m: Metric, h: History, cls: HostClass, values: seq<real>)
    requires m.window > 0
  {
    LevelsMatch(m, h.store, cls, values) && EntriesMatch(m, h, cls, values)
  }

  // -- Entries that age out -----------------------------------------------------------------------

  /// Dropping old entries loses values and levels, and adds none.
  lemma {:induction false} Aged(entries: seq<Entry>, n: nat, cls: HostClass)
    requires n <= |entries|
    ensures Newest(entries[n..], cls).Some? ==> Newest(entries[n..], cls) == Newest(entries, cls)
    ensures Clean(entries, cls) == Clean(entries[..n], cls) + Clean(entries[n..], cls)
    decreases |entries|
  {
    if n < |entries| {
      var front := entries[..|entries| - 1];
      Aged(front, n, cls);
      assert entries[n..][..|entries[n..]| - 1] == front[n..] && front[..n] == entries[..n];
    } else {
      assert entries[..n] == entries && entries[n..] == [];
    }
  }

  lemma NewerEntries(m: Metric, h: History, cls: HostClass, values: seq<real>, e: Entry)
    requires EntriesMatch(m, History(h.entries + [e], h.store), cls, values)
    ensures EntriesMatch(m, History(Newer(h.entries, e), h.store), cls, values)
  {
    var all := h.entries + [e];
    if |all| > HISTORY_LIMIT {
      var n := |all| - HISTORY_LIMIT;
      Aged(all, n, cls);
      var gone, kept := Clean(all[..n], cls), Clean(all[n..], cls);
      assert forall k :: 0 <= k < |kept| ==> kept[k] == (gone + kept)[|gone| + k];
    }
  }

  // -- Being judged -----------------------------------------------------------------------------

  /// Against a positive level, the change is the ratio.
  lemma WorseIsRatio(value: real, level: real, lowerIsBetter: bool)
    requires level > 0.0
    ensures Worse(value, level, lowerIsBetter) ==
            if lowerIsBetter then 100.0 * (value / level) - 100.0 else 100.0 - 100.0 * (value / level)
  {
    var x := value / level;
    assert x * level == value;
    assert 100.0 * (value - level) == (100.0 * x - 100.0) * level;
    QuotientOf(100.0 * (value - level), 100.0 * x - 100.0, level);
  }

  lemma QuotientOf(a: real, q: real, level: real)
    requires level > 0.0 && a == q * level
    ensures a / level == q
  {
  }

  lemma RatioFalls(value: real, low: real, high: real)
    requires value > 0.0 && 0.0 < low <= high
    ensures value / high <= value / low
  {
    var x, y := value / high, value / low;
    assert x * high == value && y * low == value;
    assert x > 0.0;
    if x > y {
      Larger(x, y, low);
      Larger(high, low, x);
    }
  }

  lemma Larger(a: real, b: real, factor: real)
    requires a >= b && factor > 0.0
    ensures a * factor >= b * factor && (a > b ==> a * factor > b * factor)
  {
  }

  /// A baseline that is never better than the anchor decides nothing: the row is a regression exactly when the
  /// value is worse than the anchor by more than the budget.
  lemma AnchorDecides(m: Metric, value: real, base: real, anchor: real, n: nat, calibration: seq<real>)
    requires value > 0.0 && base > 0.0 && anchor > 0.0
    ensures var row := Judged(m, value, base, anchor, n, calibration);
      && row.verdict == (if Worse(value, anchor, m.lowerIsBetter) > m.budget then Regression else Fine)
      && row.levels.anchor == anchor && row.levels.anchorN == n && row.levels.baseline > 0.0
  {
    var held := if m.lowerIsBetter then (if base > anchor then base else anchor)
                else (if base < anchor then base else anchor);
    WorseIsRatio(value, held, m.lowerIsBetter);
    WorseIsRatio(value, anchor, m.lowerIsBetter);
    if held >= anchor { RatioFalls(value, anchor, held); }
    if held <= anchor { RatioFalls(value, held, anchor); }
    hide Worse;
  }

  // -- One night --------------------------------------------------------------------------------

  /// The verdict that the values measured so far call for.
  function Expected(m: Metric, values: seq<real>, value: real): Option<Verdict> {
    if values == [] then None
    else if |values| < m.window then Some(Calibrating)
    else if m.window == 0 then None
    else Some(if Worse(value, Median(values[..m.window]), m.lowerIsBetter) > m.budget then Regression else Fine)
  }

  lemma RowMatches(m: Metric, h: History, cls: HostClass, values: seq<real>, value: real)
    requires m.window > 0 && Matches(m, h, cls, values) && Positive(values) && value > 0.0
    ensures var row := RowOf(m, h, cls, value); var now := values + [value];
      && (values == [] ==> Ungated(row.verdict) && row.verdict != Calibrating)
      && (values != [] ==> Some(row.verdict) == Expected(m, values, value))
      && row.levels.anchorN == |First(now, m.window)| && row.levels.anchor == Median(First(now, m.window))
      && row.levels.baseline > 0.0
      && (|values| < m.window ==> row.calibration == values)
  {
    var now := values + [value];
    var clean := CleanValues(h, cls);
    if |values| < m.window {
      assert clean == values;
      assert First(now, m.window) == now;
      MedianPositive(now);
      if values == [] { assert now == [value] && Sort([value]) == [value] by { assert [value][1..] == []; } }
    } else {
      assert First(now, m.window) == First(values, m.window) == values[..m.window];
      MedianPositive(values[..m.window]);
      var picked := Last(Clean(h.entries, cls), m.window);
      if picked != [] { MedianPositive(picked); }
      var base := if picked != [] then Median(picked) else h.store[cls].levels.baseline;
      AnchorDecides(m, value, base, Median(values[..m.window]), m.window, First(clean, m.window));
    }
  }

  lemma CleanMore(entries: seq<Entry>, e: Entry, cls: HostClass)
    ensures Newest(entries + [e], cls) == if On(e, cls) then Some(e.levels) else Newest(entries, cls)
    ensures Clean(entries + [e], cls) ==
            Clean(entries, cls) + if MeasuredOn(e, cls) && e.verdict != Regression then [e.value] else []
    ensures Regressed(entries + [e], cls) <==>
            Regressed(entries, cls) || (MeasuredOn(e, cls) && e.verdict == Regression)
  {
    var all := entries + [e];
    assert all[..|all| - 1] == entries;
    assert all[|entries|] == e;
    assert forall k :: 0 <= k < |entries| ==> all[k] == entries[k];
  }

  /// A night of another class, or without the metric, leaves a class's levels alone.
  lemma OtherNight(m: Metric, h: History, cls: HostClass, values: seq<real>, night: Night)
    requires m.window > 0 && Matches(m, h, cls, values)
    requires night.sample.Some? ==> night.sample.value.0 != cls
    ensures Matches(m, Next(m, h, night), cls, values)
  {
    hide RowOf, Median;
    var next := Next(m, h, night);
    var e := if night.sample.None? then Carried(h.entries)
             else var row := RowOf(m, h, night.sample.value.0, night.sample.value.1);
               Measured(night.sample.value.1, Shown(row.verdict, night.churn), night.sample.value.0, row.levels);
    CleanMore(h.entries, e, cls);
    CarriedIsNewest(h.entries, cls);
    assert EntriesMatch(m, History(h.entries + [e], next.store), cls, values);
    NewerEntries(m, History(h.entries, next.store), cls, values, e);
  }

  lemma CarriedIsNewest(entries: seq<Entry>, cls: HostClass)
    ensures On(Carried(entries), cls) ==> Newest(entries, cls) == Some(Carried(entries).levels)
  {
  }

  lemma OwnEntry(m: Metric, h: History, store: map<HostClass, Stored>, cls: HostClass, values: seq<real>, e: Entry)
    requires EntriesMatch(m, h, cls, values)
    requires MeasuredOn(e, cls) && e.value > 0.0 && cls in store && store[cls].levels == e.levels
    requires |values| < m.window ==> e.verdict != Regression
    ensures EntriesMatch(m, History(Newer(h.entries, e), store), cls, values + [e.value])
  {
    CleanMore(h.entries, e, cls);
    hide Newest, Clean, Regressed, Newer;
    NewerEntries(m, History(h.entries, store), cls, values + [e.value], e);
  }

  lemma OwnLevel(m: Metric, store: map<HostClass, Stored>, cls: HostClass, values: seq<real>, row: Row, value: real)
    requires m.window > 0 && row.levels.baseline > 0.0 && (|values| < m.window ==> row.calibration == values)
    requires |values| < m.window ==> row.verdict != Regression
    requires row.levels.anchorN == |First(values + [value], m.window)|
    requires row.levels.anchor == Median(First(values + [value], m.window))
    ensures LevelsMatch(m, store[cls := Level(m, row, value)], cls, values + [value])
  {
    hide Median;
  }

  /// A night of the class adds its value.
  lemma OwnNight(m: Metric, h: History, cls: HostClass, values: seq<real>, value: real, churn: bool)
    requires m.window > 0 && Matches(m, h, cls, values) && Positive(values) && value > 0.0
    ensures Matches(m, Next(m, h, Night(Some((cls, value)), churn)), cls, values + [value])
  {
    var row := RowOf(m, h, cls, value);
    RowMatches(m, h, cls, values, value);
    hide RowOf, Median, EntriesMatch, Newer, LevelsMatch;
    OwnLevel(m, h.store, cls, values, row, value);
    OwnEntry(m, h, h.store[cls := Level(m, row, value)], cls, values,
             Measured(value, Shown(row.verdict, churn), cls, row.levels));
  }

  lemma {:induction false} EveryHistoryMatches(m: Metric, nights: seq<Night>, cls: HostClass)
    requires m.window > 0 && PositiveNights(nights)
    ensures Matches(m, After(m, nights), cls, Values(nights, cls))
  {
    if nights != [] {
      var before, night := nights[..|nights| - 1], nights[|nights| - 1];
      EveryHistoryMatches(m, before, cls);
      ValuesPositive(before, cls);
      hide Matches, Next;
      if night.sample.Some? && night.sample.value.0 == cls {
        OwnNight(m, After(m, before), cls, Values(before, cls), night.sample.value.1, night.churn);
      } else {
        OtherNight(m, After(m, before), cls, Values(before, cls), night);
        assert Values(nights, cls) == Values(before, cls) + [] == Values(before, cls);
      }
    }
  }

  // -- Over whole runs of nights -------------------------------------------------------------------

  /// After any nights, a class's anchor is the median of its first values, up to the window, whatever other classes
  /// came in between and however much of the history has aged out.
  lemma AnchorIsFirstMedian(m: Metric, nights: seq<Night>, cls: HostClass)
    requires m.window > 0 && PositiveNights(nights)
    ensures var values := Values(nights, cls); var store := After(m, nights).store;
      && (cls in store <==> values != [])
      && (cls in store ==> store[cls].levels.anchor == Median(First(values, m.window)))
      && (cls in store ==> store[cls].levels.anchorN == |First(values, m.window)|)
  {
    EveryHistoryMatches(m, nights, cls);
  }

  /// A night's verdict after any nights: a regression exactly when the class has its window of values and tonight's
  /// is worse than their median by more than the budget; ungated before that.
  lemma VerdictIsExact(m: Metric, nights: seq<Night>, cls: HostClass, value: real)
    requires m.window > 0 && PositiveNights(nights) && value > 0.0
    ensures var values := Values(nights, cls); var verdict := RowOf(m, After(m, nights), cls, value).verdict;
      && (Ungated(verdict) <==> |values| < m.window)
      && (verdict == Calibrating <==> 0 < |values| < m.window)
      && (verdict == Regression <==>
            (|values| >= m.window && Worse(value, Median(values[..m.window]), m.lowerIsBetter) > m.budget))
  {
    EveryHistoryMatches(m, nights, cls);
    ValuesPositive(nights, cls);
    RowMatches(m, After(m, nights), cls, Values(nights, cls), value);
    hide RowOf, After, Values, Median, Worse;
  }

  /// A metric's first night on a class says so exactly when another class has been measured before.
  lemma NewHostClassIffOther(m: Metric, nights: seq<Night>, cls: HostClass, value: real)
    requires m.window > 0 && PositiveNights(nights) && Values(nights, cls) == []
    ensures RowOf(m, After(m, nights), cls, value).verdict ==
            if exists c :: c != cls && Values(nights, c) != [] then NewHostClass else New
  {
    hide After, Values;
    var h := After(m, nights);
    forall c ensures c in h.store <==> Values(nights, c) != [] {
      AnchorIsFirstMedian(m, nights, c);
    }
    forall k | 0 <= k < |h.entries| && !h.entries[k].Absent? ensures h.entries[k].host in h.store {
      HostsAreStored(m, nights, k);
    }
    assert LevelsOf(h, cls).None? by { EveryHistoryMatches(m, nights, cls); }
    if OtherClass(h, cls) {
      var c :| c in h.store && c != cls;
      assert c != cls && Values(nights, c) != [];
    }
  }

  lemma {:induction false} HostsAreStored(m: Metric, nights: seq<Night>, k: nat)
    requires k < |After(m, nights).entries| && !After(m, nights).entries[k].Absent?
    ensures After(m, nights).entries[k].host in After(m, nights).store
  {
    var before, night := nights[..|nights| - 1], nights[|nights| - 1];
    var h := After(m, before);
    hide RowOf, Level;
    if night.sample.None? {
      var at := NewerAt(h.entries, Carried(h.entries), k);
      HostsAreStored(m, before, if at < |h.entries| then at else at - 1);
    } else {
      var (cls, value) := night.sample.value;
      var row := RowOf(m, h, cls, value);
      var at := NewerAt(h.entries, Measured(value, Shown(row.verdict, night.churn), cls, row.levels), k);
      if at < |h.entries| { HostsAreStored(m, before, at); }
    }
  }

  lemma NewerAt(entries: seq<Entry>, e: Entry, k: nat) returns (at: nat)
    requires k < |Newer(entries, e)|
    ensures at <= |entries| && Newer(entries, e)[k] == if at < |entries| then entries[at] else e
  {
    at := |entries| + 1 - |Newer(entries, e)| + k;
    assert Newer(entries, e)[k] == (entries + [e])[at];
  }
}
