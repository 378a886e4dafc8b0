/// What the medians, the verdicts and the stored nights of the performance history mean in numbers
/// (tools/scorecard/perf.py:163-176, 263-366, 390-481).
module PerfOutcomes {
  import opened Options
  import opened PerfHistory

  // -- Medians -------------------------------------------------------------------------------

  /// Sorting leaves no choice.
  lemma {:induction false} SortedIsUnique(s: seq<real>, t: seq<real>)
    requires Ascending(s) && Ascending(t) && multiset(s) == multiset(t)
    ensures s == t
    decreases |s|
  {
    assert |s| == |multiset(s)| == |multiset(t)| == |t|;
    if s != [] {
      FirstIsLeast(s, t);
      FirstIsLeast(t, s);
      WithoutFirst(s);
      WithoutFirst(t);
      SortedIsUnique(s[1..], t[1..]);
    }
  }

  lemma FirstIsLeast(s: seq<real>, t: seq<real>)
    requires s != [] && t != [] && Ascending(s) && multiset(s) == multiset(t)
    ensures s[0] <= t[0]
  {
    assert t[0] in multiset(s);
    var j :| 0 <= j < |s| && s[j] == t[0];
  }

  lemma WithoutFirst(s: seq<real>)
    requires s != [] && Ascending(s)
    ensures Ascending(s[1..]) && multiset(s[1..]) == multiset(s) - multiset{s[0]}
  {
    assert s == [s[0]] + s[1..];
  }

  /// The median is the mean of the one or two middle values of any ascending arrangement.
  lemma MedianIsMiddle(s: seq<real>, t: seq<real>)
    requires s != [] && Ascending(t) && multiset(t) == multiset(s)
    ensures |t| == |s|
    ensures 2.0 * Median(s) == t[(|s| - 1) / 2] + t[|s| / 2]
  {
    SortIsSorted(s);
    SortedIsUnique(Sort(s), t);
  }

  // -- Verdicts ------------------------------------------------------------------------------

  /// A night is a regression exactly when its class has its window of values and tonight's lies beyond the budget, in
  /// per cent of their median: above it where lower is better, below it where higher is.
  lemma RegressionIsBeyondBudget(m: Metric, nights: seq<Night>, cls: HostClass, value: real)
    requires m.window > 0 && PositiveNights(nights) && value > 0.0
    ensures var values := Values(nights, cls);
      RowOf(m, After(m, nights), cls, value).verdict == Regression <==>
      |values| >= m.window
      && var anchor := Median(values[..m.window]);
         if m.lowerIsBetter then 100.0 * value > (100.0 + m.budget) * anchor
         else 100.0 * value < (100.0 - m.budget) * anchor
  {
    hide RowOf, After, Values, Median, Worse;
    VerdictIsExact(m, nights, cls, value);
    var values := Values(nights, cls);
    if |values| >= m.window {
      ValuesPositive(nights, cls);
      MedianPositive(values[..m.window]);
      WorseIsBeyond(m, value, Median(values[..m.window]));
    }
  }

  lemma WorseIsBeyond(m: Metric, value: real, level: real)
    requires level > 0.0
    ensures Worse(value, level, m.lowerIsBetter) > m.budget <==>
            if m.lowerIsBetter then 100.0 * value > (100.0 + m.budget) * level
            else 100.0 * value < (100.0 - m.budget) * level
  {
    WorseIsRatio(value, level, m.lowerIsBetter);
    hide Worse;
    var x, limit := value / level, if m.lowerIsBetter then 100.0 + m.budget else 100.0 - m.budget;
    assert x * level == value;
    assert (100.0 * x) * level == 100.0 * value;
    OrderedByFactor(100.0 * x, limit, level);
  }

  lemma OrderedByFactor(a: real, b: real, factor: real)
    requires factor > 0.0
    ensures a > b <==> a * factor > b * factor
    ensures a < b <==> a * factor < b * factor
  {
    if a >= b { Larger(a, b, factor); }
    if b >= a { Larger(b, a, factor); }
  }

  // -- Nights --------------------------------------------------------------------------------

  /// The history keeps the last sixty nights.
  lemma {:induction false} NightsKept(m: Metric, nights: seq<Night>)
    ensures |After(m, nights).entries| == if |nights| < 60 then |nights| else 60
  {
    if nights != [] { NightsKept(m, nights[..|nights| - 1]); }
  }

  /// A measured night is stored with its value, class and levels, and its class alone gets these levels; when host
  /// classes keep changing, a night that nothing gated fails as churn.
  lemma NightStored(m: Metric, nights: seq<Night>)
    requires nights != [] && nights[|nights| - 1].sample.Some?
    ensures var before, night := After(m, nights[..|nights| - 1]), nights[|nights| - 1];
      var (cls, value) := night.sample.value;
      var row, h := RowOf(m, before, cls, value), After(m, nights);
      && h.entries != []
      && var e := h.entries[|h.entries| - 1];
         && e.Measured? && e.value == value && e.host == cls && e.levels == row.levels
         && (e.verdict == HostChurn <==>
               row.verdict == HostChurn
               || (night.churn && (row.verdict == New || row.verdict == NewHostClass || row.verdict == Calibrating)))
         && (e.verdict != HostChurn ==> e.verdict == row.verdict)
         && cls in h.store && h.store[cls].levels == row.levels
         && forall c :: c != cls ==>
              (c in h.store <==> c in before.store) && (c in before.store ==> h.store[c] == before.store[c])
  {
    var before, night := After(m, nights[..|nights| - 1]), nights[|nights| - 1];
    var (cls, value) := night.sample.value;
    var row := RowOf(m, before, cls, value);
    var e := Measured(value, Shown(row.verdict, night.churn), cls, row.levels);
    var entries := Newer(before.entries, e);
    assert entries[|entries| - 1] == e;
    hide RowOf;
  }

  /// A night without the metric changes no level, and its entry carries the newest one.
  lemma NightWithout(m: Metric, nights: seq<Night>)
    requires nights != [] && nights[|nights| - 1].sample.None?
    ensures var before, h := After(m, nights[..|nights| - 1]), After(m, nights);
      && h.store == before.store && h.entries != []
      && var e := h.entries[|h.entries| - 1];
         if before.entries == [] || before.entries[|before.entries| - 1].Absent? then e.Absent?
         else e == Missing(before.entries[|before.entries| - 1].host, before.entries[|before.entries| - 1].levels)
  {
    var before := After(m, nights[..|nights| - 1]);
    var entries := Newer(before.entries, Carried(before.entries));
    assert entries[|entries| - 1] == Carried(before.entries);
  }

  /// Once a class has its anchor, the baseline that is stored is the worse of the anchor and of the median of its last
  /// clean values.
  lemma BaselineIsWorse(m: Metric, nights: seq<Night>, cls: HostClass, value: real)
    requires m.window > 0 && PositiveNights(nights) && value > 0.0 && |Values(nights, cls)| >= m.window
    ensures var h := After(m, nights);
      var baseline, anchor := RowOf(m, h, cls, value).levels.baseline, Median(Values(nights, cls)[..m.window]);
      var clean := Clean(h.entries, cls);
      && cls in h.store
      && var recent := if clean == [] then h.store[cls].levels.baseline
                       else Median(if |clean| > m.window then clean[|clean| - m.window..] else clean);
         baseline == if m.lowerIsBetter then (if recent > anchor then recent else anchor)
                     else (if recent < anchor then recent else anchor)
  {
    hide After, Values, Median, Clean;
    EveryHistoryMatches(m, nights, cls);
    BaselineOf(m, After(m, nights), cls, Values(nights, cls), value);
  }

  lemma BaselineOf(m: Metric, h: History, cls: HostClass, values: seq<real>, value: real)
    requires m.window > 0 && Matches(m, h, cls, values) && |values| >= m.window
    ensures var baseline, anchor := RowOf(m, h, cls, value).levels.baseline, Median(values[..m.window]);
      var clean := Clean(h.entries, cls);
      && cls in h.store
      && var recent := if clean == [] then h.store[cls].levels.baseline
                       else Median(if |clean| > m.window then clean[|clean| - m.window..] else clean);
         baseline == if m.lowerIsBetter then (if recent > anchor then recent else anchor)
                     else (if recent < anchor then recent else anchor)
  {
    hide Median, Clean, Newest, CleanValues, Regressed, Worse;
    assert First(values, m.window) == values[..m.window];
    assert LevelsOf(h, cls) == Some(h.store[cls].levels);
  }

  /// While a class calibrates, anchor and baseline are the median of all its values, tonight's included.
  lemma CalibratingLevels(m: Metric, nights: seq<Night>, cls: HostClass, value: real)
    requires m.window > 0 && PositiveNights(nights) && value > 0.0 && |Values(nights, cls)| < m.window
    ensures var values := Values(nights, cls);
      var level := Median(values + [value]);
      RowOf(m, After(m, nights), cls, value).levels == Levels(level, level, |values| + 1)
  {
    hide After, Values;
    EveryHistoryMatches(m, nights, cls);
    LevelsOfFew(m, After(m, nights), cls, Values(nights, cls), value);
  }

  lemma LevelsOfFew(m: Metric, h: History, cls: HostClass, values: seq<real>, value: real)
    requires m.window > 0 && Matches(m, h, cls, values) && |values| < m.window
    ensures var level := Median(values + [value]);
      RowOf(m, h, cls, value).levels == Levels(level, level, |values| + 1)
  {
    assert CleanValues(h, cls) == values;
    if values == [] {
      assert values + [value] == [value] && [value][1..] == [];
      assert Sort([value]) == [value];
    }
    hide Sort, Clean, Newest, Regressed;
  }

  /// The clean values are those of the nights of the class still kept that were not regressions, oldest first.
  lemma {:induction false} CleanAreListed(entries: seq<Entry>, cls: HostClass) returns (at: seq<nat>)
    ensures |at| == |Clean(entries, cls)|
    ensures forall i :: 0 <= i < |at| ==>
              at[i] < |entries| && MeasuredOn(entries[at[i]], cls) && entries[at[i]].verdict != Regression
              && Clean(entries, cls)[i] == entries[at[i]].value
    ensures forall i, j :: 0 <= i < j < |at| ==> at[i] < at[j]
    ensures forall k :: 0 <= k < |entries| && MeasuredOn(entries[k], cls) && entries[k].verdict != Regression ==>
              k in at
  {
    at := [];
    if entries != [] {
      var n := |entries| - 1;
      var before := CleanAreListed(entries[..n], cls);
      at := before + if MeasuredOn(entries[n], cls) && entries[n].verdict != Regression then [n] else [];
      forall k | 0 <= k < |entries| && MeasuredOn(entries[k], cls) && entries[k].verdict != Regression ensures k in at {
        if k < n { assert entries[..n][k] == entries[k] && k in before; }
      }
      hide Clean;
    }
  }
}
