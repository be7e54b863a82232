/**
 * The profile's fitness figures: the cumulative totals over the daily
 * Google Fit rows, and the gaps in a sequence of dates. Dates are day
 * numbers.
 */
module Profile {
  import opened Common
  import opened Tables

  datatype StepDay = StepDay(date: int, steps: int)
  datatype CalorieDay = CalorieDay(date: int, calories: real)
  datatype DistanceDay = DistanceDay(date: int, distance: real)

  /** The daily rows; a list can be missing. */
  datatype FitnessData = FitnessData(
    steps: Option<seq<StepDay>>,
    calories: Option<seq<CalorieDay>>,
    distance: Option<seq<DistanceDay>>)

  datatype Totals = Totals(
    totalSteps: int,
    totalCaloriesBurned: real,
    totalDistanceKm: real,
    daysActive: nat,
    averageDailySteps: int)

  /** A day counts as active above this many steps. */
  const ActiveThreshold: int := 100

  function StepSum(days: seq<StepDay>): int {
    if days == [] then 0 else days[0].steps + StepSum(days[1..])
  }

  function ActiveDays(days: seq<StepDay>): (n: nat)
    ensures n <= |days|
  {
    if days == [] then 0 else (if days[0].steps > ActiveThreshold then 1 else 0) + ActiveDays(days[1..])
  }

  function CalorieSum(days: seq<CalorieDay>): real {
    if days == [] then 0.0 else days[0].calories + CalorieSum(days[1..])
  }

  function DistanceSum(days: seq<DistanceDay>): real {
    if days == [] then 0.0 else days[0].distance + DistanceSum(days[1..])
  }

  /** `parseFloat(x.toFixed(2))`: x rounded to two decimals, halves up. */
  function ToFixed2(x: real): (r: real)
    ensures x - 0.005 < r <= x + 0.005
    ensures (r * 100.0).Floor as real == r * 100.0
  {
    Round(x * 100.0) as real / 100.0
  }

  /** `calculateCumulativeFitness`: each total is left at 0 when its list
      is missing or empty; the average is taken over the active days. */
  function CumulativeFitness(data: FitnessData): Totals {
    var hasSteps := data.steps.Some? && |data.steps.value| > 0;
    var totalSteps := if hasSteps then StepSum(data.steps.value) else 0;
    var daysActive := if hasSteps then ActiveDays(data.steps.value) else 0;
    var calories := if data.calories.Some? && |data.calories.value| > 0 then CalorieSum(data.calories.value) else 0.0;
    var distance := if data.distance.Some? && |data.distance.value| > 0 then ToFixed2(DistanceSum(data.distance.value)) else 0.0;
    var average := if daysActive > 0 then RoundDiv(totalSteps, daysActive) else 0;
    Totals(totalSteps, calories, distance, daysActive, average)
  }

  /** A missing or empty list contributes 0 to its totals. */
  lemma MissingListsAreZero(data: FitnessData)
    ensures var t := CumulativeFitness(data);
      && (data.steps.None? || data.steps.value == [] ==> t.totalSteps == 0 && t.daysActive == 0 && t.averageDailySteps == 0)
      && (data.calories.None? || data.calories.value == [] ==> t.totalCaloriesBurned == 0.0)
      && (data.distance.None? || data.distance.value == [] ==> t.totalDistanceKm == 0.0)
  {
  }

  /** Appending a day adds its steps to the total, and one active day
      exactly when it has more than the threshold. */
  lemma {:induction false} StepsAppend(days: seq<StepDay>, d: StepDay)
    ensures StepSum(days + [d]) == StepSum(days) + d.steps
    ensures ActiveDays(days + [d]) == ActiveDays(days) + (if d.steps > ActiveThreshold then 1 else 0)
  {
    if days != [] {
      assert (days + [d])[1..] == days[1..] + [d];
      StepsAppend(days[1..], d);
    }
  }

  /** The steps total is the reference sum, and the active days are the
      days above the threshold. */
  lemma TotalsOfSteps(data: FitnessData)
    requires data.steps.Some?
    ensures var t := CumulativeFitness(data);
      && t.totalSteps == StepSum(data.steps.value)
      && t.daysActive == |Filter(data.steps.value, (d: StepDay) => d.steps > ActiveThreshold)|
  {
    ActiveIsFilter(data.steps.value);
  }

  lemma {:induction false} ActiveIsFilter(days: seq<StepDay>)
    ensures ActiveDays(days) == |Filter(days, (d: StepDay) => d.steps > ActiveThreshold)|
  {
    if days != [] {
      ActiveIsFilter(days[1..]);
      assert days == [days[0]] + days[1..];
      FilterAppend([days[0]], days[1..], (d: StepDay) => d.steps > ActiveThreshold);
    }
  }

  /** With no negative counts, the steps total exceeds the threshold once
      per active day. */
  lemma {:induction false} ActiveStepsBound(days: seq<StepDay>)
    requires forall i :: 0 <= i < |days| ==> days[i].steps >= 0
    ensures StepSum(days) >= (ActiveThreshold + 1) * ActiveDays(days)
  {
    if days != [] {
      ActiveStepsBound(days[1..]);
    }
  }

  /** The average is `Math.round(totalSteps / daysActive)`. */
  lemma AverageIsRound(data: FitnessData)
    ensures var t := CumulativeFitness(data);
      t.daysActive > 0 ==> t.averageDailySteps == Round(t.totalSteps as real / t.daysActive as real)
  {
    var t := CumulativeFitness(data);
    if t.daysActive > 0 {
      RoundDivIsRound(t.totalSteps, t.daysActive);
    }
  }

  lemma RoundDivAbove(a: int, b: int)
    requires b > 0 && a >= (ActiveThreshold + 1) * b
    ensures RoundDiv(a, b) > ActiveThreshold
  {
    var n := RoundDiv(a, b);
    assert 2 * b * n > 2 * b * ActiveThreshold;
    MulCancel(2 * b, n, ActiveThreshold);
  }

  lemma MulCancel(k: int, x: int, y: int)
    requires k > 0 && k * x > k * y
    ensures x > y
  {
    assert k * (x - y) > 0;
  }

  /** With no negative counts, the average is above the threshold whenever a
      day is active, and 0 exactly when none is. */
  lemma AverageAboveThreshold(data: FitnessData)
    requires data.steps.Some? && forall i :: 0 <= i < |data.steps.value| ==> data.steps.value[i].steps >= 0
    ensures var t := CumulativeFitness(data);
      (t.daysActive > 0 ==> t.averageDailySteps > ActiveThreshold) && (t.averageDailySteps == 0 <==> t.daysActive == 0)
  {
    var t := CumulativeFitness(data);
    if t.daysActive > 0 {
      ActiveStepsBound(data.steps.value);
      RoundDivAbove(t.totalSteps, t.daysActive);
    }
  }

  // ---------------------------------------------------------------------

  /** A break in a run of dates: the two dates around it and the number of
      days missing between them. */
  datatype Gap = Gap(start: int, end: int, missingDays: int)

  /** The gap between each adjacent pair of dates not one day apart. */
  function GapsOf(s: seq<int>): seq<Gap> {
    if |s| <= 1 then []
    else
      var prev, cur := s[|s| - 2], s[|s| - 1];
      GapsOf(s[..|s| - 1]) + (if cur != prev + 1 then [Gap(prev, cur, cur - prev - 1)] else [])
  }

  /** `findDateGaps` on a value: nothing for a missing list or a single
      date, otherwise the gaps of the dates in ascending order. */
  function DateGaps(dates: Option<seq<int>>): seq<Gap> {
    if dates.None? || |dates.value| <= 1 then [] else GapsOf(Ascending(dates.value))
  }

  /** The copy sorted by date: the same dates, ascending. */
  function Ascending(dates: seq<int>): (r: seq<int>)
    ensures |r| == |dates|
    ensures forall i, j :: 0 <= i < j < |r| ==> r[i] <= r[j]
  {
    var r := Sort(dates, d => d);
    assert SortedBy(r, d => d);
    r
  }

  lemma AscendingPermutes(dates: seq<int>)
    ensures multiset(Ascending(dates)) == multiset(dates)
  {
  }

  /** The handler: a sorted copy is scanned; the input array is only
      read. */
  method FindDateGaps(dates: array?<int>) returns (gaps: seq<Gap>)
    ensures gaps == DateGaps(if dates == null then None else Some(dates[..]))
  {
    if dates == null || dates.Length <= 1 {
      return [];
    }
    gaps := ScanGaps(Ascending(dates[..]));
  }

  /** The handler's loop: each adjacent pair not one day apart adds a gap. */
  method ScanGaps(sorted: seq<int>) returns (gaps: seq<Gap>)
    ensures gaps == GapsOf(sorted)
  {
    gaps := [];
    if |sorted| <= 1 {
      return;
    }
    var i := 1;
    while i < |sorted|
      invariant 1 <= i <= |sorted|
      invariant gaps == GapsOf(sorted[..i])
    {
      var prev, cur := sorted[i - 1], sorted[i];
      GapsStep(sorted, i);
      if cur != prev + 1 {
        gaps := gaps + [Gap(prev, cur, cur - prev - 1)];
      }
      i := i + 1;
    }
    assert sorted[..i] == sorted;
  }

  /** One more date adds the gap before it, if any. */
  lemma GapsStep(s: seq<int>, i: int)
    requires 1 <= i < |s|
    ensures GapsOf(s[..i + 1]) == GapsOf(s[..i]) + (if s[i] != s[i - 1] + 1 then [Gap(s[i - 1], s[i], s[i] - s[i - 1] - 1)] else [])
  {
    assert s[..i + 1][..i] == s[..i];
  }

  /** Each gap joins two dates of the list, in order, that are not one day
      apart, and counts the days strictly between them; a repeated date
      shows as a gap of -1 days. */
  lemma {:induction false} GapShape(s: seq<int>)
    requires forall i, j :: 0 <= i < j < |s| ==> s[i] <= s[j]
    ensures |GapsOf(s)| <= if |s| == 0 then 0 else |s| - 1
    ensures forall g :: g in GapsOf(s) ==>
      && g.start in s && g.end in s && g.start <= g.end
      && g.end != g.start + 1 && g.missingDays == g.end - g.start - 1 && g.missingDays >= -1
  {
    if |s| > 1 {
      GapShape(s[..|s| - 1]);
      forall g | g in GapsOf(s[..|s| - 1]) ensures g.start in s && g.end in s {
        assert g.start in s[..|s| - 1] && g.end in s[..|s| - 1];
      }
    }
  }

  /** There are no gaps exactly when each date is the day after the
      previous one. */
  lemma {:induction false} NoGapsIffConsecutive(s: seq<int>)
    ensures GapsOf(s) == [] <==> forall i :: 0 < i < |s| ==> s[i] == s[i - 1] + 1
  {
    if |s| > 1 {
      var t := s[..|s| - 1];
      NoGapsIffConsecutive(t);
      if GapsOf(s) == [] {
        assert GapsOf(t) == [];
        forall i | 0 < i < |s| ensures s[i] == s[i - 1] + 1 {
          if i < |s| - 1 {
            assert t[i] == t[i - 1] + 1;
          }
        }
      }
    }
  }

  function MissingTotal(gaps: seq<Gap>): int {
    if gaps == [] then 0 else MissingTotal(gaps[..|gaps| - 1]) + gaps[|gaps| - 1].missingDays
  }

  lemma {:induction false} MissingTotalAppend(a: seq<Gap>, b: seq<Gap>)
    ensures MissingTotal(a + b) == MissingTotal(a) + MissingTotal(b)
  {
    if b != [] {
      assert (a + b)[..|a + b| - 1] == a + b[..|b| - 1];
      MissingTotalAppend(a, b[..|b| - 1]);
    } else {
      assert a + b == a;
    }
  }

  /** The missing days add up to the span of the dates less the days
      present. */
  lemma {:induction false} MissingSpan(s: seq<int>)
    requires |s| >= 1
    ensures MissingTotal(GapsOf(s)) == s[|s| - 1] - s[0] - (|s| - 1)
  {
    if |s| > 1 {
      var t := s[..|s| - 1];
      MissingSpan(t);
      var prev, cur := s[|s| - 2], s[|s| - 1];
      var tail := if cur != prev + 1 then [Gap(prev, cur, cur - prev - 1)] else [];
      MissingTotalAppend(GapsOf(t), tail);
      if tail != [] {
        assert MissingTotal(tail) == MissingTotal([]) + tail[0].missingDays;
      }
    }
  }

  /** `findDateGaps` as specified on the sorted dates: the gaps are those
      of the ascending sequence, their missing days add up to the span less
      the days present, and each joins two of the given dates. */
  lemma DateGapsMeans(dates: seq<int>)
    requires |dates| > 1
    ensures var s := Ascending(dates);
      && DateGaps(Some(dates)) == GapsOf(s)
      && MissingTotal(DateGaps(Some(dates))) == s[|s| - 1] - s[0] - (|s| - 1)
      && (forall g :: g in DateGaps(Some(dates)) ==> g.start in dates && g.end in dates && g.missingDays == g.end - g.start - 1)
  {
    var s := Ascending(dates);
    AscendingPermutes(dates);
    MissingSpan(s);
    GapShape(s);
    forall g | g in GapsOf(s) ensures g.start in dates && g.end in dates {
      assert g.start in multiset(s) && g.end in multiset(s);
    }
  }
}
