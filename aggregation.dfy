/**
 * The per-year tables of the dashboard script (app/main.py:57-88): the
 * cumulative distance of each activity within its year, and the annual
 * summaries with their distance-weighted average speed, converted to display
 * units and sorted by descending year.
 *
 * Dates are abstracted: each activity carries the year of its tz-aware
 * start date (used by the cumulative series), the year of its start date
 * converted to UTC (used by the summaries), and its start instant as an
 * integer for ordering.
 */
module Aggregation {
  import opened Wrappers
  import Stats
  import Numeric
  import Duration
  import Units

  datatype Activity = Activity(
    startYear: int,
    utcYear: int,
    startDate: int,
    distance: real,
    movingTime: int,
    elapsedTime: int,
    elevationGain: real,
    averageSpeed: real,
    maxSpeed: real)

  // ---------------------------------------------------------------------
  // Ascending sort by start date

  /** `j` sorts no later than `i` by ascending start date, equal dates keeping table order. */
  predicate SortsBefore(acts: seq<Activity>, j: int, i: int)
    requires 0 <= j < |acts| && 0 <= i < |acts|
  {
    acts[j].startDate < acts[i].startDate || (acts[j].startDate == acts[i].startDate && j <= i)
  }

  /** `o` lists distinct positions of `acts` in ascending sort order. */
  predicate Sorted(acts: seq<Activity>, o: seq<nat>)
  {
    (forall k :: 0 <= k < |o| ==> o[k] < |acts|) &&
    (forall k, l :: 0 <= k < l < |o| ==> o[k] != o[l] && SortsBefore(acts, o[k], o[l]))
  }

  /** Position `i` put into its place in a sorted list of earlier positions. */
  function Insert(acts: seq<Activity>, o: seq<nat>, i: nat): (r: seq<nat>)
    requires i < |acts| && Sorted(acts, o)
    requires forall k :: 0 <= k < |o| ==> o[k] < i
    ensures |r| == |o| + 1
    ensures forall x :: x in r <==> x in o || x == i
    ensures Sorted(acts, r)
  {
    if o == [] then [i]
    else
      var last := o[|o| - 1];
      var init := o[..|o| - 1];
      if SortsBefore(acts, last, i) then o + [i]
      else
        assert o == init + [last];
        var front := Insert(acts, init, i);
        InsertBeforeLast(acts, init, last, i, front);
        front + [last]
  }

  lemma {:induction false} InsertBeforeLast(acts: seq<Activity>, init: seq<nat>, last: nat, i: nat, front: seq<nat>)
    requires i < |acts| && Sorted(acts, init + [last])
    requires forall k :: 0 <= k < |init| ==> init[k] < i
    requires last < i && !SortsBefore(acts, last, i)
    requires Sorted(acts, front)
    requires forall x :: x in front <==> x in init || x == i
    ensures Sorted(acts, front + [last])
  {
    var o := init + [last];
    forall k | 0 <= k < |front|
      ensures front[k] != last && SortsBefore(acts, front[k], last)
    {
      assert front[k] in front;
      if front[k] != i {
        var m :| 0 <= m < |init| && init[m] == front[k];
        assert o[m] == front[k] && o[|init|] == last;
      }
    }
  }

  /** `sort_values("start_date")` as the order of positions `0..n-1`. */
  function SortOrder(acts: seq<Activity>, n: nat): (o: seq<nat>)
    requires n <= |acts|
    ensures |o| == n && Sorted(acts, o)
    ensures forall x :: x in o <==> 0 <= x < n
  {
    if n == 0 then []
    else
      var prev := SortOrder(acts, n - 1);
      assert forall k :: 0 <= k < |prev| ==> prev[k] in prev;
      Insert(acts, prev, n - 1)
  }

  function IndexOf(o: seq<nat>, x: nat): (k: nat)
    requires x in o
    ensures k < |o| && o[k] == x
  {
    if o[|o| - 1] == x then |o| - 1 else IndexOf(o[..|o| - 1], x)
  }

  // ---------------------------------------------------------------------
  // Annual cumulative distance

  function Elems(s: seq<nat>): set<nat>
  {
    set x | x in s
  }

  /** Distances of the positions in `s` whose activity started in year `y`, summed in order. */
  function YearSumOver(acts: seq<Activity>, s: seq<nat>, y: int): real
    requires forall k :: 0 <= k < |s| ==> s[k] < |acts|
  {
    if s == [] then 0.0
    else
      var x := s[|s| - 1];
      YearSumOver(acts, s[..|s| - 1], y) + if acts[x].startYear == y then acts[x].distance else 0.0
  }

  /** The positions up to and including `i`'s place in the ascending sort order. */
  function SortedPrefix(acts: seq<Activity>, i: nat): (p: seq<nat>)
    requires i < |acts|
    ensures forall k :: 0 <= k < |p| ==> p[k] < |acts|
    ensures forall k, l :: 0 <= k < l < |p| ==> p[k] != p[l]
  {
    var o := SortOrder(acts, |acts|);
    o[..IndexOf(o, i) + 1]
  }

  /**
   * `sort_values("start_date").groupby("start_year")["distance"].cumsum()`,
   * aligned back to table positions.
   */
  function AnnualCumulativeDistance(acts: seq<Activity>): (r: seq<real>)
    ensures |r| == |acts|
  {
    seq(|acts|, i requires 0 <= i < |acts| => YearSumOver(acts, SortedPrefix(acts, i), acts[i].startYear))
  }

  /** The distances of the positions below `n` that lie in `s` and whose activity started in year `y`. */
  function IndicatorSum(acts: seq<Activity>, s: set<nat>, y: int, n: nat): real
    requires n <= |acts|
  {
    if n == 0 then 0.0
    else IndicatorSum(acts, s, y, n - 1) + if n - 1 in s && acts[n - 1].startYear == y then acts[n - 1].distance else 0.0
  }

  /** The positions that sort no later than `i`. */
  function Preceding(acts: seq<Activity>, i: int): set<nat>
    requires 0 <= i < |acts|
  {
    set j: nat | j < |acts| && SortsBefore(acts, j, i)
  }

  /** Reference definition: the distances of the same-year activities that sort no later than `i`. */
  function RunningTotal(acts: seq<Activity>, i: int): real
    requires 0 <= i < |acts|
  {
    IndicatorSum(acts, Preceding(acts, i), acts[i].startYear, |acts|)
  }

  /** The total distance of the first `n` activities that started in year `y`. */
  function YearDistance(acts: seq<Activity>, y: int, n: nat): real
    requires n <= |acts|
  {
    if n == 0 then 0.0
    else YearDistance(acts, y, n - 1) + if acts[n - 1].startYear == y then acts[n - 1].distance else 0.0
  }

  lemma {:induction false} IndicatorAddPoint(acts: seq<Activity>, s: set<nat>, x: nat, y: int, n: nat)
    requires n <= |acts| && x !in s
    ensures IndicatorSum(acts, s + {x}, y, n) ==
      IndicatorSum(acts, s, y, n) + if x < n && acts[x].startYear == y then acts[x].distance else 0.0
  {
    if n > 0 {
      IndicatorAddPoint(acts, s, x, y, n - 1);
    }
  }

  lemma {:induction false} IndicatorEmpty(acts: seq<Activity>, y: int, n: nat)
    requires n <= |acts|
    ensures IndicatorSum(acts, {}, y, n) == 0.0
  {
    if n > 0 {
      IndicatorEmpty(acts, y, n - 1);
    }
  }

  /** Only the same-year positions below `n` matter. */
  lemma {:induction false} IndicatorCongruent(acts: seq<Activity>, s: set<nat>, t: set<nat>, y: int, n: nat)
    requires n <= |acts|
    requires forall j :: 0 <= j < n && acts[j].startYear == y ==> (j in s <==> j in t)
    ensures IndicatorSum(acts, s, y, n) == IndicatorSum(acts, t, y, n)
  {
    if n > 0 {
      IndicatorCongruent(acts, s, t, y, n - 1);
    }
  }

  /** With non-negative distances, more positions never give less. */
  lemma {:induction false} IndicatorMonotone(acts: seq<Activity>, s: set<nat>, t: set<nat>, y: int, n: nat)
    requires n <= |acts|
    requires forall j :: 0 <= j < n ==> acts[j].distance >= 0.0
    requires forall j :: 0 <= j < n && acts[j].startYear == y && j in s ==> j in t
    ensures IndicatorSum(acts, s, y, n) <= IndicatorSum(acts, t, y, n)
  {
    if n > 0 {
      IndicatorMonotone(acts, s, t, y, n - 1);
    }
  }

  /** Over every position, the sum is the year's total distance. */
  lemma {:induction false} IndicatorAll(acts: seq<Activity>, s: set<nat>, y: int, n: nat)
    requires n <= |acts|
    requires forall j :: 0 <= j < n && acts[j].startYear == y ==> j in s
    ensures IndicatorSum(acts, s, y, n) == YearDistance(acts, y, n)
  {
    if n > 0 {
      IndicatorAll(acts, s, y, n - 1);
    }
  }

  /** Summing along distinct positions in order is summing over the set of those positions. */
  lemma {:induction false} YearSumOverSet(acts: seq<Activity>, s: seq<nat>, y: int)
    requires forall k :: 0 <= k < |s| ==> s[k] < |acts|
    requires forall k, l :: 0 <= k < l < |s| ==> s[k] != s[l]
    ensures YearSumOver(acts, s, y) == IndicatorSum(acts, Elems(s), y, |acts|)
  {
    if s == [] {
      IndicatorEmpty(acts, y, |acts|);
      assert Elems(s) == {};
    } else {
      var init := s[..|s| - 1];
      var x := s[|s| - 1];
      YearSumOverSet(acts, init, y);
      assert Elems(s) == Elems(init) + {x};
      IndicatorAddPoint(acts, Elems(init), x, y, |acts|);
    }
  }

  /** The positions up to and including `i`'s place in the sort order are exactly those sorting no later than `i`. */
  lemma {:induction false} SortedPrefixIsPreceding(acts: seq<Activity>, i: nat)
    requires i < |acts|
    ensures Elems(SortedPrefix(acts, i)) == Preceding(acts, i)
  {
    var o := SortOrder(acts, |acts|);
    var k := IndexOf(o, i);
    forall x | x in Preceding(acts, i)
      ensures x in o[..k + 1]
    {
      assert x in o;
      var m := IndexOf(o, x);
      assert m <= k;
      assert o[..k + 1][m] == x;
    }
  }

  /**
   * Each activity's annual cumulative distance is the sum of the distances
   * of the activities of the same year that sort no later than it.
   */
  lemma {:induction false} AnnualCumulativeIsRunningTotal(acts: seq<Activity>, i: nat)
    requires i < |acts|
    ensures AnnualCumulativeDistance(acts)[i] == RunningTotal(acts, i)
  {
    SortedPrefixIsPreceding(acts, i);
    YearSumOverSet(acts, SortedPrefix(acts, i), acts[i].startYear);
  }

  /** The first activity of a year (in sort order) gets its own distance: the sum restarts every year. */
  lemma {:induction false} AnnualCumulativeRestarts(acts: seq<Activity>, i: nat)
    requires i < |acts|
    requires forall j :: 0 <= j < |acts| && j != i && acts[j].startYear == acts[i].startYear ==> !SortsBefore(acts, j, i)
    ensures AnnualCumulativeDistance(acts)[i] == acts[i].distance
  {
    AnnualCumulativeIsRunningTotal(acts, i);
    var y := acts[i].startYear;
    PrecedingOnlySelf(acts, i);
    IndicatorCongruent(acts, Preceding(acts, i), {i}, y, |acts|);
    IndicatorSingleton(acts, i, y, |acts|);
  }

  /** When no other activity of its year sorts before `i`, `i` is the only one of its year preceding itself. */
  lemma {:induction false} PrecedingOnlySelf(acts: seq<Activity>, i: nat)
    requires i < |acts|
    requires forall j :: 0 <= j < |acts| && j != i && acts[j].startYear == acts[i].startYear ==> !SortsBefore(acts, j, i)
    ensures forall j :: 0 <= j < |acts| && acts[j].startYear == acts[i].startYear ==> (j in Preceding(acts, i) <==> j in {i})
  {
  }

  /** Over a single position the sum is that position's distance when its year matches. */
  lemma {:induction false} IndicatorSingleton(acts: seq<Activity>, x: nat, y: int, n: nat)
    requires x < n <= |acts| && acts[x].startYear == y
    ensures IndicatorSum(acts, {x}, y, n) == acts[x].distance
  {
    IndicatorAddPoint(acts, {}, x, y, n);
    IndicatorEmpty(acts, y, n);
    assert {} + {x} == {x};
  }

  /** With non-negative distances the cumulative distance never decreases within a year. */
  lemma {:induction false} AnnualCumulativeMonotone(acts: seq<Activity>, j: nat, i: nat)
    requires j < |acts| && i < |acts|
    requires forall x :: 0 <= x < |acts| ==> acts[x].distance >= 0.0
    requires acts[j].startYear == acts[i].startYear && SortsBefore(acts, j, i)
    ensures AnnualCumulativeDistance(acts)[j] <= AnnualCumulativeDistance(acts)[i]
  {
    AnnualCumulativeIsRunningTotal(acts, i);
    AnnualCumulativeIsRunningTotal(acts, j);
    RunningTotalMonotone(acts, j, i);
  }

  lemma {:induction false} RunningTotalMonotone(acts: seq<Activity>, j: nat, i: nat)
    requires j < |acts| && i < |acts|
    requires forall x :: 0 <= x < |acts| ==> acts[x].distance >= 0.0
    requires acts[j].startYear == acts[i].startYear && SortsBefore(acts, j, i)
    ensures RunningTotal(acts, j) <= RunningTotal(acts, i)
  {
    PrecedingGrows(acts, j, i);
    IndicatorMonotone(acts, Preceding(acts, j), Preceding(acts, i), acts[i].startYear, |acts|);
  }

  /** Whatever sorts no later than `j` sorts no later than any `i` that `j` precedes. */
  lemma {:induction false} PrecedingGrows(acts: seq<Activity>, j: nat, i: nat)
    requires j < |acts| && i < |acts| && SortsBefore(acts, j, i)
    ensures forall x :: x in Preceding(acts, j) ==> x in Preceding(acts, i)
  {
  }

  /** The last activity of a year (in sort order) carries the year's total distance. */
  lemma {:induction false} AnnualCumulativeEndsAtTotal(acts: seq<Activity>, i: nat)
    requires i < |acts|
    requires forall j :: 0 <= j < |acts| && acts[j].startYear == acts[i].startYear ==> SortsBefore(acts, j, i)
    ensures AnnualCumulativeDistance(acts)[i] == YearDistance(acts, acts[i].startYear, |acts|)
  {
    AnnualCumulativeIsRunningTotal(acts, i);
    IndicatorAll(acts, Preceding(acts, i), acts[i].startYear, |acts|);
  }

  // ---------------------------------------------------------------------
  // Annual summaries

  /** The activities whose UTC start year is `y`, in table order: one `groupby` group. */
  function InUtcYear(acts: seq<Activity>, y: int): (r: seq<Activity>)
    ensures forall a :: a in r <==> a in acts && a.utcYear == y
  {
    if acts == [] then []
    else
      var init := acts[..|acts| - 1];
      var last := acts[|acts| - 1];
      assert acts == init + [last];
      var prev := InUtcYear(init, y);
      if last.utcYear == y then prev + [last] else prev
  }

  predicate StrictlyDescending(ys: seq<int>)
  {
    forall k, l :: 0 <= k < l < |ys| ==> ys[k] > ys[l]
  }

  /** `y` added to a strictly descending list of years unless already present. */
  function DescInsert(ys: seq<int>, y: int): (r: seq<int>)
    requires StrictlyDescending(ys)
    ensures StrictlyDescending(r)
    ensures forall z :: z in r <==> z in ys || z == y
  {
    if y in ys then ys
    else if ys == [] || ys[0] < y then [y] + ys
    else
      assert forall z :: z in ys <==> z == ys[0] || z in ys[1..];
      var rest := DescInsert(ys[1..], y);
      DescendingHead(ys, rest, y);
      [ys[0]] + rest
  }

  /** Below the head of a strictly descending list lies everything in its tail, and any other smaller year. */
  lemma {:induction false} DescendingHead(ys: seq<int>, rest: seq<int>, y: int)
    requires StrictlyDescending(ys) && ys != [] && y < ys[0]
    requires forall z :: z in rest <==> z in ys[1..] || z == y
    ensures forall k :: 0 <= k < |rest| ==> rest[k] < ys[0]
  {
    forall k | 0 <= k < |rest|
      ensures rest[k] < ys[0]
    {
      if rest[k] != y {
        assert rest[k] in ys[1..];
        var i :| 0 <= i < |ys| - 1 && ys[1..][i] == rest[k];
        assert ys[i + 1] == rest[k];
      }
    }
  }

  /** The group keys in the order of the final table: each UTC year once, latest first. */
  function SummaryYears(acts: seq<Activity>): (ys: seq<int>)
    ensures StrictlyDescending(ys)
    ensures forall y :: y in ys <==> exists a :: a in acts && a.utcYear == y
  {
    if acts == [] then []
    else
      var init := acts[..|acts| - 1];
      var last := acts[|acts| - 1];
      assert acts == init + [last];
      DescInsert(SummaryYears(init), last.utcYear)
  }

  function Distances(xs: seq<Activity>): (r: seq<real>)
    ensures |r| == |xs| && forall k :: 0 <= k < |xs| ==> r[k] == xs[k].distance
  {
    seq(|xs|, k requires 0 <= k < |xs| => xs[k].distance)
  }

  function MovingTimes(xs: seq<Activity>): (r: seq<int>)
    ensures |r| == |xs| && forall k :: 0 <= k < |xs| ==> r[k] == xs[k].movingTime
  {
    seq(|xs|, k requires 0 <= k < |xs| => xs[k].movingTime)
  }

  function ElapsedTimes(xs: seq<Activity>): (r: seq<int>)
    ensures |r| == |xs| && forall k :: 0 <= k < |xs| ==> r[k] == xs[k].elapsedTime
  {
    seq(|xs|, k requires 0 <= k < |xs| => xs[k].elapsedTime)
  }

  function ElevationGains(xs: seq<Activity>): (r: seq<real>)
    ensures |r| == |xs| && forall k :: 0 <= k < |xs| ==> r[k] == xs[k].elevationGain
  {
    seq(|xs|, k requires 0 <= k < |xs| => xs[k].elevationGain)
  }

  function AverageSpeeds(xs: seq<Activity>): (r: seq<real>)
    ensures |r| == |xs| && forall k :: 0 <= k < |xs| ==> r[k] == xs[k].averageSpeed
  {
    seq(|xs|, k requires 0 <= k < |xs| => xs[k].averageSpeed)
  }

  function MaxSpeeds(xs: seq<Activity>): (r: seq<real>)
    ensures |r| == |xs| && forall k :: 0 <= k < |xs| ==> r[k] == xs[k].maxSpeed
  {
    seq(|xs|, k requires 0 <= k < |xs| => xs[k].maxSpeed)
  }

  /**
   * `(average_speed * distance).sum() / distance.sum()` with numpy's
   * division: a zero denominator gives NaN (zero numerator) or a signed
   * infinity.
   */
  function WeightedSpeed(xs: seq<Activity>): (c: Units.Cell)
    ensures !c.Str? && !c.Int?
  {
    var num := Stats.Sum(Stats.Products(AverageSpeeds(xs), Distances(xs)));
    var den := Stats.Sum(Distances(xs));
    if den != 0.0 then Units.Real(num / den)
    else if num == 0.0 then Units.NaN
    else Units.Inf(num < 0.0)
  }

  /** One row of `annual_summaries`. */
  datatype Summary = Summary(
    year: int,
    nActivities: nat,
    totalDistance: real,
    totalMovingTime: int,
    totalElapsedTime: int,
    totalElevationGain: real,
    maxSpeed: real,
    averageSpeed: real,
    averageSpeedWeighted: Units.Cell)

  /** The `agg` call and the weighted speed for one group. */
  function Summarize(y: int, xs: seq<Activity>): Summary
    requires xs != []
  {
    Summary(y, |xs|,
      Stats.Sum(Distances(xs)), Stats.IntSum(MovingTimes(xs)), Stats.IntSum(ElapsedTimes(xs)),
      Stats.Sum(ElevationGains(xs)), Stats.Max(MaxSpeeds(xs)), Stats.Mean(AverageSpeeds(xs)),
      WeightedSpeed(xs))
  }

  /** The summary rows, one per UTC year, latest year first. */
  function AnnualSummaries(acts: seq<Activity>): (rows: seq<Summary>)
    ensures |rows| == |SummaryYears(acts)|
    ensures forall k :: 0 <= k < |rows| ==> rows[k].year == SummaryYears(acts)[k]
    ensures forall k :: 0 <= k < |rows| ==> !rows[k].averageSpeedWeighted.Str?
  {
    var ys := SummaryYears(acts);
    seq(|ys|, k requires 0 <= k < |ys| =>
      YearGroupNonEmpty(acts, ys[k]);
      Summarize(ys[k], InUtcYear(acts, ys[k])))
  }

  /** Every summary year has at least one activity. */
  lemma {:induction false} YearGroupNonEmpty(acts: seq<Activity>, y: int)
    requires y in SummaryYears(acts)
    ensures InUtcYear(acts, y) != []
  {
    var a :| a in acts && a.utcYear == y;
    assert a in InUtcYear(acts, y);
  }

  /** Row `k` summarises the activities of the `k`-th year, of which there is at least one. */
  lemma {:induction false} AnnualSummaryRow(acts: seq<Activity>, k: nat)
    requires k < |SummaryYears(acts)|
    ensures var y := SummaryYears(acts)[k];
      InUtcYear(acts, y) != [] && AnnualSummaries(acts)[k] == Summarize(y, InUtcYear(acts, y))
  {
    YearGroupNonEmpty(acts, SummaryYears(acts)[k]);
  }

  /** The summary rows are keyed by strictly descending years. */
  lemma {:induction false} AnnualSummaryYearsDescending(acts: seq<Activity>)
    ensures var rows := AnnualSummaries(acts);
      forall k, l :: 0 <= k < l < |rows| ==> rows[k].year > rows[l].year
  {
  }

  /** Every summary row belongs to a UTC year in which some activity starts. */
  lemma {:induction false} AnnualSummaryYearsOccur(acts: seq<Activity>)
    ensures var rows := AnnualSummaries(acts);
      forall k :: 0 <= k < |rows| ==> exists a :: a in acts && a.utcYear == rows[k].year
  {
    var rows := AnnualSummaries(acts);
    var ys := SummaryYears(acts);
    forall k | 0 <= k < |rows|
      ensures exists a :: a in acts && a.utcYear == rows[k].year
    {
      assert ys[k] in ys;
    }
  }

  /** Every activity's UTC year has a summary row. */
  lemma {:induction false} AnnualSummaryYearsComplete(acts: seq<Activity>)
    ensures var rows := AnnualSummaries(acts);
      forall a :: a in acts ==> exists k :: 0 <= k < |rows| && rows[k].year == a.utcYear
  {
    var rows := AnnualSummaries(acts);
    var ys := SummaryYears(acts);
    forall a | a in acts
      ensures exists k :: 0 <= k < |rows| && rows[k].year == a.utcYear
    {
      assert a.utcYear in ys;
      var k :| 0 <= k < |ys| && ys[k] == a.utcYear;
      assert rows[k].year == a.utcYear;
    }
  }

  // Group sizes add up to the number of activities.

  /** Total of the `n_activities` column. */
  function TotalActivities(rows: seq<Summary>): nat
  {
    if rows == [] then 0 else TotalActivities(rows[..|rows| - 1]) + rows[|rows| - 1].nActivities
  }

  /** Sizes of the groups of the first `n` years of `ys`. */
  function GroupSizes(acts: seq<Activity>, ys: seq<int>, n: nat): nat
    requires n <= |ys|
  {
    if n == 0 then 0 else GroupSizes(acts, ys, n - 1) + |InUtcYear(acts, ys[n - 1])|
  }

  /** How often `y` occurs among the first `n` entries of `ys`. */
  function Occurrences(ys: seq<int>, y: int, n: nat): nat
    requires n <= |ys|
  {
    if n == 0 then 0 else Occurrences(ys, y, n - 1) + if ys[n - 1] == y then 1 else 0
  }

  lemma {:induction false} GroupSizesEmpty(ys: seq<int>, n: nat)
    requires n <= |ys|
    ensures GroupSizes([], ys, n) == 0
  {
    if n > 0 {
      GroupSizesEmpty(ys, n - 1);
    }
  }

  /** Adding one activity grows the groups by the number of times its year is listed. */
  lemma {:induction false} GroupSizesStep(acts: seq<Activity>, ys: seq<int>, n: nat)
    requires acts != [] && n <= |ys|
    ensures GroupSizes(acts, ys, n)
      == GroupSizes(acts[..|acts| - 1], ys, n) + Occurrences(ys, acts[|acts| - 1].utcYear, n)
  {
    if n > 0 {
      GroupSizesStep(acts, ys, n - 1);
    }
  }

  lemma {:induction false} OccurrencesDistinct(ys: seq<int>, y: int, n: nat)
    requires StrictlyDescending(ys) && n <= |ys|
    ensures Occurrences(ys, y, n) == if y in ys[..n] then 1 else 0
  {
    if n > 0 {
      OccurrencesDistinct(ys, y, n - 1);
      assert ys[..n] == ys[..n - 1] + [ys[n - 1]];
      if ys[n - 1] == y {
        assert y !in ys[..n - 1];
      }
    }
  }

  /** Over a list of distinct years covering every activity, the groups partition the activities. */
  lemma {:induction false} GroupSizesTotal(acts: seq<Activity>, ys: seq<int>)
    requires StrictlyDescending(ys)
    requires forall a :: a in acts ==> a.utcYear in ys
    ensures GroupSizes(acts, ys, |ys|) == |acts|
  {
    if acts == [] {
      GroupSizesEmpty(ys, |ys|);
    } else {
      var init := acts[..|acts| - 1];
      var last := acts[|acts| - 1];
      assert forall a :: a in init ==> a in acts;
      GroupSizesTotal(init, ys);
      GroupSizesStep(acts, ys, |ys|);
      assert last in acts;
      assert ys[..|ys|] == ys;
      OccurrencesDistinct(ys, last.utcYear, |ys|);
    }
  }

  /** Rows whose counts are the sizes of the groups of `ys` total those group sizes. */
  lemma {:induction false} TotalActivitiesPrefix(rows: seq<Summary>, acts: seq<Activity>, ys: seq<int>, n: nat)
    requires |rows| == |ys| && n <= |rows|
    requires forall k :: 0 <= k < |rows| ==> rows[k].nActivities == |InUtcYear(acts, ys[k])|
    ensures TotalActivities(rows[..n]) == GroupSizes(acts, ys, n)
  {
    if n > 0 {
      TotalActivitiesPrefix(rows, acts, ys, n - 1);
      assert rows[..n][..n - 1] == rows[..n - 1];
    }
  }

  /** Every activity is counted in exactly one summary row. */
  lemma {:induction false} AnnualSummaryCounts(acts: seq<Activity>)
    ensures TotalActivities(AnnualSummaries(acts)) == |acts|
  {
    var rows := AnnualSummaries(acts);
    var ys := SummaryYears(acts);
    forall k | 0 <= k < |rows|
      ensures rows[k].nActivities == |InUtcYear(acts, ys[k])|
    {
      AnnualSummaryRow(acts, k);
    }
    TotalActivitiesPrefix(rows, acts, ys, |rows|);
    assert rows[..|rows|] == rows;
    GroupSizesTotal(acts, ys);
  }

  // Per-group totals against a reference: the filtered sum over all activities.

  function Values<T>(xs: seq<Activity>, f: Activity -> T): (r: seq<T>)
    ensures |r| == |xs| && forall k :: 0 <= k < |xs| ==> r[k] == f(xs[k])
  {
    seq(|xs|, k requires 0 <= k < |xs| => f(xs[k]))
  }

  function DistanceOf(a: Activity): real { a.distance }
  function ElevationGainOf(a: Activity): real { a.elevationGain }
  function MovingTimeOf(a: Activity): int { a.movingTime }
  function ElapsedTimeOf(a: Activity): int { a.elapsedTime }

  /** Reference definition: `f` summed over the activities whose UTC year is `y`, in table order. */
  function UtcYearTotal(acts: seq<Activity>, y: int, f: Activity -> real): real
  {
    if acts == [] then 0.0
    else UtcYearTotal(acts[..|acts| - 1], y, f) + if acts[|acts| - 1].utcYear == y then f(acts[|acts| - 1]) else 0.0
  }

  function UtcYearIntTotal(acts: seq<Activity>, y: int, f: Activity -> int): int
  {
    if acts == [] then 0
    else UtcYearIntTotal(acts[..|acts| - 1], y, f) + if acts[|acts| - 1].utcYear == y then f(acts[|acts| - 1]) else 0
  }

  /** Summing a field over a year's group is summing it over all activities of that year. */
  lemma {:induction false} GroupSum(acts: seq<Activity>, y: int, f: Activity -> real)
    ensures Stats.Sum(Values(InUtcYear(acts, y), f)) == UtcYearTotal(acts, y, f)
  {
    if acts != [] {
      var init, last := acts[..|acts| - 1], acts[|acts| - 1];
      GroupSum(init, y, f);
      if last.utcYear == y {
        var v := Values(InUtcYear(acts, y), f);
        assert v[..|v| - 1] == Values(InUtcYear(init, y), f);
      }
    }
  }

  lemma {:induction false} GroupIntSum(acts: seq<Activity>, y: int, f: Activity -> int)
    ensures Stats.IntSum(Values(InUtcYear(acts, y), f)) == UtcYearIntTotal(acts, y, f)
  {
    if acts != [] {
      var init, last := acts[..|acts| - 1], acts[|acts| - 1];
      GroupIntSum(init, y, f);
      if last.utcYear == y {
        var v := Values(InUtcYear(acts, y), f);
        assert v[..|v| - 1] == Values(InUtcYear(init, y), f);
      }
    }
  }

  /** The totals of a group are the sums of its activities' fields. */
  lemma {:induction false} GroupTotals(y: int, xs: seq<Activity>)
    requires xs != []
    ensures var s := Summarize(y, xs);
      s.totalDistance == Stats.Sum(Values(xs, DistanceOf)) &&
      s.totalElevationGain == Stats.Sum(Values(xs, ElevationGainOf)) &&
      s.totalMovingTime == Stats.IntSum(Values(xs, MovingTimeOf)) &&
      s.totalElapsedTime == Stats.IntSum(Values(xs, ElapsedTimeOf))
  {
    assert Distances(xs) == Values(xs, DistanceOf);
    assert ElevationGains(xs) == Values(xs, ElevationGainOf);
    assert MovingTimes(xs) == Values(xs, MovingTimeOf);
    assert ElapsedTimes(xs) == Values(xs, ElapsedTimeOf);
  }

  /**
   * A row's total distance, elevation gain, moving time and elapsed time are
   * the sums of those fields over all activities of its UTC year.
   */
  lemma {:induction false} AnnualSummaryTotals(acts: seq<Activity>, k: nat)
    requires k < |AnnualSummaries(acts)|
    ensures var r := AnnualSummaries(acts)[k];
      r.totalDistance == UtcYearTotal(acts, r.year, DistanceOf) &&
      r.totalElevationGain == UtcYearTotal(acts, r.year, ElevationGainOf) &&
      r.totalMovingTime == UtcYearIntTotal(acts, r.year, MovingTimeOf) &&
      r.totalElapsedTime == UtcYearIntTotal(acts, r.year, ElapsedTimeOf)
  {
    var r := AnnualSummaries(acts)[k];
    var xs := InUtcYear(acts, r.year);
    AnnualSummaryRow(acts, k);
    GroupTotals(r.year, xs);
    GroupSum(acts, r.year, DistanceOf);
    GroupSum(acts, r.year, ElevationGainOf);
    GroupIntSum(acts, r.year, MovingTimeOf);
    GroupIntSum(acts, r.year, ElapsedTimeOf);
  }

  // Per-group statistics.

  lemma {:induction false} GroupMaxSpeed(y: int, xs: seq<Activity>)
    requires xs != []
    ensures var s := Summarize(y, xs);
      (forall a :: a in xs ==> a.maxSpeed <= s.maxSpeed) &&
      (exists a :: a in xs && a.maxSpeed == s.maxSpeed)
  {
    var m := Stats.Max(MaxSpeeds(xs));
    var i :| 0 <= i < |xs| && MaxSpeeds(xs)[i] == m;
    assert xs[i] in xs;
  }

  lemma {:induction false} GroupAverageSpeed(y: int, xs: seq<Activity>)
    requires xs != []
    ensures var s := Summarize(y, xs);
      exists a, b :: a in xs && b in xs && a.averageSpeed <= s.averageSpeed <= b.averageSpeed
  {
    var v := AverageSpeeds(xs);
    Stats.MeanBounds(v);
    var a, b := SlowestAndFastest(xs);
    assert Summarize(y, xs).averageSpeed == Stats.Mean(v);
  }

  /** Activities of the group with the least and the greatest `average_speed`. */
  lemma {:induction false} SlowestAndFastest(xs: seq<Activity>) returns (a: Activity, b: Activity)
    requires xs != []
    ensures a in xs && a.averageSpeed == Stats.Min(AverageSpeeds(xs))
    ensures b in xs && b.averageSpeed == Stats.Max(AverageSpeeds(xs))
  {
    var v := AverageSpeeds(xs);
    var i :| 0 <= i < |xs| && v[i] == Stats.Min(v);
    var j :| 0 <= j < |xs| && v[j] == Stats.Max(v);
    a, b := xs[i], xs[j];
  }

  lemma {:induction false} PositiveTotalDistance(xs: seq<Activity>)
    requires forall a :: a in xs ==> a.distance >= 0.0
    requires exists a :: a in xs && a.distance > 0.0
    ensures Stats.Sum(Distances(xs)) > 0.0
  {
    var p :| p in xs && p.distance > 0.0;
    var pi :| 0 <= pi < |xs| && xs[pi] == p;
    assert forall k :: 0 <= k < |xs| ==> xs[k] in xs;
    Stats.SumAtLeastTerm(Distances(xs), pi);
  }

  /** With non-negative distances of positive total, the weighted speed lies between the least and the greatest speed. */
  lemma {:induction false} WeightedSpeedBetween(xs: seq<Activity>)
    requires xs != []
    requires forall k :: 0 <= k < |xs| ==> xs[k].distance >= 0.0
    requires Stats.Sum(Distances(xs)) > 0.0
    ensures WeightedSpeed(xs).Real?
    ensures Stats.Min(AverageSpeeds(xs)) <= WeightedSpeed(xs).r <= Stats.Max(AverageSpeeds(xs))
  {
    var v, w := AverageSpeeds(xs), Distances(xs);
    Stats.WeightedMeanBounds(v, w);
    assert WeightedSpeed(xs) == Units.Real(Stats.Sum(Stats.Products(v, w)) / Stats.Sum(w));
  }

  lemma {:induction false} GroupWeightedSpeed(xs: seq<Activity>)
    requires xs != []
    requires forall a :: a in xs ==> a.distance >= 0.0
    requires exists a :: a in xs && a.distance > 0.0
    ensures WeightedSpeed(xs).Real?
    ensures exists a, b :: a in xs && b in xs && a.averageSpeed <= WeightedSpeed(xs).r <= b.averageSpeed
  {
    PositiveTotalDistance(xs);
    assert forall k :: 0 <= k < |xs| ==> xs[k] in xs;
    WeightedSpeedBetween(xs);
    var a, b := SlowestAndFastest(xs);
  }

  lemma {:induction false} GroupWeightedSpeedUndefined(xs: seq<Activity>)
    requires forall a :: a in xs ==> a.distance == 0.0
    ensures WeightedSpeed(xs) == Units.NaN
  {
    assert forall k :: 0 <= k < |xs| ==> xs[k] in xs;
    Stats.SumBounds(Distances(xs), 0.0, 0.0);
    Stats.WeightedSumZeroWeights(AverageSpeeds(xs), Distances(xs));
  }

  // The same facts for each row of the summary, in terms of the activities of its year.

  /** A row's maximum speed is the largest `max_speed` among the activities of its UTC year. */
  lemma {:induction false} AnnualSummaryMaxSpeed(acts: seq<Activity>, k: nat)
    requires k < |AnnualSummaries(acts)|
    ensures var r := AnnualSummaries(acts)[k];
      (forall a :: a in acts && a.utcYear == r.year ==> a.maxSpeed <= r.maxSpeed) &&
      (exists a :: a in acts && a.utcYear == r.year && a.maxSpeed == r.maxSpeed)
  {
    var r := AnnualSummaries(acts)[k];
    var xs := InUtcYear(acts, r.year);
    AnnualSummaryRow(acts, k);
    GroupMaxSpeed(r.year, xs);
  }

  /** A row's mean speed lies between the slowest and the fastest `average_speed` of its UTC year. */
  lemma {:induction false} AnnualSummaryAverageSpeed(acts: seq<Activity>, k: nat)
    requires k < |AnnualSummaries(acts)|
    ensures var r := AnnualSummaries(acts)[k];
      exists a, b :: a in acts && a.utcYear == r.year && b in acts && b.utcYear == r.year &&
        a.averageSpeed <= r.averageSpeed <= b.averageSpeed
  {
    var r := AnnualSummaries(acts)[k];
    var xs := InUtcYear(acts, r.year);
    AnnualSummaryRow(acts, k);
    GroupAverageSpeed(r.year, xs);
  }

  /**
   * When the year's distances are non-negative and not all zero, the
   * distance-weighted speed is a number between the slowest and the fastest
   * `average_speed` of that year.
   */
  lemma {:induction false} AnnualSummaryWeightedSpeed(acts: seq<Activity>, k: nat)
    requires k < |AnnualSummaries(acts)|
    requires forall a :: a in acts && a.utcYear == AnnualSummaries(acts)[k].year ==> a.distance >= 0.0
    requires exists a :: a in acts && a.utcYear == AnnualSummaries(acts)[k].year && a.distance > 0.0
    ensures var r := AnnualSummaries(acts)[k];
      r.averageSpeedWeighted.Real? &&
      exists a, b :: a in acts && a.utcYear == r.year && b in acts && b.utcYear == r.year &&
        a.averageSpeed <= r.averageSpeedWeighted.r <= b.averageSpeed
  {
    var r := AnnualSummaries(acts)[k];
    RowWeightedSpeed(acts, k);
    GroupWeightedSpeed(InUtcYear(acts, r.year));
  }

  lemma {:induction false} RowWeightedSpeed(acts: seq<Activity>, k: nat)
    requires k < |AnnualSummaries(acts)|
    ensures var r := AnnualSummaries(acts)[k];
      InUtcYear(acts, r.year) != [] && r.averageSpeedWeighted == WeightedSpeed(InUtcYear(acts, r.year))
  {
    AnnualSummaryRow(acts, k);
  }

  /** A year whose activities all have zero distance has an undefined (NaN) weighted speed. */
  lemma {:induction false} AnnualSummaryWeightedSpeedUndefined(acts: seq<Activity>, k: nat)
    requires k < |AnnualSummaries(acts)|
    requires forall a :: a in acts && a.utcYear == AnnualSummaries(acts)[k].year ==> a.distance == 0.0
    ensures AnnualSummaries(acts)[k].averageSpeedWeighted == Units.NaN
  {
    var r := AnnualSummaries(acts)[k];
    RowWeightedSpeed(acts, k);
    GroupWeightedSpeedUndefined(InUtcYear(acts, r.year));
  }

  // ---------------------------------------------------------------------
  // The summary table as shown

  /** An integer column of the summary. */
  function IntColumn(name: string, rows: seq<Summary>, f: Summary -> int): (c: Units.Column)
    ensures c.name == name && |c.cells| == |rows|
    ensures forall k :: 0 <= k < |rows| ==> c.cells[k] == Units.Int(f(rows[k]))
  {
    Units.Column(name, seq(|rows|, k requires 0 <= k < |rows| => Units.Int(f(rows[k]))))
  }

  /** A real column of the summary. */
  function RealColumn(name: string, rows: seq<Summary>, f: Summary -> real): (c: Units.Column)
    ensures c.name == name && |c.cells| == |rows|
    ensures forall k :: 0 <= k < |rows| ==> c.cells[k] == Units.Real(f(rows[k]))
  {
    Units.Column(name, seq(|rows|, k requires 0 <= k < |rows| => Units.Real(f(rows[k]))))
  }

  /** The weighted speed column, whose cells may be NaN or infinite. */
  function WeightedColumn(rows: seq<Summary>): (c: Units.Column)
    ensures c.name == "average_speed_weighted" && |c.cells| == |rows|
    ensures forall k :: 0 <= k < |rows| ==> c.cells[k] == rows[k].averageSpeedWeighted
  {
    Units.Column("average_speed_weighted", seq(|rows|, k requires 0 <= k < |rows| => rows[k].averageSpeedWeighted))
  }

  /** The columns of `annual_summaries` before `convert_units`, in the order they are created; the year is the index. */
  function SummaryColumns(rows: seq<Summary>): (df: Units.Table)
    ensures |df| == 8 && forall i :: 0 <= i < 8 ==> |df[i].cells| == |rows|
  {
    [ IntColumn("n_activities", rows, (r: Summary) => r.nActivities),
      RealColumn("total_distance", rows, (r: Summary) => r.totalDistance),
      IntColumn("total_moving_time", rows, (r: Summary) => r.totalMovingTime),
      IntColumn("total_elapsed_time", rows, (r: Summary) => r.totalElapsedTime),
      RealColumn("total_elevation_gain", rows, (r: Summary) => r.totalElevationGain),
      RealColumn("max_speed", rows, (r: Summary) => r.maxSpeed),
      RealColumn("average_speed", rows, (r: Summary) => r.averageSpeed),
      WeightedColumn(rows) ]
  }

  /**
   * `annual_summaries_ready`: the columns converted to display units with one
   * decimal, then the year put back in front as an integer column. The rows
   * are already latest first; the conversion works cell by cell, so sorting
   * before it gives the same table as sorting after it.
   */
  function AnnualSummariesReady(acts: seq<Activity>): Result<Units.Table, Units.ConvertError>
  {
    SummaryTable(AnnualSummaries(acts))
  }

  /** Summary rows as the displayed table. */
  function SummaryTable(rows: seq<Summary>): Result<Units.Table, Units.ConvertError>
  {
    var converted :- Units.ConvertUnitsSpec(SummaryColumns(rows), 1);
    Ok([YearColumn(rows)] + converted)
  }

  /** The period index turned back into an integer column. */
  function YearColumn(rows: seq<Summary>): (c: Units.Column)
    ensures c.name == "start_date" && |c.cells| == |rows|
    ensures forall k :: 0 <= k < |rows| ==> c.cells[k] == Units.Int(rows[k].year)
  {
    Units.Column("start_date", seq(|rows|, k requires 0 <= k < |rows| => Units.Int(rows[k].year)))
  }

  // How `convert_units` treats each summary column, decided by its name alone.

  lemma {:induction false} CountColumnUntouched(col: Units.Column)
    requires col.name == "n_activities"
    ensures Units.ColumnPipeline(col, 1) == Some(col)
  {
    var n, dist, time, speed := col.name, "distance", "time", "speed";
    assert 'd' in dist && 'm' in time && 'p' in speed;
    assert Units.Lacks(n, 'd') && Units.Lacks(n, 'm') && Units.Lacks(n, 'p');
    Units.MissingCharNotContained(n, dist, 'd');
    Units.MissingCharNotContained(n, time, 'm');
    Units.MissingCharNotContained(n, speed, 'p');
    Units.PipelineUntouched(col, 1);
  }

  lemma {:induction false} DistanceColumnInKilometres(col: Units.Column)
    requires col.name == "total_distance"
    ensures Units.ColumnPipeline(col, 1) == Units.ConvertColumn(Units.ToKilometres, col, 1)
  {
    var n, dist, time, speed := col.name, "distance", "time", "speed";
    assert 'm' in time && 'p' in speed;
    assert dist <= n[6..] && Units.Lacks(n, 'm') && Units.Lacks(n, 'p');
    Units.ContainsAt(n, dist, 6);
    Units.MissingCharNotContained(n, time, 'm');
    Units.MissingCharNotContained(n, speed, 'p');
    Units.PipelineSingle(col, 1);
  }

  lemma {:induction false} MovingTimeColumnAsDuration(col: Units.Column)
    requires col.name == "total_moving_time"
    ensures Units.ColumnPipeline(col, 1) == Units.ConvertColumn(Units.ToDuration, col, 1)
  {
    var n, dist, time, speed := col.name, "distance", "time", "speed";
    assert 'd' in dist && 'p' in speed;
    assert time <= n[13..] && Units.Lacks(n, 'd') && Units.Lacks(n, 'p');
    Units.ContainsAt(n, time, 13);
    Units.MissingCharNotContained(n, dist, 'd');
    Units.MissingCharNotContained(n, speed, 'p');
    Units.PipelineSingle(col, 1);
  }

  /** "total_elapsed_time" holds every letter of "speed", but never "s" followed by "p". */
  lemma {:induction false} ElapsedTimeColumnAsDuration(col: Units.Column)
    requires col.name == "total_elapsed_time"
    ensures Units.ColumnPipeline(col, 1) == Units.ConvertColumn(Units.ToDuration, col, 1)
  {
    var n, dist, time, speed := col.name, "distance", "time", "speed";
    assert 'c' in dist;
    assert time <= n[14..] && Units.Lacks(n, 'c');
    assert forall j :: 0 <= j < |n| - 1 ==> !(n[j] == speed[0] && n[j + 1] == speed[1]);
    Units.ContainsAt(n, time, 14);
    Units.MissingCharNotContained(n, dist, 'c');
    Units.MissingPairNotContained(n, speed);
    Units.PipelineSingle(col, 1);
  }

  /** A column whose name holds "speed" at `at` and lacks a letter of "distance" and one of "time". */
  lemma {:induction false} SpeedOnly(col: Units.Column, at: nat, cd: char, ct: char)
    requires at <= |col.name| && "speed" <= col.name[at..]
    requires cd in "distance" && Units.Lacks(col.name, cd) && ct in "time" && Units.Lacks(col.name, ct)
    ensures Units.ColumnPipeline(col, 1) == Units.ConvertColumn(Units.ToKmPerHour, col, 1)
  {
    Units.ContainsAt(col.name, "speed", at);
    Units.MissingCharNotContained(col.name, "distance", cd);
    Units.MissingCharNotContained(col.name, "time", ct);
    Units.PipelineSingle(col, 1);
  }

  lemma {:induction false} MaxSpeedColumnInKmPerHour(col: Units.Column)
    requires col.name == "max_speed"
    ensures Units.ColumnPipeline(col, 1) == Units.ConvertColumn(Units.ToKmPerHour, col, 1)
  {
    var n := col.name;
    assert "speed" <= n[4..] && Units.Lacks(n, 'c') && Units.Lacks(n, 'i');
    var dist, time := "distance", "time";
    assert 'c' in dist && 'i' in time;
    SpeedOnly(col, 4, 'c', 'i');
  }

  /** `average_speed` and `average_speed_weighted` share the prefix "average_" before "speed". */
  lemma {:induction false} AverageSpeedColumnInKmPerHour(col: Units.Column)
    requires col.name == "average_speed" || col.name == "average_speed_weighted"
    ensures Units.ColumnPipeline(col, 1) == Units.ConvertColumn(Units.ToKmPerHour, col, 1)
  {
    var n := col.name;
    assert "speed" <= n[8..] && Units.Lacks(n, 'c') && Units.Lacks(n, 'm');
    var dist, time := "distance", "time";
    assert 'c' in dist && 'm' in time;
    SpeedOnly(col, 8, 'c', 'm');
  }

  /** Every summary column survives its rewrites, given weighted speeds that are numbers, NaN or infinite. */
  lemma {:induction false} SummaryColumnConverts(rows: seq<Summary>, i: nat)
    requires forall k :: 0 <= k < |rows| ==> !rows[k].averageSpeedWeighted.Str?
    requires i < 8
    ensures Units.ColumnPipeline(SummaryColumns(rows)[i], 1).Some?
  {
    var col := SummaryColumns(rows)[i];
    SummaryColumnName(rows, i);
    if i == 0 {
      CountColumnUntouched(col);
    } else {
      PipelineByName(col, i);
      SummaryColumnCells(rows, i);
      Units.ConvertColumnSome(SummaryConversion(i), col, 1);
    }
  }

  /** The summary columns hold no text; the two time columns hold integers. */
  lemma {:induction false} SummaryColumnCells(rows: seq<Summary>, i: nat)
    requires forall k :: 0 <= k < |rows| ==> !rows[k].averageSpeedWeighted.Str?
    requires i < 8
    ensures var col := SummaryColumns(rows)[i];
      (forall k :: 0 <= k < |col.cells| ==> !col.cells[k].Str?) &&
      (i == 2 || i == 3 ==> forall k :: 0 <= k < |col.cells| ==> col.cells[k].Int?)
  {
  }

  /** The eight summary columns always convert, each through its own rewrites. */
  lemma {:induction false} SummaryTableConverts(rows: seq<Summary>)
    requires forall k :: 0 <= k < |rows| ==> !rows[k].averageSpeedWeighted.Str?
    ensures Units.ConvertUnitsSpec(SummaryColumns(rows), 1).Ok?
    ensures var t := Units.ConvertUnitsSpec(SummaryColumns(rows), 1).value;
      |t| == 8 && forall i :: 0 <= i < 8 ==> Units.ColumnPipeline(SummaryColumns(rows)[i], 1) == Some(t[i])
  {
    var df := SummaryColumns(rows);
    assert Units.DistinctNames(df) by {
      assert forall i :: 0 <= i < 8 ==> |df[i].name| == [12, 14, 17, 18, 20, 9, 13, 22][i];
    }
    assert "total_elevation_gain" in Units.Names(df) by {
      assert Units.Names(df)[4] == "total_elevation_gain";
    }
    forall i | 0 <= i < |df|
      ensures Units.ColumnPipeline(df[i], 1).Some?
    {
      SummaryColumnConverts(rows, i);
    }
    Units.ConvertUnitsPerColumn(df, 1);
  }

  /**
   * The displayed summary table always exists: the year column followed by
   * the eight summary columns, each put through its rewrites.
   */
  lemma {:induction false} AnnualSummariesReadyOk(acts: seq<Activity>)
    ensures var rows := AnnualSummaries(acts);
      AnnualSummariesReady(acts) == SummaryTable(rows) && SummaryTable(rows).Ok?
  {
    SummaryTableConverts(AnnualSummaries(acts));
  }

  /** Every column of the displayed table has one cell per summary row. */
  lemma {:induction false} SummaryTableRows(rows: seq<Summary>)
    requires forall k :: 0 <= k < |rows| ==> !rows[k].averageSpeedWeighted.Str?
    ensures SummaryTable(rows).Ok?
    ensures var t := SummaryTable(rows).value;
      |t| == 9 && forall i :: 0 <= i < |t| ==> |t[i].cells| == |rows|
  {
    SummaryTableConverts(rows);
    var c := Units.ConvertUnitsSpec(SummaryColumns(rows), 1).value;
    assert SummaryTable(rows) == Ok([YearColumn(rows)] + c);
    var t := SummaryTable(rows).value;
    var df := SummaryColumns(rows);
    forall i | 0 <= i < |t|
      ensures |t[i].cells| == |rows|
    {
      if i > 0 {
        assert t[i] == c[i - 1];
        Units.ColumnPipelineShape(df[i - 1], 1);
      }
    }
  }

  /** Column `i + 1` of the displayed table is summary column `i` after its rewrites. */
  lemma {:induction false} SummaryTableColumn(rows: seq<Summary>, i: nat)
    requires forall k :: 0 <= k < |rows| ==> !rows[k].averageSpeedWeighted.Str?
    requires i < 8
    ensures SummaryTable(rows).Ok? && |SummaryTable(rows).value| == 9
    ensures Units.ColumnPipeline(SummaryColumns(rows)[i], 1) == Some(SummaryTable(rows).value[i + 1])
  {
    SummaryTableConverts(rows);
    var c := Units.ConvertUnitsSpec(SummaryColumns(rows), 1).value;
    assert SummaryTable(rows) == Ok([YearColumn(rows)] + c);
    assert Units.ColumnPipeline(SummaryColumns(rows)[i], 1) == Some(c[i]);
  }

  /** The first displayed column is the year of each summary row. */
  lemma {:induction false} DisplayedYear(rows: seq<Summary>, k: nat)
    requires forall k :: 0 <= k < |rows| ==> !rows[k].averageSpeedWeighted.Str?
    requires k < |rows|
    ensures SummaryTable(rows).Ok? && |SummaryTable(rows).value| == 9
    ensures var t := SummaryTable(rows).value;
      t[0].name == "start_date" && |t[0].cells| == |rows| && t[0].cells[k] == Units.Int(rows[k].year)
  {
    SummaryTableConverts(rows);
  }

  /** The activity count is shown unchanged. */
  lemma {:induction false} DisplayedCount(rows: seq<Summary>, k: nat)
    requires forall k :: 0 <= k < |rows| ==> !rows[k].averageSpeedWeighted.Str?
    requires k < |rows|
    ensures SummaryTable(rows).Ok? && |SummaryTable(rows).value| == 9
    ensures var t := SummaryTable(rows).value;
      |t[1].cells| == |rows| &&
      t[1].name == "n_activities" && t[1].cells[k] == Units.Int(rows[k].nActivities)
  {
    SummaryTableColumn(rows, 0);
    var t := SummaryTable(rows).value;
    var df := SummaryColumns(rows);
    CountColumnUntouched(df[0]);
  }

  /** The conversion `convert_units` applies to summary column `i` (`1 <= i < 8`). */
  function SummaryConversion(i: nat): Units.Conversion
  {
    if i == 1 then Units.ToKilometres
    else if i == 2 || i == 3 then Units.ToDuration
    else if i == 4 then Units.RoundOnly
    else Units.ToKmPerHour
  }

  /** Column `i + 1` of the displayed table is summary column `i` converted by its one conversion. */
  lemma {:induction false} SummaryTableConverted(rows: seq<Summary>, i: nat)
    requires forall k :: 0 <= k < |rows| ==> !rows[k].averageSpeedWeighted.Str?
    requires 1 <= i < 8
    ensures SummaryTable(rows).Ok? && |SummaryTable(rows).value| == 9
    ensures Units.ConvertColumn(SummaryConversion(i), SummaryColumns(rows)[i], 1) == Some(SummaryTable(rows).value[i + 1])
  {
    SummaryTableColumn(rows, i);
    SummaryColumnName(rows, i);
    PipelineByName(SummaryColumns(rows)[i], i);
  }

  /** The names of the summary columns, in order. */
  const SummaryNames: seq<string> := ["n_activities", "total_distance", "total_moving_time", "total_elapsed_time",
    "total_elevation_gain", "max_speed", "average_speed", "average_speed_weighted"]

  lemma {:induction false} SummaryColumnName(rows: seq<Summary>, i: nat)
    requires i < 8
    ensures SummaryColumns(rows)[i].name == SummaryNames[i]
  {
  }

  /** Each named summary column goes through exactly its own conversion. */
  lemma {:induction false} PipelineByName(col: Units.Column, i: nat)
    requires 1 <= i < 8 && col.name == SummaryNames[i]
    ensures Units.ColumnPipeline(col, 1) == Units.ConvertColumn(SummaryConversion(i), col, 1)
  {
    if i == 1 {
      DistanceColumnInKilometres(col);
    } else if i == 2 {
      MovingTimeColumnAsDuration(col);
    } else if i == 3 {
      ElapsedTimeColumnAsDuration(col);
    } else if i == 4 {
      Units.PipelineElevation(col, 1);
    } else if i == 5 {
      MaxSpeedColumnInKmPerHour(col);
    } else {
      AverageSpeedColumnInKmPerHour(col);
    }
  }

  /** A real cell after one conversion with one decimal. */
  lemma {:induction false} ShownReal(conv: Units.Conversion, col: Units.Column, x: real, out: Units.Column, k: nat)
    requires Units.ConvertColumn(conv, col, 1) == Some(out)
    requires k < |col.cells| && col.cells[k] == Units.Real(x)
    ensures out.name == col.name && |out.cells| == |col.cells|
    ensures conv == Units.ToKilometres ==> out.cells[k] == Units.Real(Numeric.Round(x / 1000.0, 1))
    ensures conv == Units.ToKmPerHour ==> out.cells[k] == Units.Real(Numeric.Round(x * 3.6, 1))
    ensures conv == Units.RoundOnly ==> out.cells[k] == Units.Real(Numeric.Round(x, 1))
  {
    Units.ConvertedCells(conv, col, 1, out, k);
  }


  // The cell lemmas below take the displayed table `t` as a parameter, so
  // that the conversion of the summary columns is not unfolded next to it.

  lemma {:induction false} DistanceCells(rows: seq<Summary>, t: Units.Table, k: nat)
    requires k < |rows| && |t| == 9
    requires Units.ConvertColumn(Units.ToKilometres, SummaryColumns(rows)[1], 1) == Some(t[2])
    requires Units.ConvertColumn(Units.RoundOnly, SummaryColumns(rows)[4], 1) == Some(t[5])
    ensures t[2].name == "total_distance" && |t[2].cells| == |rows|
    ensures t[2].cells[k] == Units.Real(Numeric.Round(rows[k].totalDistance / 1000.0, 1))
    ensures t[5].name == "total_elevation_gain" && |t[5].cells| == |rows|
    ensures t[5].cells[k] == Units.Real(Numeric.Round(rows[k].totalElevationGain, 1))
  {
    var df := SummaryColumns(rows);
    ShownReal(Units.ToKilometres, df[1], rows[k].totalDistance, t[2], k);
    ShownReal(Units.RoundOnly, df[4], rows[k].totalElevationGain, t[5], k);
  }

  lemma {:induction false} TimeCells(rows: seq<Summary>, t: Units.Table, k: nat)
    requires k < |rows| && |t| == 9
    requires Units.ConvertColumn(Units.ToDuration, SummaryColumns(rows)[2], 1) == Some(t[3])
    ensures t[3].name == "total_moving_time" && |t[3].cells| == |rows|
    ensures t[3].cells[k] == Units.Str(Duration.Format(rows[k].totalMovingTime))
  {
    Units.DurationCell(SummaryColumns(rows)[2], 1, t[3], k, rows[k].totalMovingTime);
  }

  lemma {:induction false} ElapsedCells(rows: seq<Summary>, t: Units.Table, k: nat)
    requires k < |rows| && |t| == 9
    requires Units.ConvertColumn(Units.ToDuration, SummaryColumns(rows)[3], 1) == Some(t[4])
    ensures t[4].name == "total_elapsed_time" && |t[4].cells| == |rows|
    ensures t[4].cells[k] == Units.Str(Duration.Format(rows[k].totalElapsedTime))
  {
    Units.DurationCell(SummaryColumns(rows)[3], 1, t[4], k, rows[k].totalElapsedTime);
  }

  lemma {:induction false} SpeedCells(rows: seq<Summary>, t: Units.Table, k: nat)
    requires k < |rows| && |t| == 9
    requires Units.ConvertColumn(Units.ToKmPerHour, SummaryColumns(rows)[5], 1) == Some(t[6])
    requires Units.ConvertColumn(Units.ToKmPerHour, SummaryColumns(rows)[6], 1) == Some(t[7])
    ensures t[6].name == "max_speed" && |t[6].cells| == |rows|
    ensures t[6].cells[k] == Units.Real(Numeric.Round(rows[k].maxSpeed * 3.6, 1))
    ensures t[7].name == "average_speed" && |t[7].cells| == |rows|
    ensures t[7].cells[k] == Units.Real(Numeric.Round(rows[k].averageSpeed * 3.6, 1))
  {
    var df := SummaryColumns(rows);
    ShownReal(Units.ToKmPerHour, df[5], rows[k].maxSpeed, t[6], k);
    ShownReal(Units.ToKmPerHour, df[6], rows[k].averageSpeed, t[7], k);
  }

  lemma {:induction false} WeightedCells(rows: seq<Summary>, t: Units.Table, k: nat)
    requires k < |rows| && |t| == 9
    requires Units.ConvertColumn(Units.ToKmPerHour, SummaryColumns(rows)[7], 1) == Some(t[8])
    ensures t[8].name == "average_speed_weighted" && |t[8].cells| == |rows|
    ensures var w := rows[k].averageSpeedWeighted;
      (w.Real? ==> t[8].cells[k] == Units.Real(Numeric.Round(w.r * 3.6, 1))) &&
      (w.NaN? || w.Inf? ==> t[8].cells[k] == w)
  {
    var df := SummaryColumns(rows);
    assert df[7].cells[k] == rows[k].averageSpeedWeighted;
    Units.ConvertedCells(Units.ToKmPerHour, df[7], 1, t[8], k);
  }

  /** The total distance is shown in kilometres and the elevation gain in metres, both rounded to one decimal. */
  lemma {:induction false} DisplayedDistances(rows: seq<Summary>, k: nat)
    requires forall k :: 0 <= k < |rows| ==> !rows[k].averageSpeedWeighted.Str?
    requires k < |rows|
    ensures SummaryTable(rows).Ok? && |SummaryTable(rows).value| == 9
    ensures var t := SummaryTable(rows).value;
      t[2].name == "total_distance" && |t[2].cells| == |rows| &&
      t[2].cells[k] == Units.Real(Numeric.Round(rows[k].totalDistance / 1000.0, 1)) &&
      t[5].name == "total_elevation_gain" && |t[5].cells| == |rows| &&
      t[5].cells[k] == Units.Real(Numeric.Round(rows[k].totalElevationGain, 1))
  {
    SummaryTableConverted(rows, 1);
    SummaryTableConverted(rows, 4);
    DistanceCells(rows, SummaryTable(rows).value, k);
  }

  /** Both time totals are shown as "D days HH:MM" texts that read back as the total less its odd seconds. */
  lemma {:induction false} DisplayedTimes(rows: seq<Summary>, k: nat)
    requires forall k :: 0 <= k < |rows| ==> !rows[k].averageSpeedWeighted.Str?
    requires k < |rows|
    ensures SummaryTable(rows).Ok? && |SummaryTable(rows).value| == 9
    ensures var t := SummaryTable(rows).value; var moving, elapsed := rows[k].totalMovingTime, rows[k].totalElapsedTime;
      t[3].name == "total_moving_time" && |t[3].cells| == |rows| &&
      t[3].cells[k] == Units.Str(Duration.Format(moving)) &&
      t[4].name == "total_elapsed_time" && |t[4].cells| == |rows| &&
      t[4].cells[k] == Units.Str(Duration.Format(elapsed))
  {
    SummaryTableConverted(rows, 2);
    SummaryTableConverted(rows, 3);
    TimeCells(rows, SummaryTable(rows).value, k);
    ElapsedCells(rows, SummaryTable(rows).value, k);
  }

  /** Top and mean speeds are shown in kilometres per hour, rounded to one decimal. */
  lemma {:induction false} DisplayedSpeeds(rows: seq<Summary>, k: nat)
    requires forall k :: 0 <= k < |rows| ==> !rows[k].averageSpeedWeighted.Str?
    requires k < |rows|
    ensures SummaryTable(rows).Ok? && |SummaryTable(rows).value| == 9
    ensures var t := SummaryTable(rows).value;
      t[6].name == "max_speed" && |t[6].cells| == |rows| &&
      t[6].cells[k] == Units.Real(Numeric.Round(rows[k].maxSpeed * 3.6, 1)) &&
      t[7].name == "average_speed" && |t[7].cells| == |rows| &&
      t[7].cells[k] == Units.Real(Numeric.Round(rows[k].averageSpeed * 3.6, 1))
  {
    SummaryTableConverted(rows, 5);
    SummaryTableConverted(rows, 6);
    SpeedCells(rows, SummaryTable(rows).value, k);
  }

  /**
   * The weighted speed is shown in kilometres per hour rounded to one
   * decimal when it is a number, and as it is when it is NaN or infinite.
   */
  lemma {:induction false} DisplayedWeightedSpeed(rows: seq<Summary>, k: nat)
    requires forall k :: 0 <= k < |rows| ==> !rows[k].averageSpeedWeighted.Str?
    requires k < |rows|
    ensures SummaryTable(rows).Ok? && |SummaryTable(rows).value| == 9
    ensures var t := SummaryTable(rows).value; var w := rows[k].averageSpeedWeighted;
      t[8].name == "average_speed_weighted" && |t[8].cells| == |rows| &&
      (w.Real? ==> t[8].cells[k] == Units.Real(Numeric.Round(w.r * 3.6, 1))) &&
      (w.NaN? || w.Inf? ==> t[8].cells[k] == w)
  {
    SummaryTableConverted(rows, 7);
    var t := SummaryTable(rows).value;
    assert SummaryConversion(7) == Units.ToKmPerHour;
    WeightedCells(rows, t, k);
  }
}
