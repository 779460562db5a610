/**
 * The small computations at the top of the dashboard script
 * (app/main.py:35-54): the length of the current year, the linear goal
 * curve towards the annual distance goal, and the shortening of activity
 * names for display. The current year comes from the clock in the original
 * and is a parameter here.
 */
module Dashboard {

  // ---------------------------------------------------------------------
  // Calendar

  /** The Gregorian leap-year rule. */
  predicate IsLeapYear(y: int)
  {
    (y % 4 == 0 && y % 100 != 0) || y % 400 == 0
  }

  /** Days of the months before month `m` (1..12) of year `y`. */
  function DaysBeforeMonth(y: int, m: int): int
    requires 1 <= m <= 12
  {
    var table := [0, 31, 59, 90, 120, 151, 181, 212, 243, 273, 304, 334];
    table[m - 1] + if m > 2 && IsLeapYear(y) then 1 else 0
  }

  /** Days of the proleptic Gregorian calendar before January 1 of year `y` (year 1 starts at 0). */
  function DaysBeforeYear(y: int): int
  {
    var p := y - 1;
    365 * p + p / 4 - p / 100 + p / 400
  }

  /** The day number of a calendar date, like `datetime.date.toordinal`. */
  function Ordinal(y: int, m: int, d: int): int
    requires 1 <= m <= 12
  {
    DaysBeforeYear(y) + DaysBeforeMonth(y, m) + d
  }

  /** `(Dec 31 - Jan 1).days + 1` for year `y`. */
  function DaysInYear(y: int): (n: int)
    ensures n == if IsLeapYear(y) then 366 else 365
  {
    Ordinal(y, 12, 31) - Ordinal(y, 1, 1) + 1
  }

  /** The year's day count is the distance from its January 1 to the next one. */
  lemma {:induction false} NextNewYear(y: int)
    ensures Ordinal(y + 1, 1, 1) == Ordinal(y, 1, 1) + DaysInYear(y)
  {
    var p := y - 1;
    assert (p + 1) / 4 == p / 4 + (if y % 4 == 0 then 1 else 0);
    assert (p + 1) / 100 == p / 100 + (if y % 100 == 0 then 1 else 0);
    assert (p + 1) / 400 == p / 400 + (if y % 400 == 0 then 1 else 0);
  }

  // ---------------------------------------------------------------------
  // Goal curve

  /** The annual distance goal in kilometres. */
  const TotalGoalDistance: real := 8000.0

  /** `pd.date_range(Jan 1, Dec 31, freq="D")` as day numbers: every day of the year once, in order. */
  function GoalDates(year: int): (ds: seq<int>)
    ensures |ds| == DaysInYear(year)
    ensures ds[0] == Ordinal(year, 1, 1)
    ensures forall i, j :: 0 <= i <= j < |ds| ==> ds[j] - ds[i] == j - i
  {
    var start := Ordinal(year, 1, 1);
    seq(DaysInYear(year), i => start + i)
  }

  /** The range ends on December 31, the day before the next January 1. */
  lemma {:induction false} GoalDatesEnd(year: int)
    ensures var ds := GoalDates(year);
      ds[|ds| - 1] == Ordinal(year, 12, 31) && ds[|ds| - 1] + 1 == Ordinal(year + 1, 1, 1)
  {
    NextNewYear(year);
  }

  /** Kilometres per day needed to reach the goal. */
  function DailyGoal(year: int): real
  {
    TotalGoalDistance / DaysInYear(year) as real
  }

  /** `daily_distance_goal * (goal_dates - start_date).days`. */
  function GoalDistances(year: int): seq<real>
  {
    Ramp(GoalDates(year), Ordinal(year, 1, 1), DailyGoal(year))
  }

  /** `rate` times the days elapsed from `start` to each date. */
  function Ramp(dates: seq<int>, start: int, rate: real): seq<real>
  {
    seq(|dates|, i requires 0 <= i < |dates| => rate * (dates[i] - start) as real)
  }

  /**
   * One point per day of the year: the goal starts at zero, grows by the
   * daily goal every day and ends one daily goal short of the total.
   */
  lemma {:induction false} GoalCurve(year: int)
    ensures var g := GoalDistances(year);
      var n := DaysInYear(year);
      |g| == n &&
      g[0] == 0.0 &&
      g[n - 1] == TotalGoalDistance - DailyGoal(year) &&
      (forall i :: 0 < i < n ==> g[i] == g[i - 1] + DailyGoal(year)) &&
      (forall i, j :: 0 <= i < j < n ==> g[i] < g[j])
  {
    DailyGoalTotal(year);
    GoalDistancesLinear(year);
    LinearCurve(GoalDistances(year), DailyGoal(year), DaysInYear(year), TotalGoalDistance);
  }

  /** Day `i` of the year carries `i` daily goals. */
  lemma {:induction false} GoalDistancesLinear(year: int)
    ensures |GoalDistances(year)| == DaysInYear(year)
    ensures forall i :: 0 <= i < DaysInYear(year) ==> GoalDistances(year)[i] == DailyGoal(year) * i as real
  {
    GoalDatesFromStart(year);
    RampSteps(GoalDates(year), Ordinal(year, 1, 1), DailyGoal(year));
  }

  lemma {:induction false} GoalDatesFromStart(year: int)
    ensures forall i :: 0 <= i < |GoalDates(year)| ==> GoalDates(year)[i] == Ordinal(year, 1, 1) + i
  {
  }

  lemma {:induction false} DailyGoalTotal(year: int)
    ensures DailyGoal(year) > 0.0
    ensures DailyGoal(year) * DaysInYear(year) as real == TotalGoalDistance
  {
  }

  /** Over consecutive dates the ramp is `rate` times the position. */
  lemma {:induction false} RampSteps(dates: seq<int>, start: int, rate: real)
    requires forall i :: 0 <= i < |dates| ==> dates[i] == start + i
    ensures |Ramp(dates, start, rate)| == |dates|
    ensures forall i :: 0 <= i < |dates| ==> Ramp(dates, start, rate)[i] == rate * i as real
  {
  }

  /** A sequence `rate * i` with a positive rate starts at zero and climbs by `rate` at each step. */
  lemma {:induction false} LinearCurve(g: seq<real>, rate: real, n: nat, total: real)
    requires n > 0 && |g| == n && rate > 0.0 && rate * n as real == total
    requires forall i :: 0 <= i < n ==> g[i] == rate * i as real
    ensures g[0] == 0.0 && g[n - 1] == total - rate
    ensures forall i :: 0 < i < n ==> g[i] == g[i - 1] + rate
    ensures forall i, j :: 0 <= i < j < n ==> g[i] < g[j]
  {
    forall i, j | 0 <= i < j < n
      ensures g[i] < g[j]
    {
      assert g[j] - g[i] == rate * (j - i) as real;
    }
  }

  // ---------------------------------------------------------------------
  // Display names

  const NameWidth: nat := 40

  /** `name[:40]`. */
  function Shorten(name: string): string
  {
    if |name| <= NameWidth then name else name[..NameWidth]
  }

  /** A shortened name is the original's first `min(len, 40)` characters, and shortening twice changes nothing more. */
  lemma {:induction false} ShortenPrefix(name: string)
    ensures var s := Shorten(name);
      s <= name &&
      |s| == (if |name| < NameWidth then |name| else NameWidth) &&
      (s == name <==> |name| <= NameWidth) &&
      Shorten(s) == s
  {
  }

  /**
   * `activities_ready["name"].apply(lambda x: x[:40])`: each name cut to its
   * first 40 characters, and names that fit kept whole.
   */
  function ShortenNames(names: seq<string>): (r: seq<string>)
    ensures |r| == |names|
    ensures forall i :: 0 <= i < |names| ==>
      r[i] <= names[i] && |r[i]| == (if |names[i]| < NameWidth then |names[i]| else NameWidth)
  {
    seq(|names|, i requires 0 <= i < |names| => Shorten(names[i]))
  }
}
