/**
 Consecutive years' schedules join into one calendar, and the printed columns
 show one run of it.
 */
module Years {
  import opened Wrappers
  import opened Calendar
  import opened Scheduler

  /** The list of an ISO year: weeks 1 to 52 or 53, a week apart, each Monday to Sunday. */
  lemma ScheduleIsIsoYear(inp: Inputs, year: int)
    ensures var weeks := YearSchedule(inp, year);
      && (|weeks| == 52 || |weeks| == 53)
      && forall i :: 0 <= i < |weeks| ==>
           && weeks[i].year == year && weeks[i].isoWeek == i + 1
           && weeks[i].start == Week1Monday(year) + 7 * i && weeks[i].end == weeks[i].start + 6
           && Weekday(weeks[i].start) == 0
  {
    hide Week1Monday, WeeksIn, IsoWeek, IsoYear, Weekday, Chosen, TenantFor;
    var weeks := YearSchedule(inp, year);
    FiftyTwoOrFiftyThree(year);
    forall i | 0 <= i < |weeks|
      ensures weeks[i].year == year && weeks[i].isoWeek == i + 1 && Weekday(weeks[i].start) == 0
      ensures weeks[i].start == Week1Monday(year) + 7 * i && weeks[i].end == weeks[i].start + 6
    {
      WeekNumber(year, i);
    }
  }

  /** No Monday is missing between two years and none is repeated; the rotation counter rises by one
      across the boundary as it does within a year. */
  lemma YearsJoin(inp: Inputs, year: int)
    ensures var weeks, next := YearSchedule(inp, year), YearSchedule(inp, year + 1);
      && |weeks| > 0 && |next| > 0
      && weeks[|weeks| - 1].start + 7 == next[0].start
      && GlobalWeekIndex(next[0].start) == GlobalWeekIndex(weeks[|weeks| - 1].start) + 1
  {
    hide Week1Monday, IsoWeek, IsoYear, Weekday, GlobalWeekIndex, AssignmentFor;
    ScheduleIsIsoYear(inp, year);
    ScheduleIsIsoYear(inp, year + 1);
    FiftyTwoOrFiftyThree(year);
    var weeks := YearSchedule(inp, year);
    WeekIndexIsExact(weeks[|weeks| - 1].start);
  }

  /** Every Monday is in the list of exactly one year, at one place. */
  lemma MondayHasOnePlace(inp: Inputs, m: Day, year: int, i: nat)
    requires Weekday(m) == 0
    ensures i < |YearSchedule(inp, year)| && YearSchedule(inp, year)[i].start == m <==>
      year == IsoYear(m) && i == IsoWeek(m) - 1
  {
    hide Week1Monday, WeeksIn, IsoWeek, IsoYear, Weekday, AssignmentFor;
    ScheduleIsIsoYear(inp, year);
    FiftyTwoOrFiftyThree(year);
    MondaysOfYear(m, year);
    if Week1Monday(year) <= m < Week1Monday(year + 1) {
      FirstMondayIsMonday(year);
      MondaysApart(Week1Monday(year), m);
      WeekNumber(year, (m - Week1Monday(year)) / 7);
    }
  }

  lemma FirstMondayIsMonday(year: int)
    ensures Weekday(Week1Monday(year)) == 0
  {
    Week1Thursday(year);
  }

  // ----- columns -----

  /**
   `balanced_columns`: two columns of equal length that together show the year
   in order; a long year is padded with the week before it and the two weeks
   after it.
   */
  method BalancedColumns<T>(prev: seq<T>, current: seq<T>, next: seq<T>) returns (left: seq<T>, right: seq<T>)
    requires |current| % 2 == 1 ==> |prev| > 0 && |next| >= 2
    ensures |left| == |right|
    ensures left + right ==
      if |current| % 2 == 0 then current else [prev[|prev| - 1]] + current + next[..2]
  {
    var n := |current|;
    if n % 2 == 0 {
      left, right := current[..n / 2], current[n / 2..];
      return;
    }
    var rowsPerColumn := (n + 3) / 2;
    var leftCurrent := rowsPerColumn - 1;
    left := [prev[|prev| - 1]];
    left := left + current[..leftCurrent];
    right := current[leftCurrent..];
    right := right + next[..2];
    assert current == current[..leftCurrent] + current[leftCurrent..];
  }

  /** The weeks follow each other without a break. */
  ghost predicate Consecutive(weeks: seq<WeekAssignment>) {
    forall i :: 0 < i < |weeks| ==> weeks[i].start == weeks[i - 1].start + 7
  }

  /** What the two columns show, left then right, is one run of consecutive weeks that contains the
      whole year. */
  method PlanColumns(inp: Inputs, year: int) returns (left: seq<WeekAssignment>, right: seq<WeekAssignment>)
    ensures |left| == |right| && Consecutive(left + right)
    ensures forall w :: w in YearSchedule(inp, year) ==> w in left + right
  {
    hide Week1Monday, WeeksIn, IsoWeek, IsoYear, Weekday, AssignmentFor, YearSchedule, Consecutive;
    var prev, current, next := YearSchedule(inp, year - 1), YearSchedule(inp, year), YearSchedule(inp, year + 1);
    ScheduleIsIsoYear(inp, year - 1);
    ScheduleIsIsoYear(inp, year);
    ScheduleIsIsoYear(inp, year + 1);
    left, right := BalancedColumns(prev, current, next);
    ShownWeeks(inp, year, left + right);
  }

  lemma ShownWeeks(inp: Inputs, year: int, shown: seq<WeekAssignment>)
    requires var prev, next := YearSchedule(inp, year - 1), YearSchedule(inp, year + 1);
      var current := YearSchedule(inp, year);
      && |prev| > 0 && |next| >= 2
      && shown == if |current| % 2 == 0 then current else [prev[|prev| - 1]] + current + next[..2]
    ensures Consecutive(shown)
    ensures forall w :: w in YearSchedule(inp, year) ==> w in shown
  {
    hide Week1Monday, WeeksIn, IsoWeek, IsoYear, Weekday, AssignmentFor, YearSchedule;
    var prev, current, next := YearSchedule(inp, year - 1), YearSchedule(inp, year), YearSchedule(inp, year + 1);
    ScheduleIsIsoYear(inp, year - 1);
    ScheduleIsIsoYear(inp, year);
    ScheduleIsIsoYear(inp, year + 1);
    YearsJoin(inp, year - 1);
    YearsJoin(inp, year);
    if |current| % 2 == 1 {
      var n, first := |current|, Week1Monday(year);
      assert shown[0] == prev[|prev| - 1] && shown[n + 1] == next[0] && shown[n + 2] == next[1];
      forall i | 0 <= i < n
        ensures shown[i + 1] == current[i]
      {
      }
      forall i | 0 <= i < |shown|
        ensures shown[i].start == first + 7 * (i - 1)
      {
        if 1 <= i <= n {
          assert shown[i] == current[i - 1];
        }
      }
    }
  }
}
