/**
 The proleptic Gregorian calendar and the ISO week calendar on day numbers.

 A day is an integer: day 1 is 0001-01-01, a Monday (the numbering of
 `num_days_from_ce`). Weeks follow section 2.2.10 of ISO 8601:2004: a week runs
 from Monday to Sunday and belongs to the year that contains its Thursday.
 */
module Calendar {
  import Text

  type Day = int

  // ----- years -----

  predicate IsLeap(y: int) {
    y % 4 == 0 && (y % 100 != 0 || y % 400 == 0)
  }

  /** January 1 of the year. */
  function YearStart(y: int): Day {
    365 * (y - 1) + (y - 1) / 4 - (y - 1) / 100 + (y - 1) / 400 + 1
  }

  lemma YearLength(y: int)
    ensures YearStart(y + 1) == YearStart(y) + (if IsLeap(y) then 366 else 365)
  {
    Quotients(y);
    Divisibility(y);
  }

  lemma Quotients(y: int)
    ensures y / 4 - (y - 1) / 4 == (if y % 4 == 0 then 1 else 0)
    ensures y / 100 - (y - 1) / 100 == (if y % 100 == 0 then 1 else 0)
    ensures y / 400 - (y - 1) / 400 == (if y % 400 == 0 then 1 else 0)
  {
  }

  lemma Divisibility(y: int)
    ensures y % 400 == 0 ==> y % 100 == 0
    ensures y % 100 == 0 ==> y % 4 == 0
  {
    if y % 100 == 0 {
      assert y == 4 * (25 * (y / 100));
    }
    if y % 400 == 0 {
      assert y == 100 * (4 * (y / 400));
    }
  }

  lemma {:induction false} YearStartMonotone(y: int, z: int)
    requires y < z
    ensures YearStart(y) + 365 * (z - y) <= YearStart(z) <= YearStart(y) + 366 * (z - y)
    decreases z - y
  {
    YearLength(z - 1);
    if y < z - 1 {
      YearStartMonotone(y, z - 1);
    }
  }

  /** Walks from a guess to the year containing the day. */
  function YearFrom(d: Day, guess: int): (y: int)
    ensures YearStart(y) <= d < YearStart(y + 1)
    decreases d < YearStart(guess), if d < YearStart(guess) then YearStart(guess) - d else d - YearStart(guess)
  {
    YearLength(guess);
    YearLength(guess - 1);
    if d < YearStart(guess) then YearFrom(d, guess - 1)
    else if YearStart(guess + 1) <= d then YearFrom(d, guess + 1)
    else guess
  }

  function YearOf(d: Day): (y: int)
    ensures YearStart(y) <= d < YearStart(y + 1)
  {
    YearFrom(d, 2020)
  }

  lemma YearOfUnique(d: Day, y: int)
    requires YearStart(y) <= d < YearStart(y + 1)
    ensures YearOf(d) == y
  {
    var z := YearOf(d);
    if z < y && z + 1 < y {
      YearStartMonotone(z + 1, y);
    } else if y < z && y + 1 < z {
      YearStartMonotone(y + 1, z);
    }
  }

  lemma YearOfMonotone(d: Day, e: Day)
    requires d <= e
    ensures YearOf(d) <= YearOf(e)
  {
    if YearOf(e) + 1 < YearOf(d) {
      YearStartMonotone(YearOf(e) + 1, YearOf(d));
    }
  }

  // ----- civil dates -----

  function MonthLength(y: int, m: int): int
    requires 1 <= m <= 12
  {
    if m == 2 then (if IsLeap(y) then 29 else 28)
    else if m == 4 || m == 6 || m == 9 || m == 11 then 30
    else 31
  }

  /** Days of the year before the first of the month. */
  function MonthOffset(y: int, m: int): (o: int)
    requires 1 <= m <= 13
    ensures 0 <= o
    ensures 1 < m ==> o == MonthOffset(y, m - 1) + MonthLength(y, m - 1)
  {
    [0, 31, 59, 90, 120, 151, 181, 212, 243, 273, 304, 334, 365][m - 1] + (if 2 < m && IsLeap(y) then 1 else 0)
  }

  predicate ValidDate(y: int, m: int, d: int) {
    1 <= m <= 12 && 1 <= d <= MonthLength(y, m)
  }

  function DayOf(y: int, m: int, d: int): Day
    requires ValidDate(y, m, d)
  {
    YearStart(y) + MonthOffset(y, m) + d - 1
  }

  lemma {:induction false} MonthOffsetMonotone(y: int, m: int, k: int)
    requires 1 <= m < k <= 13
    ensures MonthOffset(y, m) + MonthLength(y, m) <= MonthOffset(y, k)
    decreases k
  {
    if m < k - 1 {
      MonthOffsetMonotone(y, m, k - 1);
    }
  }

  lemma TwelveMonths(y: int)
    ensures MonthOffset(y, 13) == (if IsLeap(y) then 366 else 365)
  {
  }

  lemma DayOfInYear(y: int, m: int, d: int)
    requires ValidDate(y, m, d)
    ensures YearStart(y) <= DayOf(y, m, d) < YearStart(y + 1)
  {
    TwelveMonths(y);
    YearLength(y);
    MonthOffsetMonotone(y, m, 13);
  }

  /** The month of the ordinal day (0 for January 1) of the year, searched from the given month on. */
  function MonthFrom(y: int, ordinal: int, m: int): (r: int)
    requires 1 <= m <= 12 && MonthOffset(y, m) <= ordinal < MonthOffset(y, 13)
    ensures m <= r <= 12 && MonthOffset(y, r) <= ordinal < MonthOffset(y, r + 1)
    decreases 12 - m
  {
    if ordinal < MonthOffset(y, m + 1) then m else MonthFrom(y, ordinal, m + 1)
  }

  /** The civil date of a day: year, month and day of the month. */
  function CivilOf(d: Day): (r: (int, int, int))
    ensures ValidDate(r.0, r.1, r.2) && DayOf(r.0, r.1, r.2) == d
  {
    var y := YearOf(d);
    YearLength(y);
    TwelveMonths(y);
    var ordinal := d - YearStart(y);
    var m := MonthFrom(y, ordinal, 1);
    (y, m, ordinal - MonthOffset(y, m) + 1)
  }

  ghost predicate DateBefore(y: int, m: int, d: int, z: int, n: int, e: int) {
    y < z || (y == z && (m < n || (m == n && d < e)))
  }

  lemma DayOfOrderOneWay(y: int, m: int, d: int, z: int, n: int, e: int)
    requires ValidDate(y, m, d) && ValidDate(z, n, e)
    requires DateBefore(y, m, d, z, n, e)
    ensures DayOf(y, m, d) < DayOf(z, n, e)
  {
    DayOfInYear(y, m, d);
    DayOfInYear(z, n, e);
    if y < z && y + 1 < z {
      YearStartMonotone(y + 1, z);
    } else if y == z && m < n {
      MonthOffsetMonotone(y, m, n);
    }
  }

  /** Day numbers order dates by year, then month, then day. */
  lemma DayOfOrder(y: int, m: int, d: int, z: int, n: int, e: int)
    requires ValidDate(y, m, d) && ValidDate(z, n, e)
    ensures DayOf(y, m, d) < DayOf(z, n, e) <==> DateBefore(y, m, d, z, n, e)
  {
    if DateBefore(y, m, d, z, n, e) {
      DayOfOrderOneWay(y, m, d, z, n, e);
    } else if DateBefore(z, n, e, y, m, d) {
      DayOfOrderOneWay(z, n, e, y, m, d);
    }
  }

  /** The canonical text YYYY-MM-DD that the date triggers demand. */
  function DateText(y: int, m: int, d: int): string
    requires ValidDate(y, m, d) && 0 <= y <= 9999
  {
    Text.Padded(y, 4) + ("-" + (Text.Padded(m, 2) + ("-" + Text.Padded(d, 2))))
  }

  /**
   The triggers compare dates as text, the scheduler as dates; for the
   four-digit years the triggers admit, both orders are the order of the day
   numbers.
   */
  lemma TextOrderIsDayOrder(y: int, m: int, d: int, z: int, n: int, e: int)
    requires ValidDate(y, m, d) && ValidDate(z, n, e)
    requires 0 <= y <= 9999 && 0 <= z <= 9999
    ensures Text.Less(DateText(y, m, d), DateText(z, n, e)) <==> DayOf(y, m, d) < DayOf(z, n, e)
  {
    var yt, mt, dt := Text.Padded(y, 4), Text.Padded(m, 2), Text.Padded(d, 2);
    var zt, nt, et := Text.Padded(z, 4), Text.Padded(n, 2), Text.Padded(e, 2);
    DayOfOrder(y, m, d, z, n, e);
    FixedWidthFields(y, z, m, n, d, e);
    Text.LessConcat(yt, zt, "-" + (mt + ("-" + dt)), "-" + (nt + ("-" + et)));
    Text.LessConcat("-", "-", mt + ("-" + dt), nt + ("-" + et));
    Text.LessConcat(mt, nt, "-" + dt, "-" + et);
    Text.LessConcat("-", "-", dt, et);
    Text.LessIrreflexive("-");
  }

  lemma FixedWidthFields(y: nat, z: nat, m: nat, n: nat, d: nat, e: nat)
    requires y <= 9999 && z <= 9999 && m < 100 && n < 100 && d < 100 && e < 100
    ensures |Text.Padded(y, 4)| == |Text.Padded(z, 4)| == 4
    ensures |Text.Padded(m, 2)| == |Text.Padded(n, 2)| == |Text.Padded(d, 2)| == |Text.Padded(e, 2)| == 2
    ensures Text.Less(Text.Padded(y, 4), Text.Padded(z, 4)) <==> y < z
    ensures Text.Less(Text.Padded(m, 2), Text.Padded(n, 2)) <==> m < n
    ensures Text.Less(Text.Padded(d, 2), Text.Padded(e, 2)) <==> d < e
    ensures Text.Padded(y, 4) == Text.Padded(z, 4) <==> y == z
    ensures Text.Padded(m, 2) == Text.Padded(n, 2) <==> m == n
  {
    Text.FourDigits(y);
    Text.FourDigits(z);
    Text.TwoDigits(m);
    Text.TwoDigits(n);
    Text.TwoDigits(d);
    Text.TwoDigits(e);
    Text.PaddedOrder(y, z, 4);
    Text.PaddedOrder(m, n, 2);
    Text.PaddedOrder(d, e, 2);
    Text.ValueOfPadded(y, 4);
    Text.ValueOfPadded(z, 4);
    Text.ValueOfPadded(m, 2);
    Text.ValueOfPadded(n, 2);
  }

  // ----- weeks -----

  /** Days since the Monday of the week: 0 is Monday, 6 is Sunday. */
  function Weekday(d: Day): (w: int)
    ensures 0 <= w < 7
  {
    (d - 1) % 7
  }

  function MondayOf(d: Day): (m: Day)
    ensures Weekday(m) == 0 && m <= d < m + 7
  {
    d - Weekday(d)
  }

  /** `iso_week().year()`: the calendar year of the week's Thursday. */
  function IsoYear(d: Day): int {
    YearOf(MondayOf(d) + 3)
  }

  /** `iso_week().week()`: counts the Thursdays of the year up to the week's own. */
  function IsoWeek(d: Day): int {
    var thursday := MondayOf(d) + 3;
    (thursday - YearStart(YearOf(thursday))) / 7 + 1
  }

  /** `from_isoywd_opt(year, 1, Mon)`: the Monday of the week containing January 4. */
  function Week1Monday(year: int): Day {
    MondayOf(YearStart(year) + 3)
  }

  function WeeksIn(year: int): int {
    (Week1Monday(year + 1) - Week1Monday(year)) / 7
  }

  lemma Week1Thursday(year: int)
    ensures YearStart(year) <= Week1Monday(year) + 3 < YearStart(year) + 7
    ensures Weekday(Week1Monday(year)) == 0
  {
  }

  /** The Mondays of an ISO year are exactly those from its first to the next year's first. */
  lemma MondaysOfYear(m: Day, year: int)
    requires Weekday(m) == 0
    ensures IsoYear(m) == year <==> Week1Monday(year) <= m < Week1Monday(year + 1)
  {
    var thursday := m + 3;
    assert MondayOf(m) == m;
    MondayReaches(m, year);
    MondayReaches(m, year + 1);
    if YearStart(year) <= thursday < YearStart(year + 1) {
      YearOfUnique(thursday, year);
    }
  }

  lemma MondayReaches(m: Day, year: int)
    requires Weekday(m) == 0
    ensures Week1Monday(year) <= m <==> YearStart(year) <= m + 3
  {
    Week1Thursday(year);
    if m < Week1Monday(year) {
      MondaysApart(m, Week1Monday(year));
    }
  }

  lemma MondaysApart(m: Day, n: Day)
    requires Weekday(m) == 0 && Weekday(n) == 0
    ensures (n - m) % 7 == 0
    ensures m < n ==> m + 7 <= n
  {
  }

  /** An ISO year has 52 or 53 weeks, the weeks fill it exactly, and it is long exactly when
      it begins on a Thursday or, being a leap year, on a Wednesday. */
  lemma FiftyTwoOrFiftyThree(year: int)
    ensures Week1Monday(year + 1) == Week1Monday(year) + 7 * WeeksIn(year)
    ensures WeeksIn(year) == 52 || WeeksIn(year) == 53
    ensures WeeksIn(year) == 53 <==>
      Weekday(YearStart(year)) == 3 || (IsLeap(year) && Weekday(YearStart(year)) == 2)
  {
    hide YearStart;
    YearLength(year);
    WeeksBetween(YearStart(year), if IsLeap(year) then 366 else 365);
  }

  lemma WeeksBetween(start: Day, length: int)
    requires length == 365 || length == 366
    ensures var apart := MondayOf(start + length + 3) - MondayOf(start + 3);
      && (apart == 364 || apart == 371)
      && (apart == 371 <==> Weekday(start) == 3 || (length == 366 && Weekday(start) == 2))
  {
    var w := Weekday(start);
    assert start == 7 * ((start - 1) / 7) + w + 1;
    assert MondayOf(start + 3) == start - w + (if w < 4 then 0 else 7) by {
      FirstMonday(start, w);
    }
    var v := (w + length) % 7;
    assert Weekday(start + length) == v;
    assert MondayOf(start + length + 3) == start + length - v + (if v < 4 then 0 else 7) by {
      FirstMonday(start + length, v);
    }
  }

  lemma FirstMonday(start: Day, w: int)
    requires w == Weekday(start)
    ensures MondayOf(start + 3) == start - w + (if w < 4 then 0 else 7)
  {
    assert (start + 2) % 7 == (w + 3) % 7;
  }

  /** The i-th Monday of an ISO year starts week i + 1 of that year. */
  lemma WeekNumber(year: int, i: int)
    requires 0 <= i < WeeksIn(year)
    ensures var m := Week1Monday(year) + 7 * i;
      Weekday(m) == 0 && IsoYear(m) == year && IsoWeek(m) == i + 1
  {
    var first := Week1Monday(year);
    var m := first + 7 * i;
    FiftyTwoOrFiftyThree(year);
    Week1Thursday(year);
    WeeksLater(first, i);
    MondaysOfYear(m, year);
    CountThursdays(YearStart(year), first, i);
  }

  lemma WeeksLater(m: Day, i: int)
    requires Weekday(m) == 0
    ensures Weekday(m + 7 * i) == 0 && MondayOf(m + 7 * i) == m + 7 * i
  {
  }

  lemma CountThursdays(start: Day, first: Day, i: int)
    requires start <= first + 3 < start + 7
    ensures (first + 7 * i + 3 - start) / 7 == i
  {
  }

  /** A day's Monday from its ISO year and week number. */
  lemma MondayFromIsoWeek(d: Day)
    ensures MondayOf(d) == Week1Monday(IsoYear(d)) + 7 * (IsoWeek(d) - 1)
    ensures 1 <= IsoWeek(d) <= WeeksIn(IsoYear(d))
  {
    hide YearStart;
    var m, year := MondayOf(d), IsoYear(d);
    assert MondayOf(m) == m && IsoYear(m) == year && IsoWeek(m) == IsoWeek(d);
    MondaysOfYear(m, year);
    FiftyTwoOrFiftyThree(year);
    Week1Thursday(year);
    MondaysApart(Week1Monday(year), m);
    WeekNumber(year, (m - Week1Monday(year)) / 7);
  }
}
