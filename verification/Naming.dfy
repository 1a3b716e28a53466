/**
 Backup slots and object names. A name depends on the clock hour only: hours are
 counted through, hour 0 being midnight of day 1 (0001-01-01, UTC).
 */
module Naming {
  import opened Wrappers
  import opened Calendar
  import Text
  import Apartments

  datatype Slot = Hourly | Daily | Weekly | Yearly

  type Hour = int

  function DayOfHour(h: Hour): Day {
    h / 24 + 1
  }

  function HourOfDay(h: Hour): (k: nat)
    ensures k < 24
  {
    h % 24
  }

  /** The last Sunday on or before December 31. */
  function LastSunday(year: int): Day {
    var dec31 := YearStart(year + 1) - 1;
    dec31 - (Weekday(dec31) + 1) % 7
  }

  predicate IsLastSundayOfYear(d: Day) {
    d == LastSunday(YearOf(d))
  }

  function SlotOf(h: Hour): Slot {
    if HourOfDay(h) == 4 then
      if Weekday(DayOfHour(h)) == 6 then
        if IsLastSundayOfYear(DayOfHour(h)) then Yearly else Weekly
      else Daily
    else Hourly
  }

  function Label(s: Slot): string {
    match s
    case Hourly => "hourly"
    case Daily => "daily"
    case Weekly => "weekly"
    case Yearly => "yearly"
  }

  /** `%A` */
  function WeekdayName(w: nat): string
    requires w < 7
  {
    ["Monday", "Tuesday", "Wednesday", "Thursday", "Friday", "Saturday", "Sunday"][w]
  }

  function SlotKey(h: Hour): string {
    match SlotOf(h)
    case Yearly => Text.PaddedInt(YearOf(DayOfHour(h)), 4)
    case Weekly => Text.PaddedInt(IsoWeek(DayOfHour(h)), 2)
    case Daily => WeekdayName(Weekday(DayOfHour(h)))
    case Hourly => Text.Padded(HourOfDay(h), 2)
  }

  /** `slot_object_part` */
  function SlotObjectPart(h: Hour): string {
    Label(SlotOf(h)) + "-" + SlotKey(h)
  }

  function ObjectName(prefix: string, h: Hour): string {
    prefix + "." + SlotObjectPart(h) + ".db.age"
  }

  function AliasName(prefix: string, s: Slot): string {
    prefix + "." + Label(s) + "-latest.alias"
  }

  // ----- the names tell slots, keys and aliases apart -----

  lemma LabelsDiffer(a: Slot, b: Slot, x: string, y: string)
    requires Label(a) + x == Label(b) + y
    ensures a == b && x == y
  {
    assert (Label(a) + x)[0] == Label(a)[0] && (Label(b) + y)[0] == Label(b)[0];
    assert (Label(a) + x)[|Label(a)|..] == x && (Label(b) + y)[|Label(b)|..] == y;
  }

  lemma WeekdayNamesDiffer(v: nat, w: nat)
    requires v < 7 && w < 7 && WeekdayName(v) == WeekdayName(w)
    ensures v == w
  {
    var names := ["Monday", "Tuesday", "Wednesday", "Thursday", "Friday", "Saturday", "Sunday"];
    assert names[v][..2] == names[w][..2];
    assert names[0][..2] == "Mo" && names[1][..2] == "Tu" && names[2][..2] == "We" && names[3][..2] == "Th";
    assert names[4][..2] == "Fr" && names[5][..2] == "Sa" && names[6][..2] == "Su";
  }

  lemma Unwrap(prefix: string, a: string, b: string, suffix: string)
    requires prefix + "." + a + suffix == prefix + "." + b + suffix
    ensures a == b
  {
    var s, t := prefix + "." + a + suffix, prefix + "." + b + suffix;
    assert |s| == |t|;
    assert s[|prefix| + 1..|s| - |suffix|] == a && t[|prefix| + 1..|t| - |suffix|] == b;
  }

  /** Two runs share an object name exactly when they share the slot and its key. */
  lemma SameNameIff(prefix: string, g: Hour, h: Hour)
    ensures ObjectName(prefix, g) == ObjectName(prefix, h) <==> SlotOf(g) == SlotOf(h) && SlotKey(g) == SlotKey(h)
  {
    hide SlotKey, SlotOf;
    if ObjectName(prefix, g) == ObjectName(prefix, h) {
      Unwrap(prefix, SlotObjectPart(g), SlotObjectPart(h), ".db.age");
      assert Label(SlotOf(g)) + ("-" + SlotKey(g)) == SlotObjectPart(g);
      assert Label(SlotOf(h)) + ("-" + SlotKey(h)) == SlotObjectPart(h);
      LabelsDiffer(SlotOf(g), SlotOf(h), "-" + SlotKey(g), "-" + SlotKey(h));
      assert ("-" + SlotKey(g))[1..] == SlotKey(g) && ("-" + SlotKey(h))[1..] == SlotKey(h);
    }
  }

  lemma AliasesDiffer(prefix: string, a: Slot, b: Slot)
    requires AliasName(prefix, a) == AliasName(prefix, b)
    ensures a == b
  {
    Unwrap(prefix, Label(a), Label(b), "-latest.alias");
    LabelsDiffer(a, b, "", "");
  }

  lemma AliasIsNoObject(prefix: string, s: Slot, h: Hour)
    ensures AliasName(prefix, s) != ObjectName(prefix, h)
  {
    var a, o := AliasName(prefix, s), ObjectName(prefix, h);
    assert a[|a| - 1] == 's' && o[|o| - 1] == 'e';
  }

  // ----- retention -----

  /** Each calendar year has exactly one yearly date. */
  lemma OneYearlyDate(d: Day, year: int)
    ensures YearOf(d) == year && IsLastSundayOfYear(d) <==> d == LastSunday(year)
    ensures Weekday(LastSunday(year)) == 6 && YearOf(LastSunday(year)) == year
    ensures YearStart(year + 1) - 7 <= LastSunday(year) < YearStart(year + 1)
  {
    hide YearStart, YearOf, Weekday, IsLeap;
    LastSundayBounds(YearStart(year + 1));
    YearLength(year);
    YearOfUnique(LastSunday(year), year);
  }

  lemma LastSundayBounds(next: Day)
    ensures var d := next - 1 - (Weekday(next - 1) + 1) % 7;
      Weekday(d) == 6 && next - 7 <= d < next
  {
    var w := Weekday(next - 1);
    assert next - 1 == 7 * ((next - 2) / 7) + w + 1;
    assert Weekday(next - 1 - (w + 1) % 7) == 6 by {
      if w == 6 {
      } else {
        assert (next - 1 - (w + 1) - 1) % 7 == 6;
      }
    }
  }

  lemma {:induction false} Week1Apart(y: int, z: int)
    requires y < z
    ensures Week1Monday(y) + 364 * (z - y) <= Week1Monday(z)
    decreases z - y
  {
    hide Week1Monday;
    FiftyTwoOrFiftyThree(z - 1);
    if y < z - 1 {
      Week1Apart(y, z - 1);
    }
  }

  lemma IsoYearGrows(d: Day, e: Day)
    requires d <= e
    ensures MondayOf(d) <= MondayOf(e) && IsoYear(d) <= IsoYear(e)
  {
    hide YearOf;
    MondayGrows(d, e);
    YearOfMonotone(MondayOf(d) + 3, MondayOf(e) + 3);
  }

  lemma MondayGrows(d: Day, e: Day)
    requires d <= e
    ensures MondayOf(d) <= MondayOf(e)
  {
    if MondayOf(e) < MondayOf(d) {
      MondaysApart(MondayOf(e), MondayOf(d));
    }
  }

  /** Equally numbered weeks of different years are at least 52 weeks apart. */
  lemma SameWeekNumberApart(d: Day, e: Day)
    requires Weekday(d) == 6 && Weekday(e) == 6 && d < e && IsoWeek(d) == IsoWeek(e)
    ensures e - d >= 364
  {
    hide Week1Monday, WeeksIn, IsoYear, IsoWeek, YearOf;
    IsoYearGrows(d, e);
    MondayFromIsoWeek(d);
    MondayFromIsoWeek(e);
    if IsoYear(d) < IsoYear(e) {
      Week1Apart(IsoYear(d), IsoYear(e));
    }
  }

  /**
   The retention horizon: two different clock hours with the same object name
   lie at least 24 hours (hourly), 7 days (daily) or 364 days (weekly) apart; a
   yearly name never comes again.
   */
  lemma RetentionHorizon(prefix: string, g: Hour, h: Hour)
    requires g < h && ObjectName(prefix, g) == ObjectName(prefix, h)
    ensures SlotOf(g) == SlotOf(h)
    ensures SlotOf(g) != Yearly
    ensures SlotOf(g) == Hourly ==> h - g >= 24
    ensures SlotOf(g) == Daily ==> h - g >= 7 * 24
    ensures SlotOf(g) == Weekly ==> h - g >= 364 * 24
  {
    hide ObjectName, YearOf, IsoWeek, LastSunday, DayOfHour, HourOfDay, Weekday, WeekdayName;
    hide Text.Padded, Text.PaddedInt;
    SameNameIff(prefix, g, h);
    var d, e := DayOfHour(g), DayOfHour(h);
    HourFour(g);
    HourFour(h);
    match SlotOf(g)
    case Hourly =>
      SameHourIff(g, h);
      MultipleApart(h - g, 24);
    case Daily =>
      SameWeekdayIff(g, h);
      MultipleApart(h - g, 168);
    case Weekly =>
      Text.PaddedIntInjective(IsoWeek(d), IsoWeek(e), 2);
      SameWeekNumberApart(d, e);
    case Yearly =>
      Text.PaddedIntInjective(YearOf(d), YearOf(e), 4);
      OneYearlyDate(d, YearOf(d));
      OneYearlyDate(e, YearOf(d));
      assert false;
  }

  lemma HourFour(h: Hour)
    ensures HourOfDay(h) == 4 ==> h == 24 * (DayOfHour(h) - 1) + 4
  {
  }

  lemma MultipleApart(n: int, k: int)
    requires n > 0 && k > 0 && n % k == 0
    ensures n >= k
  {
    assert n == k * (n / k);
  }

  /** Which clock hours share a name: hourly names every 24 hours, daily names every 7 days, weekly names with the
      same ISO week number, yearly names in the same year only, that is, never again. */
  lemma SameNameExactly(prefix: string, g: Hour, h: Hour)
    ensures ObjectName(prefix, g) == ObjectName(prefix, h) <==>
      && SlotOf(g) == SlotOf(h)
      && match SlotOf(g)
         case Hourly => (h - g) % 24 == 0
         case Daily => (h - g) % (7 * 24) == 0
         case Weekly => IsoWeek(DayOfHour(g)) == IsoWeek(DayOfHour(h))
         case Yearly => g == h
  {
    hide ObjectName, YearOf, IsoWeek, LastSunday, DayOfHour, HourOfDay, Weekday, WeekdayName;
    hide Text.Padded, Text.PaddedInt;
    SameNameIff(prefix, g, h);
    if SlotOf(g) == SlotOf(h) {
      match SlotOf(g)
      case Hourly => SameHourIff(g, h);
      case Daily => SameWeekdayIff(g, h);
      case Weekly =>
        if SlotKey(g) == SlotKey(h) {
          Text.PaddedIntInjective(IsoWeek(DayOfHour(g)), IsoWeek(DayOfHour(h)), 2);
        }
      case Yearly =>
        if SlotKey(g) == SlotKey(h) && g != h {
          RetentionHorizon(prefix, if g < h then g else h, if g < h then h else g);
        }
    }
  }

  lemma SameHourIff(g: Hour, h: Hour)
    ensures Text.Padded(HourOfDay(g), 2) == Text.Padded(HourOfDay(h), 2) <==> (h - g) % 24 == 0
  {
    if Text.Padded(HourOfDay(g), 2) == Text.Padded(HourOfDay(h), 2) {
      Text.PaddedInjective(HourOfDay(g), HourOfDay(h), 2);
    }
    assert HourOfDay(g) == HourOfDay(h) <==> (h - g) % 24 == 0;
  }

  lemma SameWeekdayIff(g: Hour, h: Hour)
    requires HourOfDay(g) == HourOfDay(h) == 4
    ensures WeekdayName(Weekday(DayOfHour(g))) == WeekdayName(Weekday(DayOfHour(h))) <==> (h - g) % (7 * 24) == 0
  {
    hide HourOfDay, DayOfHour, Weekday, WeekdayName;
    var d, e := DayOfHour(g), DayOfHour(h);
    HourFour(g);
    HourFour(h);
    if WeekdayName(Weekday(d)) == WeekdayName(Weekday(e)) {
      WeekdayNamesDiffer(Weekday(d), Weekday(e));
    }
    WeekdaysApart(d, e);
    ScaledRemainder(e - d);
  }

  lemma WeekdaysApart(d: Day, e: Day)
    ensures Weekday(d) == Weekday(e) <==> (e - d) % 7 == 0
  {
  }

  lemma ScaledRemainder(x: int)
    ensures (24 * x) % (7 * 24) == 0 <==> x % 7 == 0
  {
    var q, r := x / 7, x % 7;
    assert 24 * x == 168 * q + 24 * r;
  }

  /** Which run is of which slot: at hour 4, yearly on the last Sunday of the year (the Sunday in its last seven days),
      weekly on every other Sunday and daily on other days; hourly at every other hour. */
  lemma SlotIff(h: Hour)
    ensures var d := h / 24 + 1;
      var last := YearStart(YearOf(d) + 1) - 7 <= d;
      && (SlotOf(h) == Yearly <==> h % 24 == 4 && d % 7 == 0 && last)
      && (SlotOf(h) == Weekly <==> h % 24 == 4 && d % 7 == 0 && !last)
      && (SlotOf(h) == Daily <==> h % 24 == 4 && d % 7 != 0)
      && (SlotOf(h) == Hourly <==> h % 24 != 4)
  {
    hide YearStart, YearOf, LastSunday;
    var d := h / 24 + 1;
    assert d == DayOfHour(h) && h % 24 == HourOfDay(h);
    SundayIff(d);
    OneYearlyDate(d, YearOf(d));
    if Weekday(d) == 6 && YearStart(YearOf(d) + 1) - 7 <= d {
      SundaysOfAWeek(d, LastSunday(YearOf(d)), YearStart(YearOf(d) + 1));
    }
  }

  lemma SundayIff(d: Day)
    ensures Weekday(d) == 6 <==> d % 7 == 0
  {
  }

  lemma SundaysOfAWeek(d: Day, e: Day, next: Day)
    requires Weekday(d) == 6 && Weekday(e) == 6 && next - 7 <= d < next && next - 7 <= e < next
    ensures d == e
  {
  }

  function Morning(d: Day): Hour {
    24 * (d - 1) + 4
  }

  lemma MorningName(d: Day)
    ensures SlotObjectPart(Morning(d)) ==
      if d % 7 != 0 then "daily-" + WeekdayName(Weekday(d))
      else if YearStart(YearOf(d) + 1) - 7 <= d then "yearly-" + Text.PaddedInt(YearOf(d), 4)
      else "weekly-" + Text.PaddedInt(IsoWeek(d), 2)
  {
    hide YearOf, YearStart, IsoWeek, SlotOf, WeekdayName, Text.PaddedInt;
    var h := Morning(d);
    FourOClock(d);
    SlotIff(h);
    var slot := SlotOf(h);
    assert "weekly" + "-" == "weekly-" && "daily" + "-" == "daily-" && "yearly" + "-" == "yearly-";
  }

  lemma FourOClock(d: Day)
    ensures DayOfHour(Morning(d)) == d && HourOfDay(Morning(d)) == 4
    ensures Morning(d) / 24 + 1 == d && Morning(d) % 24 == 4
  {
  }

  /** The names that src/backup/naming.rs:51-61 and 107-149 promise: for hour 9 of any day; for 04:00 on the days of a
      week from Monday, September 7, 2026, on; on Sundays of ISO weeks 36 and 53; and on the last Sunday of 2026. */
  lemma NamesAsDocumented(day: Day)
    ensures ObjectName("kehrkraft", 24 * (day - 1) + 9) == "kehrkraft.hourly-09.db.age"
    ensures AliasName("kehrkraft", Hourly) == "kehrkraft.hourly-latest.alias"
    ensures SlotObjectPart(Morning(DayOf(2026, 9, 7))) == "daily-Monday"
    ensures SlotObjectPart(Morning(DayOf(2026, 9, 8))) == "daily-Tuesday"
    ensures SlotObjectPart(Morning(DayOf(2026, 9, 9))) == "daily-Wednesday"
    ensures SlotObjectPart(Morning(DayOf(2026, 9, 10))) == "daily-Thursday"
    ensures SlotObjectPart(Morning(DayOf(2026, 9, 11))) == "daily-Friday"
    ensures SlotObjectPart(Morning(DayOf(2026, 9, 12))) == "daily-Saturday"
    ensures SlotObjectPart(Morning(DayOf(2026, 9, 6))) == "weekly-36"
    ensures SlotObjectPart(Morning(DayOf(2027, 1, 3))) == "weekly-53"
    ensures SlotObjectPart(Morning(DayOf(2026, 12, 27))) == "yearly-2026"
  {
    hide DayOf, SlotObjectPart, ObjectName, Morning;
    DocumentedDays();
    NineOClock(day);
    WeekdayNames();
    SundayNames();
  }

  lemma WeekdayNames()
    ensures SlotObjectPart(Morning(739866)) == "daily-Monday" && SlotObjectPart(Morning(739867)) == "daily-Tuesday"
    ensures SlotObjectPart(Morning(739868)) == "daily-Wednesday" && SlotObjectPart(Morning(739869)) == "daily-Thursday"
    ensures SlotObjectPart(Morning(739870)) == "daily-Friday" && SlotObjectPart(Morning(739871)) == "daily-Saturday"
  {
    hide SlotObjectPart, Morning, WeekdayName;
    WeekdayMorning(739866);
    WeekdayMorning(739867);
    WeekdayMorning(739868);
    WeekdayMorning(739869);
    WeekdayMorning(739870);
    WeekdayMorning(739871);
    DayNames();
  }

  lemma WeekdayMorning(d: Day)
    requires d % 7 != 0
    ensures SlotObjectPart(Morning(d)) == "daily-" + WeekdayName((d - 1) % 7)
  {
    hide YearOf, YearStart, IsoWeek, SlotObjectPart, Morning, WeekdayName;
    MorningName(d);
  }

  lemma DayNames()
    ensures "daily-" + WeekdayName(0) == "daily-Monday" && "daily-" + WeekdayName(1) == "daily-Tuesday"
    ensures "daily-" + WeekdayName(2) == "daily-Wednesday" && "daily-" + WeekdayName(3) == "daily-Thursday"
    ensures "daily-" + WeekdayName(4) == "daily-Friday" && "daily-" + WeekdayName(5) == "daily-Saturday"
  {
  }

  lemma SundayNames()
    ensures SlotObjectPart(Morning(739865)) == "weekly-36" && SlotObjectPart(Morning(739984)) == "weekly-53"
    ensures SlotObjectPart(Morning(739977)) == "yearly-2026"
  {
    hide YearOf, YearStart, IsoWeek, SlotObjectPart, Morning, Text.PaddedInt;
    MorningName(739865);
    MorningName(739984);
    MorningName(739977);
    DocumentedDays();
    DocumentedWeeks();
    assert "weekly-" + "36" == "weekly-36" && "weekly-" + "53" == "weekly-53" && "yearly-" + "2026" == "yearly-2026";
  }

  lemma NineOClock(day: Day)
    ensures ObjectName("kehrkraft", 24 * (day - 1) + 9) == "kehrkraft.hourly-09.db.age"
  {
    hide YearOf, IsoWeek;
    var h := 24 * (day - 1) + 9;
    assert HourOfDay(h) == 9;
    assert Text.Padded(0, 1) == "0" && Text.Padded(9, 2) == "09";
    assert SlotObjectPart(h) == "hourly" + "-" + "09";
  }

  lemma DocumentedDays()
    ensures DayOf(2026, 9, 6) == 739865 && DayOf(2026, 9, 7) == 739866 && DayOf(2026, 9, 8) == 739867
    ensures DayOf(2026, 9, 9) == 739868 && DayOf(2026, 9, 10) == 739869 && DayOf(2026, 9, 11) == 739870
    ensures DayOf(2026, 9, 12) == 739871 && DayOf(2027, 1, 3) == 739984 && DayOf(2026, 12, 27) == 739977
    ensures YearStart(2026) == 739617 && YearStart(2027) == 739982 && YearStart(2028) == 740347
  {
  }

  lemma DocumentedWeeks()
    ensures YearOf(739865) == 2026 && YearOf(739977) == 2026 && YearOf(739984) == 2027
    ensures IsoWeek(739865) == 36 && IsoWeek(739984) == 53
    ensures Text.PaddedInt(36, 2) == "36" && Text.PaddedInt(53, 2) == "53" && Text.PaddedInt(2026, 4) == "2026"
  {
    hide YearOf, YearStart;
    DocumentedDays();
    YearOfUnique(739865, 2026);
    YearOfUnique(739977, 2026);
    YearOfUnique(739984, 2027);
    YearOfUnique(739862, 2026);
    YearOfUnique(739981, 2026);
    assert Text.Padded(3, 1) == "3" && Text.Padded(5, 1) == "5" && Text.Padded(2, 1) == "2";
    assert Text.Padded(20, 2) == "20" && Text.Padded(202, 3) == "202";
  }

  // ----- how many names there are -----

  function Image(f: int -> string, n: nat): set<string> {
    set i | 0 <= i < n :: f(i)
  }

  lemma {:induction false} ImageSize(f: int -> string, n: nat)
    ensures |Image(f, n)| <= n
  {
    if n > 0 {
      ImageSize(f, n - 1);
      assert Image(f, n) == Image(f, n - 1) + {f(n - 1)};
    }
  }

  lemma InImage(f: int -> string, n: nat, i: nat)
    requires i < n
    ensures f(i) in Image(f, n)
  {
  }

  function Name(prefix: string, s: Slot, key: string): string {
    prefix + "." + (Label(s) + "-" + key) + ".db.age"
  }

  /** 23 hours, 6 weekdays, 53 weeks: the yearly slot aside. */
  function HourlyName(prefix: string): int -> string {
    i => Name(prefix, Hourly, Text.PaddedInt(if i < 4 then i else i + 1, 2))
  }

  function DailyName(prefix: string): int -> string {
    i => Name(prefix, Daily, if 0 <= i < 7 then WeekdayName(i) else "")
  }

  function WeeklyName(prefix: string): int -> string {
    i => Name(prefix, Weekly, Text.PaddedInt(i + 1, 2))
  }

  function YearlyName(prefix: string, firstYear: int): int -> string {
    i => Name(prefix, Yearly, Text.PaddedInt(firstYear + i, 4))
  }

  function PossibleNames(prefix: string, firstYear: int, years: nat): set<string> {
    Image(HourlyName(prefix), 23) + Image(DailyName(prefix), 6) + Image(WeeklyName(prefix), 53) +
    Image(YearlyName(prefix, firstYear), years)
  }

  lemma NameIsPossible(prefix: string, h: Hour, firstYear: int, years: nat)
    requires firstYear <= YearOf(DayOfHour(h)) < firstYear + years
    ensures ObjectName(prefix, h) in PossibleNames(prefix, firstYear, years)
  {
    hide IsoWeek, YearOf, MondayOf, IsoYear, WeeksIn, Week1Monday, Image, Name, ObjectName, SlotOf, SlotKey;
    hide DayOfHour, Weekday, HourOfDay, WeekdayName, Text.PaddedInt;
    var d := DayOfHour(h);
    NamedBySlot(prefix, h);
    match SlotOf(h)
    case Hourly =>
      var k := HourOfDay(h);
      InImage(HourlyName(prefix), 23, if k < 4 then k else k - 1);
    case Daily =>
      InImage(DailyName(prefix), 6, Weekday(d));
    case Weekly =>
      MondayFromIsoWeek(d);
      FiftyTwoOrFiftyThree(IsoYear(d));
      InImage(WeeklyName(prefix), 53, IsoWeek(d) - 1);
    case Yearly =>
      InImage(YearlyName(prefix, firstYear), years, YearOf(d) - firstYear);
  }

  /** The slot and its key make up the name. */
  lemma NamedBySlot(prefix: string, h: Hour)
    ensures ObjectName(prefix, h) == Name(prefix, SlotOf(h), SlotKey(h))
    ensures SlotOf(h) == Hourly ==> HourOfDay(h) != 4 && SlotKey(h) == Text.PaddedInt(HourOfDay(h), 2)
    ensures SlotOf(h) == Daily ==> Weekday(DayOfHour(h)) < 6 && SlotKey(h) == WeekdayName(Weekday(DayOfHour(h)))
    ensures SlotOf(h) == Weekly ==> SlotKey(h) == Text.PaddedInt(IsoWeek(DayOfHour(h)), 2)
    ensures SlotOf(h) == Yearly ==> SlotKey(h) == Text.PaddedInt(YearOf(DayOfHour(h)), 4)
  {
    hide IsoWeek, YearOf, LastSunday, Label;
  }

  /**
   Retention without deletion: runs in any clock hours of Y calendar years write
   at most 23 + 6 + 53 + Y different backup objects.
   */
  lemma RetentionBound(prefix: string, hours: set<Hour>, firstYear: int, years: nat)
    requires forall h :: h in hours ==> firstYear <= YearOf(DayOfHour(h)) < firstYear + years
    ensures |set h | h in hours :: ObjectName(prefix, h)| <= 23 + 6 + 53 + years
  {
    hide YearOf, ObjectName;
    var names := set h | h in hours :: ObjectName(prefix, h);
    forall h | h in hours
      ensures ObjectName(prefix, h) in PossibleNames(prefix, firstYear, years)
    {
      NameIsPossible(prefix, h, firstYear, years);
    }
    Apartments.SubsetSize(names, PossibleNames(prefix, firstYear, years));
    ImageSize(HourlyName(prefix), 23);
    ImageSize(DailyName(prefix), 6);
    ImageSize(WeeklyName(prefix), 53);
    ImageSize(YearlyName(prefix, firstYear), years);
  }
}
