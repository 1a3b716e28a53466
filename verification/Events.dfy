/**
 What a subscriber reads from the feed: one event a week, in order, from Monday to
 the Monday after, with the week's number and assignee.
 */
module Events {
  import opened Wrappers
  import opened Calendar
  import opened Scheduler
  import opened Ical
  import opened Feed
  import Text
  import Years

  // ----- reading numbers and dates -----

  /** A number with an optional sign. */
  function ReadInt(s: string): int {
    if s != "" && s[0] == '-' then -Text.Value(s[1..]) else Text.Value(s)
  }

  lemma ReadPaddedInt(n: int, width: nat)
    ensures ReadInt(Text.PaddedInt(n, width)) == n
  {
    var s := Text.PaddedInt(n, width);
    if n < 0 {
      Text.ValueOfPadded(-n, if width == 0 then 0 else width - 1);
      assert s[1..] == Text.Padded(-n, if width == 0 then 0 else width - 1);
    } else {
      Text.ValueOfPadded(n, width);
      assert s[0] in s;
    }
  }

  /** The day of a date's numbers, if there is one. */
  function DayFrom(y: int, m: int, d: int): Option<Day> {
    if ValidDate(y, m, d) then Some(DayOf(y, m, d)) else None
  }

  /** YYYYMMDD: the last two digits are the day, the two before the month, the rest the year. */
  function ReadDate(s: string): Option<Day> {
    var n := |s|;
    if n < 4 then None
    else DayFrom(ReadInt(s[..n - 4]), Text.Value(s[n - 4..n - 2]), Text.Value(s[n - 2..]))
  }

  lemma MonthAndDayDigits(d: Day)
    ensures var (y, m, k) := CivilOf(d);
      && |Text.Padded(m, 2)| == |Text.Padded(k, 2)| == 2
      && Text.Value(Text.Padded(m, 2)) == m && Text.Value(Text.Padded(k, 2)) == k
      && ReadInt(Text.PaddedInt(y, 4)) == y && DayFrom(y, m, k) == Some(d)
  {
    hide YearOf;
    var (y, m, k) := CivilOf(d);
    Text.TwoDigits(m);
    Text.TwoDigits(k);
    Text.ValueOfPadded(m, 2);
    Text.ValueOfPadded(k, 2);
    ReadPaddedInt(y, 4);
  }

  /** DTSTART and DTEND carry the day. */
  lemma DateValueReads(d: Day)
    ensures ReadDate(DateValue(d)) == Some(d)
  {
    hide CivilOf, Text.Padded, Text.PaddedInt, Text.Value, ReadInt, DayFrom;
    MonthAndDayDigits(d);
    var (y, m, k) := CivilOf(d);
    var s, head := DateValue(d), Text.PaddedInt(y, 4);
    assert s == head + Text.Padded(m, 2) + Text.Padded(k, 2);
    assert s[..|s| - 4] == head && s[|s| - 4..|s| - 2] == Text.Padded(m, 2) && s[|s| - 2..] == Text.Padded(k, 2);
  }

  /** 21.09.2026 or 2026-09-21 */
  function ReadShown(l: Lang, s: string): Option<Day> {
    var n := |s|;
    if n < 6 then None
    else if l == De then DayFrom(ReadInt(s[6..]), Text.Value(s[3..5]), Text.Value(s[..2]))
    else DayFrom(ReadInt(s[..n - 6]), Text.Value(s[n - 5..n - 3]), Text.Value(s[n - 2..]))
  }

  lemma ShownDateReads(l: Lang, d: Day)
    ensures ReadShown(l, ShownDate(l, d)) == Some(d)
  {
    hide CivilOf, Text.Padded, Text.PaddedInt, Text.Value, ReadInt, DayFrom;
    MonthAndDayDigits(d);
    var (y, m, k) := CivilOf(d);
    var s, yt, mt, kt := ShownDate(l, d), Text.PaddedInt(y, 4), Text.Padded(m, 2), Text.Padded(k, 2);
    if l == De {
      assert s == kt + "." + mt + "." + yt;
      assert s[..2] == kt && s[3..5] == mt && s[6..] == yt;
    } else {
      assert s == yt + "-" + mt + "-" + kt;
      assert s[..|s| - 6] == yt && s[|s| - 5..|s| - 3] == mt && s[|s| - 2..] == kt;
    }
  }

  // ----- reading an event -----

  /** The value of the first property of the name. */
  function ValueOf(props: seq<Property>, name: string): Option<string> {
    if props == [] then None
    else if props[0].name == name then Some(props[0].value)
    else ValueOf(props[1..], name)
  }

  /** The position of the first colon. */
  function Colon(s: string): nat {
    if s == "" || s[0] == ':' then 0 else 1 + Colon(s[1..])
  }

  lemma {:induction false} ColonAfter(head: string, rest: string)
    requires forall i :: 0 <= i < |head| ==> head[i] != ':'
    ensures Colon(head + (":" + rest)) == |head|
  {
    if head == "" {
      assert head + (":" + rest) == ":" + rest;
    } else {
      assert (head + (":" + rest))[1..] == head[1..] + (":" + rest);
      ColonAfter(head[1..], rest);
    }
  }

  /** "Kehrwoche KW 39: Anna": the week number stands between the thirteenth character and the colon, the name two
      characters after the colon. */
  function ReadSummary(s: string): (int, string) {
    var n := Colon(s);
    (if 13 <= n <= |s| then ReadInt(s[13..n]) else 0, if n + 2 <= |s| then s[n + 2..] else "")
  }

  /** Who is shown for the week. */
  function ShownName(l: Lang, w: WeekAssignment): string {
    if w.assignee.Some? then w.assignee.value.name else if l == De then "Nicht zugewiesen" else "Unassigned"
  }

  lemma SummaryReads(l: Lang, w: WeekAssignment)
    ensures ReadSummary(Summary(l, w)) == (w.isoWeek, ShownName(l, w))
    ensures |Summary(l, w)| >= 13 && Summary(l, w)[10..12] == if l == De then "KW" else "CW"
  {
    hide Text.PaddedInt, ReadInt, Colon;
    var prefix := if l == De then "Kehrwoche KW " else "Kehrwoche CW ";
    var number, name := Text.PaddedInt(w.isoWeek, 1), ShownName(l, w);
    ReadPaddedInt(w.isoWeek, 1);
    NoColonInNumber(w.isoWeek);
    SummaryParts(prefix, number, name);
    assert Summary(l, w) == prefix + number + ": " + name;
    assert (prefix + number + ": " + name)[10..12] == prefix[10..12];
  }

  lemma SummaryParts(prefix: string, number: string, name: string)
    requires |prefix| == 13 && forall i :: 0 <= i < 13 ==> prefix[i] != ':'
    requires forall c :: c in number ==> c != ':'
    ensures ReadSummary(prefix + number + ": " + name) == (ReadInt(number), name)
  {
    hide Colon, ReadInt;
    var head, s := prefix + number, prefix + number + ": " + name;
    assert s == head + (":" + (" " + name));
    assert forall i :: 0 <= i < |number| ==> number[i] in number;
    ColonAfter(head, " " + name);
    assert s[13..|head|] == number && s[|head| + 2..] == name;
  }

  lemma NoColonInNumber(n: int)
    ensures forall c :: c in Text.PaddedInt(n, 1) ==> c != ':'
  {
  }

  /** The building and the two dates of the description, of four-digit years. */
  lemma DescriptionReads(l: Lang, building: string, w: WeekAssignment)
    requires 0 <= YearOf(w.start) <= 9999 && 0 <= YearOf(w.end) <= 9999
    ensures var s := Description(l, building, w);
      var caption := if l == De then "Gebäude: " else "Building: ";
      var n := |s|;
      && n == |caption| + |building| + 24
      && s[..|caption|] == caption && s[|caption|..n - 24] == building && s[n - 24] == '\n'
      && ReadShown(l, s[n - 23..n - 13]) == Some(w.start) && s[n - 13..n - 10] == " – "
      && ReadShown(l, s[n - 10..]) == Some(w.end)
  {
    hide ShownDate, ReadShown;
    ShownDateReads(l, w.start);
    ShownDateReads(l, w.end);
    TenCharacters(l, w.start);
    TenCharacters(l, w.end);
    var s := Description(l, building, w);
    var caption := if l == De then "Gebäude: " else "Building: ";
    var from, to_ := ShownDate(l, w.start), ShownDate(l, w.end);
    assert s == caption + building + "\n" + from + " – " + to_;
    var n := |s|;
    assert s[n - 10..] == to_ && s[n - 13..n - 10] == " – " && s[n - 23..n - 13] == from;
  }

  lemma TenCharacters(l: Lang, d: Day)
    requires 0 <= YearOf(d) <= 9999
    ensures |ShownDate(l, d)| == 10
  {
    hide YearOf, Text.Padded;
    var (y, m, k) := CivilOf(d);
    DayOfInYear(y, m, k);
    YearOfUnique(d, y);
    Text.FourDigits(y);
    Text.TwoDigits(m);
    Text.TwoDigits(k);
  }

  /** The event says when its week starts, when the next one starts, which week it is, and whose. */
  ghost predicate Tells(props: seq<Property>, w: WeekAssignment, l: Lang) {
    && ValueOf(props, "DTSTART;VALUE=DATE").Some? && ValueOf(props, "DTEND;VALUE=DATE").Some?
    && ValueOf(props, "SUMMARY").Some?
    && ReadDate(ValueOf(props, "DTSTART;VALUE=DATE").value) == Some(w.start)
    && ReadDate(ValueOf(props, "DTEND;VALUE=DATE").value) == Some(w.end + 1)
    && ReadSummary(ValueOf(props, "SUMMARY").value) == (w.isoWeek, ShownName(l, w))
  }

  lemma EventTells(building: string, slug: string, w: WeekAssignment, l: Lang, stamp: string)
    requires w.isoWeek >= 0
    ensures var props := EventProps(building, slug, w, l, stamp);
      && Tells(props, w, l)
      && ValueOf(props, "UID") == Some(UidFor(slug, w.year, w.isoWeek))
      && ValueOf(props, "DTSTAMP") == Some(stamp)
      && ValueOf(props, "DESCRIPTION") == Some(Description(l, building, w))
  {
    hide Summary, Description, UidFor, DateValue, ReadDate, ReadSummary, ValueOf;
    var props := EventProps(building, slug, w, l, stamp);
    DateValueReads(w.start);
    DateValueReads(w.end + 1);
    SummaryReads(l, w);
    ValueAt(props, 1);
    ValueAt(props, 2);
    ValueAt(props, 3);
    ValueAt(props, 4);
    ValueAt(props, 5);
    ValueAt(props, 6);
  }

  lemma {:induction false} ValueAt(props: seq<Property>, i: nat)
    requires i < |props| && forall j :: 0 <= j < i ==> props[j].name != props[i].name
    ensures ValueOf(props, props[i].name) == Some(props[i].value)
  {
    if i > 0 {
      assert forall j :: 0 <= j < i - 1 ==> props[1..][j] == props[j + 1];
      ValueAt(props[1..], i - 1);
    }
  }

  // ----- reading the feed -----

  const BEGIN_EVENT := Property("BEGIN", "VEVENT")
  const END_EVENT := Property("END", "VEVENT")

  /** How many properties there are up to the end of an event. */
  function EndOf(props: seq<Property>): (n: nat)
    ensures n <= |props| && (props != [] ==> n > 0)
  {
    if props == [] then 0 else if props[0] == END_EVENT then 1 else 1 + EndOf(props[1..])
  }

  /** The events between their BEGIN and END properties. */
  function Blocks(props: seq<Property>): seq<seq<Property>> {
    if props == [] then []
    else if props[0] == BEGIN_EVENT then [props[..EndOf(props)]] + Blocks(props[EndOf(props)..])
    else Blocks(props[1..])
  }

  lemma {:induction false} EndAfter(head: seq<Property>, rest: seq<Property>)
    requires head != [] && head[|head| - 1] == END_EVENT
    requires forall i :: 0 <= i < |head| - 1 ==> head[i] != END_EVENT
    ensures EndOf(head + rest) == |head|
  {
    assert (head + rest)[0] == head[0] && (head + rest)[1..] == head[1..] + rest;
    if |head| > 1 {
      EndAfter(head[1..], rest);
    }
  }

  lemma BlockStep(building: string, slug: string, w: WeekAssignment, l: Lang, stamp: string, rest: seq<Property>)
    requires w.isoWeek >= 0
    ensures Blocks(EventProps(building, slug, w, l, stamp) + rest) ==
      [EventProps(building, slug, w, l, stamp)] + Blocks(rest)
  {
    hide Summary, Description, UidFor, DateValue, EndOf;
    var block := EventProps(building, slug, w, l, stamp);
    EndAfter(block, rest);
    assert (block + rest)[..8] == block && (block + rest)[8..] == rest;
  }

  lemma {:induction false} EventsFront(building: string, slug: string, weeks: seq<WeekAssignment>, l: Lang,
                                       stamp: WeekAssignment -> string)
    requires weeks != [] && forall w :: w in weeks ==> w.isoWeek >= 0
    ensures EventsProps(building, slug, weeks, l, stamp) ==
      EventProps(building, slug, weeks[0], l, stamp(weeks[0])) + EventsProps(building, slug, weeks[1..], l, stamp)
  {
    hide EventProps;
    var n := |weeks| - 1;
    if n == 0 {
      assert weeks[..0] == [] && weeks[1..] == [];
    } else {
      EventsFront(building, slug, weeks[..n], l, stamp);
      assert weeks[..n][1..] == weeks[1..][..n - 1] && weeks[..n][0] == weeks[0];
      assert weeks[1..][n - 1] == weeks[n];
    }
  }

  /** The block of each week. */
  function WeekBlocks(building: string, slug: string, weeks: seq<WeekAssignment>, l: Lang,
                      stamp: WeekAssignment -> string): seq<seq<Property>>
    requires forall w :: w in weeks ==> w.isoWeek >= 0
  {
    seq(|weeks|, i requires 0 <= i < |weeks| => EventProps(building, slug, weeks[i], l, stamp(weeks[i])))
  }

  lemma {:induction false} BlocksOfEvents(building: string, slug: string, weeks: seq<WeekAssignment>, l: Lang,
                                          stamp: WeekAssignment -> string, rest: seq<Property>)
    requires forall w :: w in weeks ==> w.isoWeek >= 0
    ensures Blocks(EventsProps(building, slug, weeks, l, stamp) + rest) ==
      WeekBlocks(building, slug, weeks, l, stamp) + Blocks(rest)
  {
    hide EventProps, Blocks, EventsProps;
    if weeks == [] {
      NoEventProps(building, slug, l, stamp);
      assert [] + rest == rest;
    } else {
      var first := EventProps(building, slug, weeks[0], l, stamp(weeks[0]));
      var others := EventsProps(building, slug, weeks[1..], l, stamp);
      EventsFront(building, slug, weeks, l, stamp);
      assert (first + others) + rest == first + (others + rest);
      BlockStep(building, slug, weeks[0], l, stamp(weeks[0]), others + rest);
      BlocksOfEvents(building, slug, weeks[1..], l, stamp, rest);
      assert WeekBlocks(building, slug, weeks, l, stamp) == [first] + WeekBlocks(building, slug, weeks[1..], l, stamp);
    }
  }

  lemma NoEventProps(building: string, slug: string, l: Lang, stamp: WeekAssignment -> string)
    ensures EventsProps(building, slug, [], l, stamp) == []
  {
  }

  lemma {:induction false} SkipHeader(head: seq<Property>, rest: seq<Property>)
    requires forall i :: 0 <= i < |head| ==> head[i] != BEGIN_EVENT
    ensures Blocks(head + rest) == Blocks(rest)
  {
    if head == [] {
      assert head + rest == rest;
    } else {
      assert (head + rest)[1..] == head[1..] + rest;
      SkipHeader(head[1..], rest);
    }
  }

  /**
   A subscriber who reads the printed feed finds exactly one event for each week,
   in order, and each tells when its week begins, when the next one begins,
   which week it is, and whose; the calendar is named after the building.
   */
  lemma FeedTells(building: string, slug: string, weeks: seq<WeekAssignment>, l: Lang, stamp: WeekAssignment -> string)
    requires forall w :: w in weeks ==> w.isoWeek >= 0
    ensures var props := Read(Document(FeedProps(building, slug, weeks, l, stamp)));
      && |Blocks(props)| == |weeks|
      && (forall i :: 0 <= i < |weeks| ==> Tells(Blocks(props)[i], weeks[i], l))
      && ValueOf(props, "VERSION") == Some("2.0") && ValueOf(props, "CALSCALE") == Some("GREGORIAN")
      && ValueOf(props, "X-WR-CALNAME") == Some("Kehrwoche " + building)
      && props[0] == Property("BEGIN", "VCALENDAR") && props[|props| - 1] == Property("END", "VCALENDAR")
  {
    hide Read, Document, EventProps, EventsProps, Blocks, Tells, ValueOf, SplitLines, Octets;
    FeedRoundTrip(building, slug, weeks, l, stamp);
    var header, tail := HeaderProps(building, l), [Property("END", "VCALENDAR")];
    var events := EventsProps(building, slug, weeks, l, stamp);
    var props := FeedProps(building, slug, weeks, l, stamp);
    assert props == header + (events + tail);
    SkipHeader(header, events + tail);
    BlocksOfEvents(building, slug, weeks, l, stamp, tail);
    SkipHeader(tail, []);
    assert tail + [] == tail;
    NoBlocks();
    forall i | 0 <= i < |weeks|
      ensures Tells(WeekBlocks(building, slug, weeks, l, stamp)[i], weeks[i], l)
    {
      EventTells(building, slug, weeks[i], l, stamp(weeks[i]));
    }
    CalendarName(building, l, events + tail);
  }

  lemma NoBlocks()
    ensures Blocks([]) == []
  {
  }

  lemma CalendarName(building: string, l: Lang, rest: seq<Property>)
    ensures var props := HeaderProps(building, l) + rest;
      && ValueOf(props, "VERSION") == Some("2.0") && ValueOf(props, "CALSCALE") == Some("GREGORIAN")
      && ValueOf(props, "X-WR-CALNAME") == Some("Kehrwoche " + building)
  {
    hide ValueOf;
    var props := HeaderProps(building, l) + rest;
    ValueAt(props, 1);
    ValueAt(props, 3);
    ValueAt(props, 4);
  }

  // ----- consecutive years -----

  /** The schedules of the year and the years after it. */
  function YearsFrom(inp: Inputs, year: int, count: nat): seq<seq<WeekAssignment>> {
    seq(count, i => YearSchedule(inp, year + i))
  }

  /** The weeks of consecutive years are one run of weeks. */
  lemma {:induction false} YearsRun(inp: Inputs, year: int, count: nat)
    ensures var weeks := Flatten(YearsFrom(inp, year, count));
      && Week1Monday(year + count) == Week1Monday(year) + 7 * |weeks|
      && forall i :: 0 <= i < |weeks| ==>
           && weeks[i].start == Week1Monday(year) + 7 * i && weeks[i].end == weeks[i].start + 6
           && 1 <= weeks[i].isoWeek <= 53
  {
    hide Week1Monday, WeeksIn, YearSchedule;
    if count > 0 {
      var schedules := YearsFrom(inp, year, count);
      assert schedules[..count - 1] == YearsFrom(inp, year, count - 1);
      YearsRun(inp, year, count - 1);
      Years.ScheduleIsIsoYear(inp, year + count - 1);
      FiftyTwoOrFiftyThree(year + count - 1);
      ScheduleLength(inp, year + count - 1);
    }
  }

  lemma ScheduleLength(inp: Inputs, year: int)
    ensures |YearSchedule(inp, year)| == WeeksIn(year)
  {
  }

  /**
   The feed of a building's schedules for consecutive years, as read by a
   subscriber: event after event, within a year and across the years, the end
   read from one is the start read from the next, a Monday a week later.
   */
  lemma ReadEventsMeet(building: string, slug: string, inp: Inputs, year: int, count: nat, l: Lang,
                       stamp: WeekAssignment -> string)
    requires forall w :: w in Flatten(YearsFrom(inp, year, count)) ==> w.isoWeek >= 0
    ensures var weeks := Flatten(YearsFrom(inp, year, count));
      var blocks := Blocks(Read(Document(FeedProps(building, slug, weeks, l, stamp))));
      && |blocks| == |weeks|
      && forall i :: 0 <= i < |blocks| ==>
           && ValueOf(blocks[i], "DTSTART;VALUE=DATE").Some? && ValueOf(blocks[i], "DTEND;VALUE=DATE").Some?
           && ReadDate(ValueOf(blocks[i], "DTSTART;VALUE=DATE").value) == Some(Week1Monday(year) + 7 * i)
           && ReadDate(ValueOf(blocks[i], "DTEND;VALUE=DATE").value) == Some(Week1Monday(year) + 7 * (i + 1))
  {
    hide Read, Document, FeedProps, Blocks, ValueOf, ReadDate, ReadSummary, Week1Monday, Flatten;
    var weeks := Flatten(YearsFrom(inp, year, count));
    FeedTells(building, slug, weeks, l, stamp);
    YearsRun(inp, year, count);
    var blocks := Blocks(Read(Document(FeedProps(building, slug, weeks, l, stamp))));
    forall i | 0 <= i < |blocks|
      ensures Tells(blocks[i], weeks[i], l)
    {
    }
  }
}
