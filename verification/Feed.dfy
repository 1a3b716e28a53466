/**
 The calendar feed of a building as a document of folded content lines, and its
 round trip through a reader.
 */
module Feed {
  import opened Wrappers
  import opened Calendar
  import opened Scheduler
  import opened Ical
  import Text
  import Years

  datatype Property = Property(name: string, value: string)

  datatype Lang = De | En

  // ----- content lines -----

  function ContentLine(p: Property): string {
    p.name + (":" + Escape(p.value))
  }

  function Document(props: seq<Property>): string {
    if props == [] then ""
    else Fold(ContentLine(props[0])) + ("\r\n" + Document(props[1..]))
  }

  /** A property name contains no colon and no line break and does not begin with a space. */
  predicate ValidName(name: string) {
    name != "" && name[0] != ' ' && forall i | 0 <= i < |name| :: name[i] != ':' && name[i] != '\n'
  }

  // ----- a reader -----

  function ReadName(line: string): string {
    if line == "" || line[0] == ':' then "" else [line[0]] + ReadName(line[1..])
  }

  function ReadProperty(line: string): Property {
    var name := ReadName(line);
    Property(name, if |name| < |line| then Unescape(line[|name| + 1..]) else "")
  }

  function Read(document: string): seq<Property> {
    var lines := SplitLines(Unfold(document));
    seq(|lines|, i requires 0 <= i < |lines| => ReadProperty(lines[i]))
  }

  lemma {:induction false} ReadNameStops(name: string, rest: string)
    requires forall i :: 0 <= i < |name| ==> name[i] != ':'
    ensures ReadName(name + (":" + rest)) == name
  {
    if name == "" {
      assert name + (":" + rest) == ":" + rest;
    } else {
      assert (name + (":" + rest))[1..] == name[1..] + (":" + rest);
      ReadNameStops(name[1..], rest);
      assert name == [name[0]] + name[1..];
    }
  }

  lemma ReadContentLine(p: Property)
    requires ValidName(p.name)
    ensures ReadProperty(ContentLine(p)) == p
  {
    ReadNameStops(p.name, Escape(p.value));
    assert ContentLine(p)[|p.name| + 1..] == Escape(p.value);
    UnescapeEscape(p.value);
  }

  lemma ContentIsOneLine(p: Property)
    requires ValidName(p.name)
    ensures OneLine(ContentLine(p)) && ContentLine(p) != "" && ContentLine(p)[0] != ' '
  {
    EscapedIsOneLine(p.value);
  }

  function ContentLines(props: seq<Property>): seq<string> {
    seq(|props|, i requires 0 <= i < |props| => ContentLine(props[i]))
  }

  lemma FoldedPieces(line: string) returns (pieces: seq<string>)
    requires OneLine(line)
    ensures pieces != [] && Fold(line) == Joined(pieces) && Concat(pieces) == line
    ensures forall i :: 0 <= i < |pieces| ==> OneLine(pieces[i])
    ensures Octets(pieces[0]) <= 75 && forall i :: 1 <= i < |pieces| ==> Octets(pieces[i]) <= 74
  {
    pieces := Pieces(line, "", true);
    PiecesConcat(line, "", true);
    assert "" + line == line;
    PiecesFit(line, "", true);
    ConcatIsOneLine(pieces);
  }

  lemma {:induction false} FoldStartsLikeLine(line: string)
    requires OneLine(line) && line != ""
    ensures Fold(line) != "" && Fold(line)[0] == line[0]
  {
    FirstPieceBegins(line[1..], [line[0]], true);
    OctetsPush("", line[0]);
    assert "" + [line[0]] == [line[0]];
    var pieces := Pieces(line, "", true);
  }

  /** The document never begins with a space, so no content line is taken for a continuation. */
  lemma DocumentStart(props: seq<Property>)
    requires forall p :: p in props ==> ValidName(p.name)
    ensures Document(props) != "" ==> Document(props)[0] != ' '
  {
    if props != [] {
      ContentIsOneLine(props[0]);
      FoldStartsLikeLine(ContentLine(props[0]));
    }
  }

  lemma {:induction false} UnfoldDocument(props: seq<Property>)
    requires forall p :: p in props ==> ValidName(p.name)
    ensures SplitLines(Unfold(Document(props))) == ContentLines(props)
  {
    hide Fold, SplitLines, Unfold, ContentLine, OneLine, Joined, Concat, Octets, ValidName;
    if props == [] {
      UnfoldEmpty();
      NoLines();
    } else {
      var line, rest := ContentLine(props[0]), Document(props[1..]);
      ContentIsOneLine(props[0]);
      var pieces := FoldedPieces(line);
      DocumentStart(props[1..]);
      UnfoldJoined(pieces, rest);
      LineEnds(line, Unfold(rest));
      UnfoldDocument(props[1..]);
      assert ContentLines(props) == [line] + ContentLines(props[1..]);
    }
  }

  lemma NoLines()
    ensures SplitLines("") == []
  {
  }

  /** A reader that unfolds, splits and unescapes the document gets back exactly the properties that were
      written, whatever their values contain. */
  lemma ReadDocument(props: seq<Property>)
    requires forall p :: p in props ==> ValidName(p.name)
    ensures Read(Document(props)) == props
  {
    hide SplitLines, Unfold, Document, ValidName, ReadProperty, ContentLine;
    UnfoldDocument(props);
    forall i | 0 <= i < |props|
      ensures ReadProperty(ContentLine(props[i])) == props[i]
    {
      ReadContentLine(props[i]);
    }
  }

  lemma {:induction false} PhysicalLinesFit(props: seq<Property>)
    requires forall p :: p in props ==> ValidName(p.name)
    ensures forall l :: l in SplitLines(Document(props)) ==> Octets(l) <= 75
  {
    hide Fold, SplitLines, ContentLine, OneLine, Joined, Concat, Octets, ValidName, Physical;
    if props == [] {
      NoLines();
    } else {
      var line, rest := ContentLine(props[0]), Document(props[1..]);
      ContentIsOneLine(props[0]);
      var pieces := FoldedPieces(line);
      SplitJoined(pieces, rest);
      PhysicalFit(pieces);
      PhysicalLinesFit(props[1..]);
    }
  }

  lemma PhysicalFit(pieces: seq<string>)
    requires pieces != [] && Octets(pieces[0]) <= 75 && forall i :: 1 <= i < |pieces| ==> Octets(pieces[i]) <= 74
    ensures forall l :: l in Physical(pieces) ==> Octets(l) <= 75
  {
    if |pieces| > 1 {
      forall i | 0 <= i < |pieces| - 1
        ensures Octets(Spaced(pieces[1..])[i]) <= 75
      {
        OctetsConcat(" ", pieces[i + 1]);
        OctetsPush("", ' ');
        assert "" + [' '] == " ";
      }
    }
  }

  // ----- the feed -----

  function LangCode(l: Lang): string {
    if l == De then "DE" else "EN"
  }

  function Unassigned(l: Lang): string {
    if l == De then "Nicht zugewiesen" else "Unassigned"
  }

  /** `i18n::date_format`: 21.09.2026 or 2026-09-21 */
  function ShownDate(l: Lang, d: Day): string {
    var (y, m, k) := CivilOf(d);
    if l == De then Text.Padded(k, 2) + "." + Text.Padded(m, 2) + "." + Text.PaddedInt(y, 4)
    else Text.PaddedInt(y, 4) + "-" + Text.Padded(m, 2) + "-" + Text.Padded(k, 2)
  }

  /** %Y%m%d */
  function DateValue(d: Day): string {
    var (y, m, k) := CivilOf(d);
    Text.PaddedInt(y, 4) + Text.Padded(m, 2) + Text.Padded(k, 2)
  }

  function UidFor(slug: string, year: int, isoWeek: nat): string {
    "kehrwoche-" + (Text.PaddedInt(year, 1) + ("-" + (Text.Padded(isoWeek, 2) + ("-" + slug + "@kehrkraft"))))
  }

  function Summary(l: Lang, w: WeekAssignment): string {
    (if l == De then "Kehrwoche KW " else "Kehrwoche CW ") + Text.PaddedInt(w.isoWeek, 1) + ": " +
    (if w.assignee.Some? then w.assignee.value.name else Unassigned(l))
  }

  function Description(l: Lang, building: string, w: WeekAssignment): string {
    (if l == De then "Gebäude: " else "Building: ") + building + "\n" +
    ShownDate(l, w.start) + " – " + ShownDate(l, w.end)
  }

  /** `event_block`; `stamp` is the clock reading of the event. */
  function EventProps(building: string, slug: string, w: WeekAssignment, l: Lang, stamp: string): seq<Property>
    requires w.isoWeek >= 0
  {
    [Property("BEGIN", "VEVENT"),
     Property("UID", UidFor(slug, w.year, w.isoWeek)),
     Property("DTSTAMP", stamp),
     Property("DTSTART;VALUE=DATE", DateValue(w.start)),
     Property("DTEND;VALUE=DATE", DateValue(w.end + 1)),
     Property("SUMMARY", Summary(l, w)),
     Property("DESCRIPTION", Description(l, building, w)),
     Property("END", "VEVENT")]
  }

  function EventsProps(building: string, slug: string, weeks: seq<WeekAssignment>, l: Lang,
                       stamp: WeekAssignment -> string): seq<Property>
    requires forall w :: w in weeks ==> w.isoWeek >= 0
  {
    if weeks == [] then []
    else
      var n := |weeks| - 1;
      EventsProps(building, slug, weeks[..n], l, stamp) + EventProps(building, slug, weeks[n], l, stamp(weeks[n]))
  }

  function HeaderProps(building: string, l: Lang): seq<Property> {
    [Property("BEGIN", "VCALENDAR"),
     Property("VERSION", "2.0"),
     Property("PRODID", "-//Kehrkraft//Kehrwoche//" + LangCode(l)),
     Property("CALSCALE", "GREGORIAN"),
     Property("X-WR-CALNAME", "Kehrwoche " + building)]
  }

  /** The weeks of all schedules in order. */
  function Flatten(schedules: seq<seq<WeekAssignment>>): seq<WeekAssignment> {
    if schedules == [] then [] else Flatten(schedules[..|schedules| - 1]) + schedules[|schedules| - 1]
  }

  function FeedProps(building: string, slug: string, weeks: seq<WeekAssignment>, l: Lang,
                     stamp: WeekAssignment -> string): seq<Property>
    requires forall w :: w in weeks ==> w.isoWeek >= 0
  {
    HeaderProps(building, l) + EventsProps(building, slug, weeks, l, stamp) + [Property("END", "VCALENDAR")]
  }

  lemma {:induction false} DocumentConcat(a: seq<Property>, b: seq<Property>)
    ensures Document(a + b) == Document(a) + Document(b)
  {
    hide Fold, ContentLine;
    if a == [] {
      assert a + b == b;
    } else {
      assert (a + b)[1..] == a[1..] + b && (a + b)[0] == a[0];
      DocumentConcat(a[1..], b);
      ConcatAssociates(Fold(ContentLine(a[0])), "\r\n" + Document(a[1..]), Document(b));
      ConcatAssociates("\r\n", Document(a[1..]), Document(b));
    }
  }

  lemma DocumentOfOne(p: Property)
    ensures Document([p]) == Fold(ContentLine(p)) + "\r\n"
  {
    assert [p][1..] == [];
  }

  /** `push_ical_line` */
  method PushIcalLine(buffer: string, name: string, value: string) returns (out: string)
    ensures out == buffer + Document([Property(name, value)])
  {
    var escaped := EscapeIcal(value);
    var line := name + (":" + escaped);
    var folded := FoldLine(line);
    out := buffer + folded;
    out := out + "\r\n";
    DocumentOfOne(Property(name, value));
  }

  /** Printable ASCII without the characters that are escaped. */
  predicate Plain(s: string) {
    forall i | 0 <= i < |s| :: ' ' <= s[i] <= '~' && s[i] != '\\' && s[i] != ';' && s[i] != ','
  }

  lemma {:induction false} PlainText(s: string)
    requires Plain(s)
    ensures Escape(s) == s && Octets(s) == |s|
  {
    hide EscapeChar, Utf8Len;
    if s != "" {
      var front, c := s[..|s| - 1], s[|s| - 1];
      PlainText(front);
      PlainChar(c);
      assert s == front + [c];
    }
  }

  lemma PlainChar(c: char)
    requires ' ' <= c <= '~' && c != '\\' && c != ';' && c != ','
    ensures EscapeChar(c) == [c] && Utf8Len(c) == 1
  {
  }

  /** A short line of plain text is written as it stands. */
  lemma PlainLine(name: string, value: string)
    requires Plain(name) && Plain(value) && |name| + |value| < 75
    ensures Document([Property(name, value)]) == name + (":" + value) + "\r\n"
  {
    hide Pieces, Octets, Escape, Plain;
    var line := name + (":" + value);
    PlainText(value);
    assert Plain(line) by { PlainConcat(name, value); }
    PlainText(line);
    assert "" + line == line;
    ShortLineIsOnePiece(line, "");
    DocumentOfOne(Property(name, value));
  }

  lemma PlainConcat(name: string, value: string)
    requires Plain(name) && Plain(value)
    ensures Plain(name + (":" + value))
  {
  }

  lemma Delimiters()
    ensures Document([Property("BEGIN", "VCALENDAR")]) == "BEGIN:VCALENDAR\r\n"
    ensures Document([Property("END", "VCALENDAR")]) == "END:VCALENDAR\r\n"
    ensures Document([Property("BEGIN", "VEVENT")]) == "BEGIN:VEVENT\r\n"
    ensures Document([Property("END", "VEVENT")]) == "END:VEVENT\r\n"
  {
    hide Document;
    PlainLine("BEGIN", "VCALENDAR");
    PlainLine("END", "VCALENDAR");
    PlainLine("BEGIN", "VEVENT");
    PlainLine("END", "VEVENT");
  }

  lemma Append(done: seq<Property>, p: Property) returns (r: seq<Property>)
    ensures r == done + [p] && Document(r) == Document(done) + Document([p])
  {
    r := done + [p];
    DocumentConcat(done, [p]);
  }

  /** `event_block` */
  method EventBlock(building: string, slug: string, w: WeekAssignment, l: Lang, stamp: string) returns (out: string)
    requires w.isoWeek >= 0
    ensures out == Document(EventProps(building, slug, w, l, stamp))
  {
    hide Document, Summary, Description, UidFor, DateValue;
    Delimiters();
    out := "BEGIN:VEVENT\r\n";
    ghost var done := [Property("BEGIN", "VEVENT")];
    out := PushIcalLine(out, "UID", UidFor(slug, w.year, w.isoWeek));
    done := Append(done, Property("UID", UidFor(slug, w.year, w.isoWeek)));
    out := PushIcalLine(out, "DTSTAMP", stamp);
    done := Append(done, Property("DTSTAMP", stamp));
    out := PushIcalLine(out, "DTSTART;VALUE=DATE", DateValue(w.start));
    done := Append(done, Property("DTSTART;VALUE=DATE", DateValue(w.start)));
    out := PushIcalLine(out, "DTEND;VALUE=DATE", DateValue(w.end + 1));
    done := Append(done, Property("DTEND;VALUE=DATE", DateValue(w.end + 1)));
    out := PushIcalLine(out, "SUMMARY", Summary(l, w));
    done := Append(done, Property("SUMMARY", Summary(l, w)));
    out := PushIcalLine(out, "DESCRIPTION", Description(l, building, w));
    done := Append(done, Property("DESCRIPTION", Description(l, building, w)));
    out := out + "END:VEVENT\r\n";
    done := Append(done, Property("END", "VEVENT"));
    assert done == EventProps(building, slug, w, l, stamp);
  }

  /** The five lines that open the calendar. */
  method Header(building: string, l: Lang) returns (out: string)
    ensures out == Document(HeaderProps(building, l))
  {
    hide Document;
    Delimiters();
    out := "BEGIN:VCALENDAR\r\n";
    ghost var done := [Property("BEGIN", "VCALENDAR")];
    out := PushIcalLine(out, "VERSION", "2.0");
    done := Append(done, Property("VERSION", "2.0"));
    out := PushIcalLine(out, "PRODID", "-//Kehrkraft//Kehrwoche//" + LangCode(l));
    done := Append(done, Property("PRODID", "-//Kehrkraft//Kehrwoche//" + LangCode(l)));
    out := PushIcalLine(out, "CALSCALE", "GREGORIAN");
    done := Append(done, Property("CALSCALE", "GREGORIAN"));
    out := PushIcalLine(out, "X-WR-CALNAME", "Kehrwoche " + building);
    done := Append(done, Property("X-WR-CALNAME", "Kehrwoche " + building));
    assert done == HeaderProps(building, l);
  }

  /** The events of one schedule, appended to the buffer. */
  method AppendEvents(buffer: string, building: string, slug: string, schedule: seq<WeekAssignment>, l: Lang,
                      stamp: WeekAssignment -> string)
    returns (out: string)
    requires forall w :: w in schedule ==> w.isoWeek >= 0
    ensures out == buffer + Document(EventsProps(building, slug, schedule, l, stamp))
  {
    hide Document, EventProps, EventsProps;
    NoEvents(building, slug, l, stamp);
    out := buffer;
    for j := 0 to |schedule|
      invariant out == buffer + Document(EventsProps(building, slug, schedule[..j], l, stamp))
    {
      assert schedule[j] in schedule;
      var block := EventBlock(building, slug, schedule[j], l, stamp(schedule[j]));
      EventsStep(building, slug, schedule, j, l, stamp);
      out := out + block;
    }
    assert schedule[..|schedule|] == schedule;
  }

  /** `ical_document` */
  method IcalDocument(building: string, slug: string, schedules: seq<seq<WeekAssignment>>, l: Lang,
                      stamp: WeekAssignment -> string)
    returns (out: string)
    requires forall w :: w in Flatten(schedules) ==> w.isoWeek >= 0
    ensures out == Document(FeedProps(building, slug, Flatten(schedules), l, stamp))
  {
    hide Document, HeaderProps, EventProps, EventsProps;
    out := Header(building, l);
    NoEvents(building, slug, l, stamp);
    for i := 0 to |schedules|
      invariant Flatten(schedules[..i]) <= Flatten(schedules)
      invariant out == Document(HeaderProps(building, l)) +
        Document(EventsProps(building, slug, Flatten(schedules[..i]), l, stamp))
    {
      FlattenPrefix(schedules, i);
      AllAreWeeks(Flatten(schedules[..i]), schedules[i], Flatten(schedules));
      EventsConcat(building, slug, Flatten(schedules[..i]), schedules[i], l, stamp);
      out := AppendEvents(out, building, slug, schedules[i], l, stamp);
    }
    assert schedules[..|schedules|] == schedules;
    Delimiters();
    out := out + "END:VCALENDAR\r\n";
    FeedConcat(building, slug, Flatten(schedules), l, stamp);
  }

  lemma AllAreWeeks(a: seq<WeekAssignment>, b: seq<WeekAssignment>, all: seq<WeekAssignment>)
    requires a + b <= all && forall w :: w in all ==> w.isoWeek >= 0
    ensures forall w :: w in a || w in b || w in a + b ==> w.isoWeek >= 0
  {
    assert all == (a + b) + all[|a + b|..];
  }

  lemma {:induction false} EventsConcat(building: string, slug: string, a: seq<WeekAssignment>,
                                        b: seq<WeekAssignment>, l: Lang,
                                        stamp: WeekAssignment -> string)
    requires forall w :: w in a + b ==> w.isoWeek >= 0
    requires forall w :: w in a || w in b ==> w.isoWeek >= 0
    ensures Document(EventsProps(building, slug, a + b, l, stamp)) ==
      Document(EventsProps(building, slug, a, l, stamp)) + Document(EventsProps(building, slug, b, l, stamp))
    decreases |b|
  {
    hide Document, EventProps, EventsProps;
    NoEvents(building, slug, l, stamp);
    if b == [] {
      assert a + b == a;
    } else {
      var n := |b| - 1;
      EventsStep(building, slug, b, n, l, stamp);
      EventsStep(building, slug, a + b, |a| + n, l, stamp);
      assert (a + b)[..|a| + n] == a + b[..n];
      assert (a + b)[..|a| + n + 1] == a + b && b[..n + 1] == b;
      EventsConcat(building, slug, a, b[..n], l, stamp);
    }
  }

  lemma FeedConcat(building: string, slug: string, weeks: seq<WeekAssignment>, l: Lang, stamp: WeekAssignment -> string)
    requires forall w :: w in weeks ==> w.isoWeek >= 0
    ensures Document(FeedProps(building, slug, weeks, l, stamp)) ==
      Document(HeaderProps(building, l)) + Document(EventsProps(building, slug, weeks, l, stamp)) +
      Document([Property("END", "VCALENDAR")])
  {
    hide Document, HeaderProps, EventsProps;
    DocumentConcat(HeaderProps(building, l), EventsProps(building, slug, weeks, l, stamp));
    DocumentConcat(HeaderProps(building, l) + EventsProps(building, slug, weeks, l, stamp),
      [Property("END", "VCALENDAR")]);
  }

  lemma {:induction false} FlattenPrefix(schedules: seq<seq<WeekAssignment>>, i: nat)
    requires i < |schedules|
    ensures Flatten(schedules[..i + 1]) == Flatten(schedules[..i]) + schedules[i]
    ensures Flatten(schedules[..i + 1]) <= Flatten(schedules)
  {
    assert schedules[..i + 1][..i] == schedules[..i];
    var n := |schedules| - 1;
    if i < n {
      assert schedules[..n][..i + 1] == schedules[..i + 1] && schedules[..n][..i] == schedules[..i];
      FlattenPrefix(schedules[..n], i);
    } else {
      assert schedules[..i + 1] == schedules;
    }
  }

  lemma EventsStep(building: string, slug: string, weeks: seq<WeekAssignment>, k: nat, l: Lang,
                   stamp: WeekAssignment -> string)
    requires k < |weeks| && forall w :: w in weeks ==> w.isoWeek >= 0
    ensures weeks[k] in weeks
    ensures Document(EventsProps(building, slug, weeks[..k + 1], l, stamp)) ==
      Document(EventsProps(building, slug, weeks[..k], l, stamp)) +
      Document(EventProps(building, slug, weeks[k], l, stamp(weeks[k])))
  {
    assert weeks[..k + 1][..k] == weeks[..k];
    DocumentConcat(EventsProps(building, slug, weeks[..k], l, stamp),
      EventProps(building, slug, weeks[k], l, stamp(weeks[k])));
  }

  lemma NoEvents(building: string, slug: string, l: Lang, stamp: WeekAssignment -> string)
    ensures Document(EventsProps(building, slug, [], l, stamp)) == ""
  {
  }

  lemma ConstantNames()
    ensures ValidName("BEGIN") && ValidName("END") && ValidName("UID") && ValidName("DTSTAMP")
    ensures ValidName("DTSTART;VALUE=DATE") && ValidName("DTEND;VALUE=DATE")
    ensures ValidName("SUMMARY") && ValidName("DESCRIPTION")
    ensures ValidName("VERSION") && ValidName("PRODID") && ValidName("CALSCALE") && ValidName("X-WR-CALNAME")
  {
  }

  lemma EventNames(building: string, slug: string, w: WeekAssignment, l: Lang, stamp: string)
    requires w.isoWeek >= 0
    ensures forall p :: p in EventProps(building, slug, w, l, stamp) ==> ValidName(p.name)
  {
    hide ValidName, Summary, Description, UidFor, DateValue;
    ConstantNames();
  }

  lemma {:induction false} FeedNames(building: string, slug: string, weeks: seq<WeekAssignment>, l: Lang,
                                     stamp: WeekAssignment -> string)
    requires forall w :: w in weeks ==> w.isoWeek >= 0
    ensures forall p :: p in EventsProps(building, slug, weeks, l, stamp) ==> ValidName(p.name)
  {
    hide ValidName, EventProps;
    if weeks != [] {
      var n := |weeks| - 1;
      FeedNames(building, slug, weeks[..n], l, stamp);
      EventNames(building, slug, weeks[n], l, stamp(weeks[n]));
    }
  }

  /**
   The round trip: for every building name, slug, schedule and language, reading
   the feed recovers exactly the properties written, and every physical line of
   it is at most 75 octets long.
   */
  lemma FeedRoundTrip(building: string, slug: string, weeks: seq<WeekAssignment>, l: Lang,
                      stamp: WeekAssignment -> string)
    requires forall w :: w in weeks ==> w.isoWeek >= 0
    ensures var props := FeedProps(building, slug, weeks, l, stamp);
      && Read(Document(props)) == props
      && forall line :: line in SplitLines(Document(props)) ==> Octets(line) <= 75
  {
    hide Document, Read, SplitLines, Octets, EventsProps, ValidName;
    ConstantNames();
    var props := FeedProps(building, slug, weeks, l, stamp);
    FeedNames(building, slug, weeks, l, stamp);
    forall p | p in props
      ensures ValidName(p.name)
    {
    }
    ReadDocument(props);
    PhysicalLinesFit(props);
  }

  // ----- events -----

  /** The identifier of an event names its building, year and week. */
  lemma UidIdentifiesWeek(slug: string, y: int, v: nat, z: int, w: nat)
    requires v < 100 && w < 100 && UidFor(slug, y, v) == UidFor(slug, z, w)
    ensures y == z && v == w
  {
    hide UidFor;
    Text.TwoDigits(v);
    Text.TwoDigits(w);
    UidParts(slug, y, v, z, w);
    Text.PaddedIntInjective(y, z, 1);
    Text.PaddedInjective(v, w, 2);
  }

  /** The identifier in full, for week 7 of 2026. */
  lemma UidAsDocumented(slug: string)
    ensures UidFor(slug, 2026, 7) == "kehrwoche-2026-07-" + slug + "@kehrkraft"
  {
    assert Text.Padded(2, 1) == "2" && Text.Padded(20, 1) == "20" && Text.Padded(202, 1) == "202";
    assert Text.Padded(0, 1) == "0" && Text.Padded(7, 2) == "07";
    var tail := "-" + slug + "@kehrkraft";
    assert "2026" + ("-" + ("07" + tail)) == "2026-07" + tail;
  }

  lemma UidParts(slug: string, y: int, v: nat, z: int, w: nat)
    requires |Text.Padded(v, 2)| == |Text.Padded(w, 2)| && UidFor(slug, y, v) == UidFor(slug, z, w)
    ensures Text.PaddedInt(y, 1) == Text.PaddedInt(z, 1) && Text.Padded(v, 2) == Text.Padded(w, 2)
  {
    hide Text.PaddedInt, Text.Padded;
    SamePrefix("kehrwoche-", Text.PaddedInt(y, 1), Text.PaddedInt(z, 1),
      Text.Padded(v, 2), Text.Padded(w, 2), "-" + slug + "@kehrkraft");
  }

  lemma SamePrefix(head: string, a: string, b: string, m: string, n: string, tail: string)
    requires |m| == |n| && head + (a + ("-" + (m + tail))) == head + (b + ("-" + (n + tail)))
    ensures a == b && m == n
  {
    var s, t := head + (a + ("-" + (m + tail))), head + (b + ("-" + (n + tail)));
    assert |s| == |t|;
    assert s[|head|..] == a + ("-" + (m + tail)) && t[|head|..] == b + ("-" + (n + tail));
    assert a == s[|head|..][..|a|] && b == t[|head|..][..|b|];
    assert s[|head| + |a| + 1..][..|m|] == m && t[|head| + |b| + 1..][..|n|] == n;
  }

  /** DTEND is exclusive: within a year and across the year's end each event ends where the next begins. */
  lemma EventsMeet(inp: Inputs, year: int, i: nat)
    requires i < |YearSchedule(inp, year)|
    ensures var weeks, next := YearSchedule(inp, year), YearSchedule(inp, year + 1);
      && |next| > 0
      && DateValue(weeks[i].end + 1) == DateValue(if i + 1 < |weeks| then weeks[i + 1].start else next[0].start)
  {
    hide DateValue, YearSchedule;
    Years.ScheduleIsIsoYear(inp, year);
    Years.YearsJoin(inp, year);
  }
}
