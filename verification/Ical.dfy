/**
 The iCalendar feed: escaping, folding to 75 octets, and the document, read back
 by the unfolding and unescaping of sections 3.1 and 3.3.11 of RFC 5545.
 */
module Ical {
  import opened Wrappers
  import opened Calendar
  import opened Scheduler
  import Text

  // ----- octets -----

  /** `len_utf8` */
  function Utf8Len(c: char): (n: nat)
    ensures 1 <= n <= 4
  {
    if c as int < 0x80 then 1 else if c as int < 0x800 then 2 else if c as int < 0x1_0000 then 3 else 4
  }

  /** The octets of the UTF-8 encoding, one lead octet and up to three that continue it. */
  function Utf8(c: char): (bytes: seq<int>)
    ensures forall i :: 0 <= i < |bytes| ==> 0 <= bytes[i] < 256
    ensures forall i :: 0 < i < |bytes| ==> 0x80 <= bytes[i] < 0xC0
  {
    var n := c as int;
    if n < 0x80 then [n]
    else if n < 0x800 then [0xC0 + n / 64, 0x80 + n % 64]
    else if n < 0x1_0000 then [0xE0 + n / 4096, 0x80 + n / 64 % 64, 0x80 + n % 64]
    else [0xF0 + n / 262144, 0x80 + n / 4096 % 64, 0x80 + n / 64 % 64, 0x80 + n % 64]
  }

  /** The number that the octets encode: the lead octet says how many follow. */
  function DecodeUtf8(bytes: seq<int>): Option<int> {
    if |bytes| == 1 && bytes[0] < 0x80 then Some(bytes[0])
    else if |bytes| == 2 && 0xC0 <= bytes[0] < 0xE0 then Some((bytes[0] - 0xC0) * 64 + bytes[1] - 0x80)
    else if |bytes| == 3 && 0xE0 <= bytes[0] < 0xF0 then
      Some(((bytes[0] - 0xE0) * 64 + bytes[1] - 0x80) * 64 + bytes[2] - 0x80)
    else if |bytes| == 4 && 0xF0 <= bytes[0] < 0xF8 then
      Some((((bytes[0] - 0xF0) * 64 + bytes[1] - 0x80) * 64 + bytes[2] - 0x80) * 64 + bytes[3] - 0x80)
    else None
  }

  /** `len_utf8` counts the octets of an encoding that reads back. */
  lemma Utf8RoundTrip(c: char)
    ensures |Utf8(c)| == Utf8Len(c) && DecodeUtf8(Utf8(c)) == Some(c as int)
  {
    var n := c as int;
    assert n / 64 / 64 == n / 4096 && n / 4096 / 64 == n / 262144;
  }

  /** `str::len`: the octets of the UTF-8 encoding. */
  function Octets(s: string): nat {
    if s == "" then 0 else Octets(s[..|s| - 1]) + Utf8Len(s[|s| - 1])
  }

  lemma {:induction false} OctetsConcat(a: string, b: string)
    ensures Octets(a + b) == Octets(a) + Octets(b)
  {
    if b == "" {
      assert a + b == a;
    } else {
      OctetsConcat(a, b[..|b| - 1]);
      assert (a + b)[..|a + b| - 1] == a + b[..|b| - 1];
    }
  }

  // ----- escaping -----

  function EscapeChar(c: char): string {
    if c == '\\' then "\\\\"
    else if c == ';' then "\\;"
    else if c == ',' then "\\,"
    else if c == '\n' then "\\n"
    else [c]
  }

  function Escape(s: string): string {
    if s == "" then "" else Escape(s[..|s| - 1]) + EscapeChar(s[|s| - 1])
  }

  /** `escape_ical` */
  method EscapeIcal(s: string) returns (out: string)
    ensures out == Escape(s)
  {
    out := "";
    for i := 0 to |s|
      invariant out == Escape(s[..i])
    {
      assert s[..i + 1][..i] == s[..i];
      match s[i]
      case '\\' => out := out + "\\\\";
      case ';' => out := out + "\\;";
      case ',' => out := out + "\\,";
      case '\n' => out := out + "\\n";
      case c => out := out + [c];
    }
    assert s[..|s|] == s;
  }

  /** A reader's unescaping: backslash n (or N) is a newline, any other escaped character is itself. */
  function Unescape(s: string): string {
    if s == "" then ""
    else if s[0] == '\\' && |s| >= 2 then
      [if s[1] == 'n' || s[1] == 'N' then '\n' else s[1]] + Unescape(s[2..])
    else [s[0]] + Unescape(s[1..])
  }

  lemma {:induction false} EscapeConcat(a: string, b: string)
    ensures Escape(a + b) == Escape(a) + Escape(b)
  {
    hide Escape, EscapeChar;
    if b == "" {
      assert a + b == a;
      EscapeEmpty();
    } else {
      var front, c := b[..|b| - 1], b[|b| - 1];
      assert b == front + [c] && a + b == (a + front) + [c];
      EscapeConcat(a, front);
      EscapePush(front, c);
      EscapePush(a + front, c);
      ConcatAssociates(Escape(a), Escape(front), EscapeChar(c));
    }
  }

  lemma EscapeEmpty()
    ensures Escape("") == ""
  {
  }

  lemma EscapePush(s: string, c: char)
    ensures Escape(s + [c]) == Escape(s) + EscapeChar(c)
  {
    hide EscapeChar;
    assert (s + [c])[..|s|] == s && (s + [c])[|s|] == c;
  }

  lemma UnescapeChar(c: char, t: string)
    ensures Unescape(EscapeChar(c) + t) == [c] + Unescape(t)
  {
    var e := EscapeChar(c) + t;
    assert e[|EscapeChar(c)|..] == t;
  }

  /** Unescaping an escaped value recovers it. */
  lemma {:induction false} UnescapeEscape(s: string)
    ensures Unescape(Escape(s)) == s
  {
    hide EscapeChar, Unescape;
    if s == "" {
      UnescapeEmpty();
    } else {
      var c, rest := s[0], s[1..];
      assert s == [c] + rest;
      EscapeConcat([c], rest);
      assert [c][..0] == "";
      assert Escape([c]) == EscapeChar(c);
      UnescapeEscape(rest);
      UnescapeChar(c, Escape(rest));
    }
  }

  lemma UnescapeEmpty()
    ensures Unescape("") == ""
  {
  }

  /** The TEXT of section 3.3.11: a backslash only before a backslash, semicolon, comma or n, and no semicolon, comma or
      line feed of its own. */
  predicate IsText(s: string) {
    if s == "" then true
    else if s[0] == '\\' then |s| >= 2 && s[1] in {'\\', ';', ',', 'n', 'N'} && IsText(s[2..])
    else s[0] !in {';', ',', '\n'} && IsText(s[1..])
  }

  lemma TextChar(c: char, t: string)
    requires IsText(t)
    ensures IsText(EscapeChar(c) + t)
  {
    var e := EscapeChar(c) + t;
    assert e[|EscapeChar(c)|..] == t;
  }

  /** Escaped values are TEXT. */
  lemma {:induction false} EscapedIsText(s: string)
    ensures IsText(Escape(s))
  {
    hide EscapeChar, IsText;
    if s == "" {
      EmptyIsText();
    } else {
      var c, rest := s[0], s[1..];
      assert s == [c] + rest;
      EscapeConcat([c], rest);
      assert [c][..0] == "";
      assert Escape([c]) == EscapeChar(c);
      EscapedIsText(rest);
      TextChar(c, Escape(rest));
    }
  }

  lemma EmptyIsText()
    ensures IsText("")
  {
  }

  ghost predicate OneLine(s: string) {
    forall i :: 0 <= i < |s| ==> s[i] != '\n'
  }

  lemma {:induction false} EscapedIsOneLine(s: string)
    ensures OneLine(Escape(s))
  {
    if s != "" {
      EscapedIsOneLine(s[..|s| - 1]);
    }
  }

  // ----- folding -----

  /** The pieces of a line: the first holds at most 75 octets, the others at most 74. */
  function Pieces(rest: string, current: string, first: bool): (r: seq<string>)
    ensures |r| >= 1
    decreases |rest|
  {
    if rest == "" then [current]
    else if Octets(current) + Utf8Len(rest[0]) > (if first then 75 else 74) then
      [current] + Pieces(rest[1..], [rest[0]], false)
    else Pieces(rest[1..], current + [rest[0]], first)
  }

  /** The pieces, each after the first on a line of its own that starts with a space. */
  function Joined(pieces: seq<string>): string
    requires pieces != []
  {
    if |pieces| == 1 then pieces[0] else pieces[0] + ("\r\n " + Joined(pieces[1..]))
  }

  function Fold(line: string): string {
    Joined(Pieces(line, "", true))
  }

  lemma {:induction false} ShortLineIsOnePiece(rest: string, current: string)
    requires Octets(current + rest) <= 75
    ensures Pieces(rest, current, true) == [current + rest]
    decreases |rest|
  {
    if rest == "" {
      assert current + rest == current;
    } else {
      assert (current + [rest[0]]) + rest[1..] == current + rest;
      OctetsConcat(current + [rest[0]], rest[1..]);
      OctetsPush(current, rest[0]);
      ShortLineIsOnePiece(rest[1..], current + [rest[0]]);
    }
  }

  lemma OctetsPush(s: string, c: char)
    ensures Octets(s + [c]) == Octets(s) + Utf8Len(c)
  {
    assert (s + [c])[..|s|] == s;
  }

  lemma PiecesStep(rest: string, current: string, first: bool)
    ensures rest == "" ==> Pieces(rest, current, first) == [current]
    ensures rest != "" ==>
      Pieces(rest, current, first) ==
      if Octets(current) + Utf8Len(rest[0]) > (if first then 75 else 74)
      then [current] + Pieces(rest[1..], [rest[0]], false)
      else Pieces(rest[1..], current + [rest[0]], first)
  {
  }

  lemma JoinedStep(piece: string, more: seq<string>)
    ensures Joined([piece]) == piece
    ensures more != [] ==> Joined([piece] + more) == piece + ("\r\n " + Joined(more))
  {
    assert ([piece] + more)[1..] == more;
  }

  /** `fold_line` */
  method FoldLine(line: string) returns (out: string)
    ensures out == Fold(line)
  {
    hide Octets, Utf8Len, Pieces, Joined;
    if Octets(line) <= 75 {
      assert "" + line == line;
      ShortLineIsOnePiece(line, "");
      JoinedStep(line, []);
      return line;
    }
    out := "";
    var current := "";
    var first := true;
    assert line[0..] == line && "" + Joined(Pieces(line, "", true)) == Joined(Pieces(line, "", true));
    for i := 0 to |line|
      invariant Fold(line) == out + Joined(Pieces(line[i..], current, first))
    {
      var ch := line[i];
      ghost var rest := line[i..];
      assert rest[0] == ch && rest[1..] == line[i + 1..];
      PiecesStep(rest, current, first);
      var limit := if first then 75 else 74;
      if Octets(current) + Utf8Len(ch) > limit {
        ghost var more := Pieces(line[i + 1..], [ch], false);
        JoinedStep(current, more);
        ConcatAssociates(out, current, "\r\n " + Joined(more));
        ConcatAssociates(out + current, "\r\n ", Joined(more));
        out := out + current;
        out := out + "\r\n ";
        first := false;
        current := "";
        assert "" + [ch] == [ch];
      }
      current := current + [ch];
    }
    assert line[|line|..] == "";
    PiecesStep("", current, first);
    JoinedStep(current, []);
    out := out + current;
  }

  // ----- reading back -----

  /** Section 3.1: a line break followed by a space continues the line. */
  function Unfold(s: string): string {
    if s == "" then ""
    else if |s| >= 3 && s[0] == '\r' && s[1] == '\n' && s[2] == ' ' then Unfold(s[3..])
    else [s[0]] + Unfold(s[1..])
  }

  /** The lines that end in CRLF. */
  function Lines(s: string, current: string): seq<string>
    decreases |s|
  {
    if s == "" then (if current == "" then [] else [current])
    else if |s| >= 2 && s[0] == '\r' && s[1] == '\n' then [current] + Lines(s[2..], "")
    else Lines(s[1..], current + [s[0]])
  }

  function SplitLines(s: string): seq<string> {
    Lines(s, "")
  }

  lemma UnfoldStep(s: string)
    requires s != "" && !(|s| >= 3 && s[0] == '\r' && s[1] == '\n' && s[2] == ' ')
    ensures Unfold(s) == [s[0]] + Unfold(s[1..])
  {
  }

  lemma {:induction false} UnfoldKeepsText(a: string, t: string)
    requires OneLine(a) && (t != "" ==> t[0] != '\n')
    ensures Unfold(a + t) == a + Unfold(t)
  {
    hide Unfold;
    if a == "" {
      assert a + t == t;
    } else {
      assert (a + t)[1..] == a[1..] + t;
      assert |a + t| >= 2 ==> (a + t)[1] != '\n';
      UnfoldStep(a + t);
      UnfoldKeepsText(a[1..], t);
      ConcatAssociates([a[0]], a[1..], Unfold(t));
      assert a == [a[0]] + a[1..];
    }
  }

  lemma UnfoldFold(t: string)
    ensures Unfold("\r\n " + t) == Unfold(t)
  {
    assert ("\r\n " + t)[3..] == t;
  }

  lemma UnfoldBreak(t: string)
    requires t != "" ==> t[0] != ' '
    ensures Unfold("\r\n" + t) == "\r\n" + Unfold(t)
  {
    hide Unfold;
    var s := "\r\n" + t;
    assert s[1..] == "\n" + t;
    assert ("\n" + t)[1..] == t;
    assert |s| >= 3 ==> s[2] == t[0];
    UnfoldStep("\n" + t);
    UnfoldStep(s);
    ConcatAssociates("\r", "\n", Unfold(t));
  }

  lemma {:induction false} LinesKeepText(a: string, t: string, current: string)
    requires OneLine(a) && (t != "" ==> t[0] != '\n')
    ensures Lines(a + t, current) == Lines(t, current + a)
    decreases |a|
  {
    if a == "" {
      assert a + t == t && current + a == current;
    } else {
      assert (a + t)[1..] == a[1..] + t;
      assert |a + t| >= 2 ==> (a + t)[1] != '\n';
      LinesKeepText(a[1..], t, current + [a[0]]);
      assert current + a == (current + [a[0]]) + a[1..];
    }
  }

  lemma LineEnds(a: string, t: string)
    requires OneLine(a)
    ensures SplitLines(a + ("\r\n" + t)) == [a] + SplitLines(t)
  {
    LinesKeepText(a, "\r\n" + t, "");
    assert "" + a == a;
    assert ("\r\n" + t)[2..] == t;
  }

  // ----- what folding does to a line -----

  function Concat(pieces: seq<string>): string {
    if pieces == [] then "" else pieces[0] + Concat(pieces[1..])
  }

  lemma {:induction false} PiecesConcat(rest: string, current: string, first: bool)
    ensures Concat(Pieces(rest, current, first)) == current + rest
    decreases |rest|
  {
    if rest != "" {
      var c := [rest[0]];
      assert rest == c + rest[1..];
      if Octets(current) + Utf8Len(rest[0]) > (if first then 75 else 74) {
        PiecesConcat(rest[1..], c, false);
        var more := Pieces(rest[1..], c, false);
        assert ([current] + more)[1..] == more;
      } else {
        PiecesConcat(rest[1..], current + c, first);
        assert (current + c) + rest[1..] == current + rest;
      }
    } else {
      assert [current][1..] == [];
    }
  }

  lemma {:induction false} PiecesFit(rest: string, current: string, first: bool)
    requires Octets(current) <= if first then 75 else 74
    ensures var r := Pieces(rest, current, first);
      Octets(r[0]) <= (if first then 75 else 74) && forall i :: 1 <= i < |r| ==> Octets(r[i]) <= 74
    decreases |rest|
  {
    if rest != "" {
      var c := rest[0];
      OctetsPush(current, c);
      OctetsPush("", c);
      assert "" + [c] == [c];
      if Octets(current) + Utf8Len(c) > (if first then 75 else 74) {
        PiecesFit(rest[1..], [c], false);
      } else {
        PiecesFit(rest[1..], current + [c], first);
      }
    }
  }

  /** The next piece's first character would not have fit into the piece before: 75 octets in the first piece, 74 in the
      others. */
  ghost predicate AllFull(pieces: seq<string>, first: bool) {
    |pieces| > 1 ==>
      && pieces[1] != "" && Octets(pieces[0]) + Utf8Len(pieces[1][0]) > (if first then 75 else 74)
      && AllFull(pieces[1..], false)
  }

  /** A line is broken only where the next character would not fit. */
  lemma {:induction false} PiecesAreFull(rest: string, current: string, first: bool)
    ensures AllFull(Pieces(rest, current, first), first)
    decreases |rest|
  {
    hide Utf8Len, Octets;
    if rest != "" {
      var c := rest[0];
      if Octets(current) + Utf8Len(c) > (if first then 75 else 74) {
        var more := Pieces(rest[1..], [c], false);
        PiecesAreFull(rest[1..], [c], false);
        FirstPieceBegins(rest[1..], [c], false);
        assert ([current] + more)[1..] == more;
      } else {
        PiecesAreFull(rest[1..], current + [c], first);
      }
    }
  }

  lemma {:induction false} FirstPieceBegins(rest: string, current: string, first: bool)
    requires current != ""
    ensures Pieces(rest, current, first)[0] != "" && Pieces(rest, current, first)[0][0] == current[0]
    decreases |rest|
  {
    if rest != "" {
      FirstPieceBegins(rest[1..], current + [rest[0]], first);
    }
  }

  /** The physical lines of a folded line. */
  function Physical(pieces: seq<string>): seq<string>
    requires pieces != []
  {
    if |pieces| == 1 then pieces else [pieces[0]] + Spaced(pieces[1..])
  }

  function Spaced(pieces: seq<string>): seq<string> {
    seq(|pieces|, i requires 0 <= i < |pieces| => " " + pieces[i])
  }

  lemma {:induction false} ConcatIsOneLine(pieces: seq<string>)
    requires OneLine(Concat(pieces))
    ensures forall i :: 0 <= i < |pieces| ==> OneLine(pieces[i])
  {
    if pieces != [] {
      var a, b := pieces[0], Concat(pieces[1..]);
      assert forall i :: 0 <= i < |a| ==> (a + b)[i] == a[i];
      assert forall i :: 0 <= i < |b| ==> (a + b)[|a| + i] == b[i];
      ConcatIsOneLine(pieces[1..]);
    }
  }

  lemma JoinedSplit(pieces: seq<string>, x: string)
    requires |pieces| > 1
    ensures Joined(pieces) + x == pieces[0] + ("\r\n " + (Joined(pieces[1..]) + x))
    ensures Concat(pieces) + x == pieces[0] + (Concat(pieces[1..]) + x)
  {
    var more := pieces[1..];
    ConcatAssociates(pieces[0], "\r\n " + Joined(more), x);
    ConcatAssociates("\r\n ", Joined(more), x);
    ConcatAssociates(pieces[0], Concat(more), x);
  }

  lemma ConcatAssociates(a: string, b: string, c: string)
    ensures (a + b) + c == a + (b + c)
  {
  }

  lemma JoinedSingle(pieces: seq<string>)
    requires |pieces| == 1
    ensures Joined(pieces) == Concat(pieces) == pieces[0] && Physical(pieces) == pieces
  {
    assert pieces[1..] == [];
  }

  /** Unfolding a folded line, with whatever line follows it, gives the line back. */
  lemma {:induction false} UnfoldJoined(pieces: seq<string>, t: string)
    requires pieces != [] && (forall i :: 0 <= i < |pieces| ==> OneLine(pieces[i]))
    requires t != "" ==> t[0] != ' '
    ensures Unfold(Joined(pieces) + ("\r\n" + t)) == Concat(pieces) + ("\r\n" + Unfold(t))
  {
    hide Unfold, Joined, Concat, OneLine;
    UnfoldBreak(t);
    if |pieces| == 1 {
      JoinedSingle(pieces);
      UnfoldKeepsText(pieces[0], "\r\n" + t);
    } else {
      var more := pieces[1..];
      var tail := Joined(more) + ("\r\n" + t);
      JoinedSplit(pieces, "\r\n" + t);
      UnfoldKeepsText(pieces[0], "\r\n " + tail);
      UnfoldFold(tail);
      UnfoldJoined(more, t);
      JoinedSplit(pieces, "\r\n" + Unfold(t));
    }
  }

  lemma UnfoldEmpty()
    ensures Unfold("") == ""
  {
  }

  /** Splitting a folded line at the line breaks gives its physical lines. */
  lemma {:induction false} SplitJoined(pieces: seq<string>, t: string)
    requires pieces != [] && (forall i :: 0 <= i < |pieces| ==> OneLine(pieces[i]))
    ensures SplitLines(Joined(pieces) + ("\r\n" + t)) == Physical(pieces) + SplitLines(t)
    decreases |pieces|
  {
    hide SplitLines, Joined, Concat;
    if |pieces| == 1 {
      JoinedSingle(pieces);
      LineEnds(pieces[0], t);
      assert pieces == [pieces[0]];
    } else {
      var more := pieces[1..];
      var spaced := [" " + more[0]] + more[1..];
      JoinedSplit(pieces, "\r\n" + t);
      SpacedJoined(more, "\r\n" + t);
      assert "\r\n " + (Joined(more) + ("\r\n" + t)) == "\r\n" + (" " + (Joined(more) + ("\r\n" + t)));
      LineEnds(pieces[0], Joined(spaced) + ("\r\n" + t));
      SplitJoined(spaced, t);
      SpacedPhysical(more);
    }
  }

  lemma SpacedJoined(more: seq<string>, x: string)
    requires more != []
    ensures " " + (Joined(more) + x) == Joined([" " + more[0]] + more[1..]) + x
  {
    var spaced := [" " + more[0]] + more[1..];
    assert spaced[1..] == more[1..];
  }

  lemma SpacedPhysical(more: seq<string>)
    requires more != []
    ensures Physical([" " + more[0]] + more[1..]) == Spaced(more)
  {
    var spaced := [" " + more[0]] + more[1..];
    assert spaced[1..] == more[1..];
    assert Spaced(more) == [" " + more[0]] + Spaced(more[1..]);
    if |more| == 1 {
      assert spaced == [" " + more[0]] && Spaced(more[1..]) == [];
    }
  }
}
