/**
 * The invitation card's event details and the iCalendar (RFC 5545) document
 * its "save the date" action builds: the next February 14, its date stamp,
 * the local DATE-TIME values of section 3.3.5, the TEXT escaping of section
 * 3.3.11 and the CRLF-joined content lines of section 3.1.
 */
module InvitationCard {
  import opened Wrappers
  import opened TextFormat
  import opened CivilTime

  datatype EventDetails = EventDetails(
    title: string,
    description: string,
    location: string,
    locationShort: string,
    valentinesDate: DateTime,   // what the card formats with toLocaleDateString
    timeStr: string,
    startIcs: string,
    endIcs: string)

  /**
   * February 14 at local midnight of now's year, or of the next year once
   * now has reached it (`now >= valentinesDate` compares instants).
   */
  function ValentinesDate(now: DateTime, zone: Zone): (d: DateTime)
    ensures d == NewDate(now.year, 1, 14, 0) || d == NewDate(now.year + 1, 1, 14, 0)
    ensures d.month == 2 && d.day == 14 && d.hour == 0 && d.minute == 0
    ensures d.second == 0 && d.millisecond == 0
  {
    var year := now.year;
    var candidate := NewDate(year, 1, 14, 0);
    if zone(now) >= zone(candidate) then NewDate(year + 1, 1, 14, 0) else candidate
  }

  /** `${y}${m}${d}` with month and day padded to two digits. */
  function IcsDate(d: DateTime): string {
    IntToString(d.year) + Pad2(d.month) + Pad2(d.day)
  }

  /**
   * The chosen date lies strictly after now, and for years from 100 on it is
   * in now's year exactly when now is before that year's February 14.
   */
  lemma ValentinesDateIsNext(now: DateTime, zone: Zone)
    requires Monotone(zone) && Valid(now)
    ensures var d := ValentinesDate(now, zone);
            Valid(d) && Before(now, d) && zone(now) < zone(d)
    ensures now.year >= 100 ==>
              var d := ValentinesDate(now, zone);
              (d.year == now.year <==> Before(now, DateTime(now.year, 2, 14, 0, 0, 0, 0)))
              && (d.year == now.year || d.year == now.year + 1)
  {
    var c := NewDate(now.year, 1, 14, 0);
    var n := NewDate(now.year + 1, 1, 14, 0);
    InstantOrder(zone, now, c);
    InstantOrder(zone, now, n);
  }

  // ---- Reading a local DATE-TIME value back (section 3.3.5 of RFC 5545, form #1) ----

  /**
   * The date-time a stamp `<year><MM><DD>T<hh><mm><ss>` denotes; the year part
   * is read as `IntToString` writes it.
   */
  function ParseIcsDateTime(s: string): Option<DateTime> {
    if |s| < 12 then None
    else
      var n := |s|;
      var ys, md, hms := s[..n - 11], s[n - 11..n - 7], s[n - 6..];
      if s[n - 7] != 'T' || !AllDigits(md) || !AllDigits(hms) then None
      else match ParseInt(ys)
        case None => None
        case Some(y) =>
          Some(DateTime(y, ValueOf(md[..2]), ValueOf(md[2..]),
                        ValueOf(hms[..2]), ValueOf(hms[2..4]), ValueOf(hms[4..]), 0))
  }

  /** A stamp `<year string><4 digits>T<6 digits>` reads back field by field. */
  lemma ParseStamp(year: int, md: string, hms: string)
    requires |md| == 4 && AllDigits(md) && |hms| == 6 && AllDigits(hms)
    ensures ParseIcsDateTime(IntToString(year) + md + "T" + hms)
            == Some(DateTime(year, ValueOf(md[..2]), ValueOf(md[2..]),
                             ValueOf(hms[..2]), ValueOf(hms[2..4]), ValueOf(hms[4..]), 0))
  {
    var y := IntToString(year);
    var s := y + md + "T" + hms;
    var n := |s|;
    assert n == |y| + 11;
    assert s[..n - 11] == y;
    assert s[n - 11..n - 7] == md;
    assert s[n - 7] == 'T';
    assert s[n - 6..] == hms;
    IntRoundTrip(year);
  }

  /** A string of decimal digits whose value is v. */
  predicate ReadsAs(s: string, v: int) {
    AllDigits(s) && ValueOf(s) == v
  }

  /**
   * For a calendar month and day the date stamp, followed by a midnight time,
   * reads back as that day: year, month and day are all recovered.
   */
  lemma IcsDateReadsBack(d: DateTime)
    requires 1 <= d.month <= 12 && 1 <= d.day <= 31
    ensures ParseIcsDateTime(IcsDate(d) + "T000000") == Some(DateTime(d.year, d.month, d.day, 0, 0, 0, 0))
  {
    var m, dd := Pad2(d.month), Pad2(d.day);
    assert |m| == 2 && ReadsAs(m, d.month) by { Pad2Properties(d.month); }
    assert |dd| == 2 && ReadsAs(dd, d.day) by { Pad2Properties(d.day); }
    MidnightStampReadsBack(d.year, m, dd, d.month, d.day);
  }

  /** A year, two two-digit fields and a midnight time read back as that date at midnight. */
  lemma MidnightStampReadsBack(year: int, m: string, dd: string, month: int, day: int)
    requires |m| == 2 && |dd| == 2 && ReadsAs(m, month) && ReadsAs(dd, day)
    ensures ParseIcsDateTime(IntToString(year) + m + dd + "T000000") == Some(DateTime(year, month, day, 0, 0, 0, 0))
  {
    var y, md := IntToString(year), m + dd;
    assert y + m + dd + "T000000" == y + md + "T" + "000000";
    assert md[..2] == m && md[2..] == dd;
    WholeHourDigits("000000", 0);
    ParseStamp(year, md, "000000");
  }

  /** February 14 is written `0214`. */
  lemma IcsDateOfFeb14(d: DateTime)
    requires d.month == 2 && d.day == 14
    ensures IcsDate(d) == IntToString(d.year) + "0214"
  {
    assert IntToString(2) == "2" && IntToString(14) == "14";
    assert Pad2(2) == "02" && Pad2(14) == "14";
  }

  lemma TwoDigitValue(a: char, b: char)
    requires IsDigit(a) && IsDigit(b)
    ensures AllDigits([a, b]) && ValueOf([a, b]) == 10 * DigitValue(a) + DigitValue(b)
  {
    assert [a, b][..1] == [a];
    assert [a][..0] == [];
    assert ValueOf([a]) == DigitValue(a);
  }

  /** February 14 at a whole hour, written the way the card writes it, reads back. */
  lemma Feb14StampReadsBack(year: int, hms: string, hour: int)
    requires (hms == "160000" && hour == 16) || (hms == "200000" && hour == 20)
    ensures ParseIcsDateTime(IntToString(year) + "0214" + ("T" + hms))
            == Some(DateTime(year, 2, 14, hour, 0, 0, 0))
  {
    var y := IntToString(year);
    assert y + "0214" + ("T" + hms) == y + "0214" + "T" + hms;
    Feb14Digits();
    WholeHourDigits(hms, hour);
    ParseStamp(year, "0214", hms);
  }

  lemma Feb14Digits()
    ensures AllDigits("0214") && ValueOf("0214"[..2]) == 2 && ValueOf("0214"[2..]) == 14
  {
    assert "0214"[..2] == "02" && "0214"[2..] == "14";
    TwoDigitValue('0', '2');
    TwoDigitValue('1', '4');
  }

  lemma WholeHourDigits(hms: string, hour: int)
    requires (hms == "000000" && hour == 0) || (hms == "160000" && hour == 16) || (hms == "200000" && hour == 20)
    ensures |hms| == 6 && AllDigits(hms)
    ensures ValueOf(hms[..2]) == hour && ValueOf(hms[2..4]) == 0 && ValueOf(hms[4..]) == 0
  {
    assert hms[2..4] == "00";
    assert hms[4..] == "00";
    TwoDigitValue('0', '0');
    if hour == 0 {
      assert hms[..2] == "00";
    } else if hour == 16 {
      assert hms[..2] == "16";
      TwoDigitValue('1', '6');
    } else {
      assert hms[..2] == "20";
      TwoDigitValue('2', '0');
    }
  }

  /**
   * `getEventDetails`: the card's fixed texts and the next February 14; the
   * start and end stamps share that day's date part and differ only in the
   * time of day.
   */
  function GetEventDetails(now: DateTime, zone: Zone): (ev: EventDetails)
    ensures ev.valentinesDate == ValentinesDate(now, zone)
    ensures |ev.startIcs| == |ev.endIcs| >= 7
    ensures ev.startIcs[..|ev.startIcs| - 7] == ev.endIcs[..|ev.endIcs| - 7] == IcsDate(ev.valentinesDate)
    ensures ev.startIcs[|ev.startIcs| - 7..] == "T160000" && ev.endIcs[|ev.endIcs| - 7..] == "T200000"
    ensures ev.location == ev.locationShort + ", Nigeria"
  {
    var vd := ValentinesDate(now, zone);
    var icsDate := IcsDate(vd);
    EventDetails(
      title := "Valentine's Day Date \U{1F495}",
      description := "A special Valentine's Day date at Nike Art Museum",
      location := "Nike Art Museum, Lagos, Nigeria",
      locationShort := "Nike Art Museum, Lagos",
      valentinesDate := vd,
      timeStr := "4:00 PM",
      startIcs := icsDate + "T160000",
      endIcs := icsDate + "T200000")
  }

  /**
   * The card's DTSTART and DTEND values denote February 14 at 16:00 and at
   * 20:00 of the chosen year: the same day, start before end.
   */
  lemma EventStampsDenote(now: DateTime, zone: Zone)
    ensures var ev := GetEventDetails(now, zone);
            var y := ev.valentinesDate.year;
            && ParseIcsDateTime(ev.startIcs) == Some(DateTime(y, 2, 14, 16, 0, 0, 0))
            && ParseIcsDateTime(ev.endIcs) == Some(DateTime(y, 2, 14, 20, 0, 0, 0))
            && Before(ParseIcsDateTime(ev.startIcs).value, ParseIcsDateTime(ev.endIcs).value)
  {
    var ev := GetEventDetails(now, zone);
    var vd := ev.valentinesDate;
    var y := IntToString(vd.year);
    IcsDateOfFeb14(vd);
    assert ev.startIcs == y + "0214" + ("T" + "160000");
    assert ev.endIcs == y + "0214" + ("T" + "200000");
    Feb14StampReadsBack(vd.year, "160000", 16);
    Feb14StampReadsBack(vd.year, "200000", 20);
  }

  /** For four-digit years the stamps have RFC 5545's fixed form `YYYY0214Thhmmss`. */
  lemma FourDigitYearStamps(now: DateTime, zone: Zone)
    requires 1000 <= ValentinesDate(now, zone).year <= 9999
    ensures var ev := GetEventDetails(now, zone);
            && |IcsDate(ev.valentinesDate)| == 8 && IcsDate(ev.valentinesDate)[4..] == "0214"
            && |ev.startIcs| == 15 && |ev.endIcs| == 15
            && ev.startIcs[..8] == ev.endIcs[..8]
            && ev.startIcs[8..] == "T160000" && ev.endIcs[8..] == "T200000"
  {
    var vd := ValentinesDate(now, zone);
    IcsDateOfFeb14(vd);
    DigitsLength(vd.year, 4);
    DigitsLength(vd.year, 3);
    assert Pow10(3) == 1000 && Pow10(4) == 10000 by {
      assert Pow10(1) == 10 && Pow10(2) == 100;
    }
    assert |IntToString(vd.year)| == 4;
  }

  // ---- TEXT escaping (section 3.3.11 of RFC 5545) ----

  /** `str.replace(/c/g, rep)`: every occurrence of c replaced by rep. */
  function ReplaceAll(s: string, c: char, rep: string): (r: string)
    ensures c !in s ==> r == s
    decreases |s|
  {
    if s == [] then []
    else (if s[0] == c then rep else [s[0]]) + ReplaceAll(s[1..], c, rep)
  }

  /**
   * `escapeIcs`: backslash first, then semicolon, comma and line feed.  The
   * result has no line feed, and text without the four special characters is
   * left as it is.
   */
  function EscapeIcs(s: string): (r: string)
    ensures '\n' !in r
    ensures '\\' !in s && ';' !in s && ',' !in s && '\n' !in s ==> r == s
  {
    var t := ReplaceAll(ReplaceAll(ReplaceAll(s, '\\', "\\\\"), ';', "\\;"), ',', "\\,");
    ReplaceAllRemoves(t, '\n', "\\n");
    ReplaceAll(t, '\n', "\\n")
  }

  /** Replacing c by a string without c leaves no c behind. */
  lemma {:induction false} ReplaceAllRemoves(s: string, c: char, rep: string)
    requires c !in rep
    ensures c !in ReplaceAll(s, c, rep)
    decreases |s|
  {
    if s != [] {
      ReplaceAllRemoves(s[1..], c, rep);
    }
  }

  predicate IsSpecial(c: char) {
    c == '\\' || c == ';' || c == ',' || c == '\n'
  }

  /** The escape of one character, as section 3.3.11 of RFC 5545 writes it. */
  function EscapeChar(c: char): string {
    if c == '\\' then "\\\\"
    else if c == ';' then "\\;"
    else if c == ',' then "\\,"
    else if c == '\n' then "\\n"
    else [c]
  }

  /** Reference definition: each character escaped on its own, in one pass. */
  function EscapeEach(s: string): string
    decreases |s|
  {
    if s == [] then [] else EscapeChar(s[0]) + EscapeEach(s[1..])
  }

  function CountSpecial(s: string): nat
    decreases |s|
  {
    if s == [] then 0 else (if IsSpecial(s[0]) then 1 else 0) + CountSpecial(s[1..])
  }

  lemma {:induction false} ReplaceAllAppend(a: string, b: string, c: char, rep: string)
    ensures ReplaceAll(a + b, c, rep) == ReplaceAll(a, c, rep) + ReplaceAll(b, c, rep)
    decreases |a|
  {
    if a != [] {
      var head := if a[0] == c then rep else [a[0]];
      assert (a + b)[0] == a[0] && (a + b)[1..] == a[1..] + b;
      assert ReplaceAll(a + b, c, rep) == head + ReplaceAll(a[1..] + b, c, rep);
      ReplaceAllAppend(a[1..], b, c, rep);
      assert ReplaceAll(a, c, rep) == head + ReplaceAll(a[1..], c, rep);
    } else {
      assert a + b == b;
    }
  }

  lemma EscapeIcsAppend(a: string, b: string)
    ensures EscapeIcs(a + b) == EscapeIcs(a) + EscapeIcs(b)
  {
    var a1, b1 := ReplaceAll(a, '\\', "\\\\"), ReplaceAll(b, '\\', "\\\\");
    ReplaceAllAppend(a, b, '\\', "\\\\");
    var a2, b2 := ReplaceAll(a1, ';', "\\;"), ReplaceAll(b1, ';', "\\;");
    ReplaceAllAppend(a1, b1, ';', "\\;");
    var a3, b3 := ReplaceAll(a2, ',', "\\,"), ReplaceAll(b2, ',', "\\,");
    ReplaceAllAppend(a2, b2, ',', "\\,");
    ReplaceAllAppend(a3, b3, '\n', "\\n");
  }

  lemma EscapeIcsChar(c: char)
    ensures EscapeIcs([c]) == EscapeChar(c)
  {
    assert [c][1..] == [];
    if c == '\\' {
      var t := "\\\\";
      assert ReplaceAll([c], '\\', "\\\\") == t;
      assert ';' !in t && ',' !in t && '\n' !in t;
    } else if c == ';' {
      var t := "\\;";
      assert ReplaceAll([c], ';', "\\;") == t;
      assert ',' !in t && '\n' !in t;
    } else if c == ',' {
      var t := "\\,";
      assert ReplaceAll([c], ',', "\\,") == t;
      assert '\n' !in t;
    } else if c == '\n' {
      assert ReplaceAll([c], '\n', "\\n") == "\\n";
    }
  }

  /**
   * The four chained replacements escape every character exactly once:
   * because backslashes go first, the backslashes the later replacements
   * insert are never doubled.
   */
  lemma {:induction false} EscapeIcsIsEscapeEach(s: string)
    ensures EscapeIcs(s) == EscapeEach(s)
    decreases |s|
  {
    if s != [] {
      assert s == [s[0]] + s[1..];
      EscapeIcsAppend([s[0]], s[1..]);
      EscapeIcsChar(s[0]);
      EscapeIcsIsEscapeEach(s[1..]);
    } else {
      assert EscapeIcs(s) == [];
    }
  }

  /** Escaping adds exactly one character per backslash, semicolon, comma and line feed. */
  lemma {:induction false} EscapeLength(s: string)
    ensures |EscapeIcs(s)| == |s| + CountSpecial(s)
    decreases |s|
  {
    EscapeIcsIsEscapeEach(s);
    EscapeEachLength(s);
  }

  lemma {:induction false} EscapeEachLength(s: string)
    ensures |EscapeEach(s)| == |s| + CountSpecial(s)
    decreases |s|
  {
    if s != [] {
      EscapeEachLength(s[1..]);
    }
  }

  /**
   * Escaped TEXT: every backslash starts one of the four escapes, and no
   * semicolon, comma or line feed stands unescaped.
   */
  predicate WellEscaped(t: string)
    decreases |t|
  {
    if t == [] then true
    else if t[0] == '\\' then
      |t| >= 2 && (t[1] == '\\' || t[1] == ';' || t[1] == ',' || t[1] == 'n') && WellEscaped(t[2..])
    else !IsSpecial(t[0]) && WellEscaped(t[1..])
  }

  /** Section 3.3.11 decoding: `\n` is a line feed, any other escaped character stands for itself. */
  function Unescape(t: string): string
    decreases |t|
  {
    if t == [] then []
    else if t[0] == '\\' && |t| >= 2 then
      (if t[1] == 'n' then "\n" else [t[1]]) + Unescape(t[2..])
    else [t[0]] + Unescape(t[1..])
  }

  /** Escaping yields well-formed TEXT (in particular no line feed), and unescaping restores the input. */
  lemma {:induction false} EscapeRoundTrip(s: string)
    ensures WellEscaped(EscapeIcs(s))
    ensures '\n' !in EscapeIcs(s)
    ensures Unescape(EscapeIcs(s)) == s
    decreases |s|
  {
    EscapeIcsIsEscapeEach(s);
    EscapeEachRoundTrip(s);
    WellEscapedHasNoLineFeed(EscapeEach(s));
  }

  lemma {:induction false} EscapeEachRoundTrip(s: string)
    ensures WellEscaped(EscapeEach(s)) && Unescape(EscapeEach(s)) == s
    decreases |s|
  {
    if s != [] {
      EscapeEachRoundTrip(s[1..]);
      var e, rest := EscapeChar(s[0]), EscapeEach(s[1..]);
      var t := e + rest;
      assert EscapeEach(s) == t;
      if IsSpecial(s[0]) {
        assert |e| == 2 && t[2..] == rest;
      } else {
        assert t[1..] == rest;
      }
      assert s == [s[0]] + s[1..];
    }
  }

  lemma {:induction false} WellEscapedHasNoLineFeed(t: string)
    requires WellEscaped(t)
    ensures '\n' !in t
    decreases |t|
  {
    if t != [] {
      if t[0] == '\\' {
        WellEscapedHasNoLineFeed(t[2..]);
        assert t == t[..2] + t[2..];
      } else {
        WellEscapedHasNoLineFeed(t[1..]);
        assert t == [t[0]] + t[1..];
      }
    }
  }

  // ---- The calendar document (section 3.1 of RFC 5545) ----

  const Crlf := "\r\n"

  /** A content line `name:value`. */
  function Property(name: string, value: string): string {
    name + ":" + value
  }

  /** The 11 content lines of the document, given the five property values. */
  function ContentLines(start: string, end: string, summary: string, description: string, location: string): (lines: seq<string>)
    ensures |lines| == 11 && lines[0] == "BEGIN:VCALENDAR" && lines[10] == "END:VCALENDAR"
  {
    [
      "BEGIN:VCALENDAR",
      "VERSION:2.0",
      "PRODID:-//Valentine Invitation//EN",
      "BEGIN:VEVENT",
      Property("DTSTART", start),
      Property("DTEND", end),
      Property("SUMMARY", summary),
      Property("DESCRIPTION", description),
      Property("LOCATION", location),
      "END:VEVENT",
      "END:VCALENDAR"
    ]
  }

  /** The card's lines: its stamps and its escaped title, description and location. */
  function IcsLines(ev: EventDetails): (lines: seq<string>)
    ensures |lines| == 11 && lines[0] == "BEGIN:VCALENDAR" && lines[10] == "END:VCALENDAR"
  {
    ContentLines(ev.startIcs, ev.endIcs, EscapeIcs(ev.title), EscapeIcs(ev.description), EscapeIcs(ev.location))
  }

  /** `Array.prototype.join`: the separator between consecutive elements, none after the last. */
  function Join(lines: seq<string>, sep: string): string
    decreases |lines|
  {
    if lines == [] then ""
    else if |lines| == 1 then lines[0]
    else lines[0] + sep + Join(lines[1..], sep)
  }

  /** The document `handleSaveDate` puts in the .ics file. */
  function IcsContent(ev: EventDetails): (doc: string)
    ensures StartsWith(doc, "BEGIN:VCALENDAR\r\n")
    ensures EndsWith(doc, "\r\nEND:VCALENDAR")
  {
    JoinFraming(IcsLines(ev));
    Join(IcsLines(ev), Crlf)
  }

  /** Splits a document at every CRLF, scanning left to right. */
  function SplitLines(s: string): (r: seq<string>)
    ensures |r| >= 1
    decreases |s|
  {
    if s == [] then [""]
    else if |s| >= 2 && s[0] == '\r' && s[1] == '\n' then [""] + SplitLines(s[2..])
    else
      var rest := SplitLines(s[1..]);
      [[s[0]] + rest[0]] + rest[1..]
  }

  lemma {:induction false} SplitLinesPrefix(line: string, rest: string)
    requires '\n' !in line
    requires rest == [] || rest[0] != '\n'
    ensures SplitLines(line + rest) == [line + SplitLines(rest)[0]] + SplitLines(rest)[1..]
    decreases |line|
  {
    if line == [] {
      assert line + rest == rest;
      var r := SplitLines(rest);
      assert line + r[0] == r[0];
      assert r == [r[0]] + r[1..];
    } else {
      var t := line + rest;
      assert t[1..] == line[1..] + rest;
      assert !(|t| >= 2 && t[0] == '\r' && t[1] == '\n') by {
        if |line| >= 2 { assert t[1] == line[1]; }
      }
      SplitLinesPrefix(line[1..], rest);
      assert [line[0]] + (line[1..] + SplitLines(rest)[0]) == line + SplitLines(rest)[0];
    }
  }

  /** Joining lines without line feeds with CRLF and splitting again gives back the lines. */
  lemma {:induction false} SplitJoin(lines: seq<string>)
    requires |lines| >= 1
    requires forall i :: 0 <= i < |lines| ==> '\n' !in lines[i]
    ensures SplitLines(Join(lines, Crlf)) == lines
    decreases |lines|
  {
    if |lines| == 1 {
      SplitLinesPrefix(lines[0], []);
      assert lines[0] + [] == lines[0];
    } else {
      var tail := Join(lines[1..], Crlf);
      SplitJoin(lines[1..]);
      assert Join(lines, Crlf) == lines[0] + (Crlf + tail);
      SplitLinesPrefix(lines[0], Crlf + tail);
      assert (Crlf + tail)[2..] == tail;
      assert SplitLines(Crlf + tail) == [""] + lines[1..];
      assert lines[0] + "" == lines[0];
      assert lines == [lines[0]] + lines[1..];
    }
  }

  function StartsWith(s: string, p: string): bool {
    |p| <= |s| && s[..|p|] == p
  }

  function EndsWith(s: string, p: string): bool {
    |p| <= |s| && s[|s| - |p|..] == p
  }

  /** The value of the first content line `name:value`, as a reader looks a property up. */
  function Lookup(lines: seq<string>, name: string): Option<string>
    decreases |lines|
  {
    if lines == [] then None
    else if StartsWith(lines[0], name + ":") then Some(lines[0][|name| + 1..])
    else Lookup(lines[1..], name)
  }

  /** Date stamps without line feeds: those the card produces, made of digits, '-' and 'T'. */
  predicate PlainStamps(ev: EventDetails) {
    '\n' !in ev.startIcs && '\n' !in ev.endIcs
  }

  lemma {:induction false} LookupSkip(lines: seq<string>, name: string, k: nat)
    requires k < |lines|
    requires forall i :: 0 <= i < k ==> !StartsWith(lines[i], name + ":")
    ensures Lookup(lines, name) == Lookup(lines[k..], name)
    decreases k
  {
    if k > 0 {
      assert lines[1..][k - 1..] == lines[k..];
      LookupSkip(lines[1..], name, k - 1);
    }
  }

  /** Lines that differ from `name:` in one of their first three characters are skipped. */
  lemma LookupAt(lines: seq<string>, name: string, k: nat, value: string)
    requires k < |lines| && |name| >= 2
    requires forall i :: 0 <= i < k ==>
               |lines[i]| >= 3 && (lines[i][0] != name[0] || lines[i][1] != name[1] || lines[i][2] != (name + ":")[2])
    requires lines[k] == name + ":" + value
    ensures Lookup(lines, name) == Some(value)
  {
    forall i | 0 <= i < k ensures !StartsWith(lines[i], name + ":") {
    }
    LookupSkip(lines, name, k);
    assert lines[k..][0] == lines[k];
    assert (name + ":" + value)[|name| + 1..] == value;
  }

  /**
   * The document is well framed and reads back: 11 CRLF-separated lines from
   * BEGIN:VCALENDAR to END:VCALENDAR with no CRLF after the last one, and
   * looking up DTSTART, DTEND, SUMMARY, DESCRIPTION and LOCATION gives the
   * stamps and, once unescaped, exactly the title, description and location.
   */
  lemma IcsContentReadsBack(ev: EventDetails)
    requires PlainStamps(ev)
    ensures var doc := IcsContent(ev);
            var lines := SplitLines(doc);
            && lines == IcsLines(ev)
            && |lines| == 11
            && lines[0] == "BEGIN:VCALENDAR" && lines[10] == "END:VCALENDAR"
            && Lookup(lines, "DTSTART") == Some(ev.startIcs)
            && Lookup(lines, "DTEND") == Some(ev.endIcs)
            && Lookup(lines, "SUMMARY").Some? && Unescape(Lookup(lines, "SUMMARY").value) == ev.title
            && Lookup(lines, "DESCRIPTION").Some?
            && Unescape(Lookup(lines, "DESCRIPTION").value) == ev.description
            && Lookup(lines, "LOCATION").Some? && Unescape(Lookup(lines, "LOCATION").value) == ev.location
  {
    var lines := IcsLines(ev);
    IcsLinesHaveNoLineFeed(ev);
    SplitJoin(lines);
    IcsLookups(ev);
    EscapeRoundTrip(ev.title);
    EscapeRoundTrip(ev.description);
    EscapeRoundTrip(ev.location);
  }

  lemma IcsLinesHaveNoLineFeed(ev: EventDetails)
    requires PlainStamps(ev)
    ensures forall i :: 0 <= i < |IcsLines(ev)| ==> '\n' !in IcsLines(ev)[i]
  {
    var summary, description, location := EscapeIcs(ev.title), EscapeIcs(ev.description), EscapeIcs(ev.location);
    assert '\n' !in summary && '\n' !in description && '\n' !in location;
    ContentLinesHaveNoLineFeed(ev.startIcs, ev.endIcs, summary, description, location);
  }

  lemma ContentLinesHaveNoLineFeed(start: string, end: string, summary: string, description: string, location: string)
    requires '\n' !in start && '\n' !in end && '\n' !in summary && '\n' !in description && '\n' !in location
    ensures var lines := ContentLines(start, end, summary, description, location);
            forall i :: 0 <= i < |lines| ==> '\n' !in lines[i]
  {
    var lines := ContentLines(start, end, summary, description, location);
    forall i | 0 <= i < |lines|
      ensures '\n' !in lines[i]
    {
      if i == 4 {
        PropertyHasNoLineFeed("DTSTART", start);
      } else if i == 5 {
        PropertyHasNoLineFeed("DTEND", end);
      } else if i == 6 {
        PropertyHasNoLineFeed("SUMMARY", summary);
      } else if i == 7 {
        PropertyHasNoLineFeed("DESCRIPTION", description);
      } else if i == 8 {
        PropertyHasNoLineFeed("LOCATION", location);
      }
    }
  }

  lemma PropertyHasNoLineFeed(name: string, value: string)
    requires '\n' !in name && '\n' !in value
    ensures '\n' !in Property(name, value)
  {
  }

  lemma IcsLookups(ev: EventDetails)
    ensures var lines := IcsLines(ev);
            && Lookup(lines, "DTSTART") == Some(ev.startIcs)
            && Lookup(lines, "DTEND") == Some(ev.endIcs)
            && Lookup(lines, "SUMMARY") == Some(EscapeIcs(ev.title))
            && Lookup(lines, "DESCRIPTION") == Some(EscapeIcs(ev.description))
            && Lookup(lines, "LOCATION") == Some(EscapeIcs(ev.location))
  {
    ContentLookups(ev.startIcs, ev.endIcs, EscapeIcs(ev.title), EscapeIcs(ev.description), EscapeIcs(ev.location));
  }

  lemma ContentLookups(start: string, end: string, summary: string, description: string, location: string)
    ensures var lines := ContentLines(start, end, summary, description, location);
            && Lookup(lines, "DTSTART") == Some(start)
            && Lookup(lines, "DTEND") == Some(end)
            && Lookup(lines, "SUMMARY") == Some(summary)
            && Lookup(lines, "DESCRIPTION") == Some(description)
            && Lookup(lines, "LOCATION") == Some(location)
  {
    var lines := ContentLines(start, end, summary, description, location);
    LookupProperty(start, end, summary, description, location, "DTSTART", 4, start);
    LookupProperty(start, end, summary, description, location, "DTEND", 5, end);
    LookupProperty(start, end, summary, description, location, "SUMMARY", 6, summary);
    LookupProperty(start, end, summary, description, location, "DESCRIPTION", 7, description);
    LookupProperty(start, end, summary, description, location, "LOCATION", 8, location);
  }

  lemma LookupProperty(start: string, end: string, summary: string, description: string, location: string,
                        name: string, k: nat, value: string)
    requires (k, name) in {(4, "DTSTART"), (5, "DTEND"), (6, "SUMMARY"), (7, "DESCRIPTION"), (8, "LOCATION")}
    requires ContentLines(start, end, summary, description, location)[k] == Property(name, value)
    ensures Lookup(ContentLines(start, end, summary, description, location), name) == Some(value)
  {
    var lines := ContentLines(start, end, summary, description, location);
    var heads := ["BEG", "VER", "PRO", "BEG", "DTS", "DTE", "SUM", "DES", "LOC"];
    forall i | 0 <= i < 9
      ensures |lines[i]| >= 3 && lines[i][0] == heads[i][0] && lines[i][1] == heads[i][1] && lines[i][2] == heads[i][2]
    {
    }
    LookupAt(lines, name, k, value);
  }

  lemma JoinFraming(lines: seq<string>)
    requires |lines| == 11
    requires lines[0] == "BEGIN:VCALENDAR" && lines[10] == "END:VCALENDAR"
    ensures StartsWith(Join(lines, Crlf), "BEGIN:VCALENDAR\r\n")
    ensures EndsWith(Join(lines, Crlf), "\r\nEND:VCALENDAR")
  {
    JoinStartsWith(lines, Crlf);
    JoinEndsWith(lines, Crlf);
    assert lines[0] + Crlf == "BEGIN:VCALENDAR\r\n";
    assert Crlf + lines[|lines| - 1] == "\r\nEND:VCALENDAR";
  }

  lemma JoinStartsWith(lines: seq<string>, sep: string)
    requires |lines| >= 2
    ensures StartsWith(Join(lines, sep), lines[0] + sep)
  {
    var doc := Join(lines, sep);
    assert doc == lines[0] + sep + Join(lines[1..], sep);
    assert doc[..|lines[0] + sep|] == lines[0] + sep;
  }

  lemma JoinEndsWith(lines: seq<string>, sep: string)
    requires |lines| >= 2
    ensures EndsWith(Join(lines, sep), sep + lines[|lines| - 1])
  {
    var doc := Join(lines, sep);
    JoinLast(lines, sep);
    assert doc == Join(lines[..|lines| - 1], sep) + (sep + lines[|lines| - 1]);
    assert doc[|doc| - |sep + lines[|lines| - 1]|..] == sep + lines[|lines| - 1];
  }

  lemma {:induction false} JoinLast(lines: seq<string>, sep: string)
    requires |lines| >= 2
    ensures Join(lines, sep) == Join(lines[..|lines| - 1], sep) + sep + lines[|lines| - 1]
    decreases |lines|
  {
    if |lines| > 2 {
      JoinLast(lines[1..], sep);
      assert lines[1..][..|lines| - 2] == lines[..|lines| - 1][1..];
    }
  }

  /** The card's own document: its stamps hold no line feed, so everything above applies. */
  lemma CardDocumentReadsBack(now: DateTime, zone: Zone)
    ensures PlainStamps(GetEventDetails(now, zone))
  {
    var ev := GetEventDetails(now, zone);
    var icsDate := IcsDate(ev.valentinesDate);
    assert '\n' !in icsDate by {
      var y, m, d := IntToString(ev.valentinesDate.year), Pad2(2), Pad2(14);
      assert icsDate == y + m + d;
      Pad2Properties(2); Pad2Properties(14);
      assert forall i :: 0 <= i < |y| ==> y[i] == '-' || IsDigit(y[i]);
    }
  }
}
