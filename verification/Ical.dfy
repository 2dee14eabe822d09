/** The iCalendar feed: escaping of text values and the CRLF-joined lines. */
module Ical {
  import opened Common

  /** Every c of s replaced by the string into. */
  function Replace(s: string, c: char, into: string): string {
    if s == "" then "" else (if s[0] == c then into else [s[0]]) + Replace(s[1..], c, into)
  }

  /** Backslash first, or the backslashes of the later replacements would be doubled. */
  function Esc(s: string): string {
    Replace(Replace(Replace(Replace(s, '\\', "\\\\"), ';', "\\;"), ',', "\\,"), '\n', "\\n")
  }

  // ---- The escape as one pass, and its inverse ----

  function EscChar(c: char): string {
    if c == '\\' then "\\\\"
    else if c == ';' then "\\;"
    else if c == ',' then "\\,"
    else if c == '\n' then "\\n"
    else [c]
  }

  function OnePass(s: string): string {
    if s == "" then "" else EscChar(s[0]) + OnePass(s[1..])
  }

  /** Section 3.3.11 of RFC 5545: a backslash hides a backslash, semicolon or comma, and \n or \N is a line feed. */
  function Unescape(s: string): string {
    if s == "" then ""
    else if s[0] == '\\' && |s| >= 2 then
      if s[1] == '\\' || s[1] == ';' || s[1] == ',' then [s[1]] + Unescape(s[2..])
      else if s[1] == 'n' || s[1] == 'N' then "\n" + Unescape(s[2..])
      else s[..2] + Unescape(s[2..])
    else [s[0]] + Unescape(s[1..])
  }

  lemma {:induction false} ReplaceConcat(a: string, b: string, c: char, into: string)
    ensures Replace(a + b, c, into) == Replace(a, c, into) + Replace(b, c, into)
  {
    if a == "" {
      assert a + b == b;
    } else {
      assert (a + b)[1..] == a[1..] + b;
      ReplaceConcat(a[1..], b, c, into);
    }
  }

  lemma ReplaceOne(x: char, c: char, into: string)
    ensures Replace([x], c, into) == if x == c then into else [x]
  {
  }

  lemma ReplaceTwo(x: char, y: char, c: char, into: string)
    requires x != c && y != c
    ensures Replace([x, y], c, into) == [x, y]
  {
    assert [x, y] == [x] + [y];
    ReplaceConcat([x], [y], c, into);
    ReplaceOne(x, c, into);
    ReplaceOne(y, c, into);
  }

  lemma EscConcat(a: string, b: string)
    ensures Esc(a + b) == Esc(a) + Esc(b)
  {
    var a1, b1 := Replace(a, '\\', "\\\\"), Replace(b, '\\', "\\\\");
    var a2, b2 := Replace(a1, ';', "\\;"), Replace(b1, ';', "\\;");
    var a3, b3 := Replace(a2, ',', "\\,"), Replace(b2, ',', "\\,");
    ReplaceConcat(a, b, '\\', "\\\\");
    ReplaceConcat(a1, b1, ';', "\\;");
    ReplaceConcat(a2, b2, ',', "\\,");
    ReplaceConcat(a3, b3, '\n', "\\n");
  }

  lemma EscOne(c: char)
    ensures Esc([c]) == EscChar(c)
  {
    ReplaceOne(c, '\\', "\\\\");
    if c == '\\' {
      ReplaceTwo('\\', '\\', ';', "\\;");
      ReplaceTwo('\\', '\\', ',', "\\,");
      ReplaceTwo('\\', '\\', '\n', "\\n");
    } else {
      ReplaceOne(c, ';', "\\;");
      if c == ';' {
        ReplaceTwo('\\', ';', ',', "\\,");
        ReplaceTwo('\\', ';', '\n', "\\n");
      } else {
        ReplaceOne(c, ',', "\\,");
        if c == ',' {
          ReplaceTwo('\\', ',', '\n', "\\n");
        } else {
          ReplaceOne(c, '\n', "\\n");
        }
      }
    }
  }

  /** The four successive replacements equal one pass over the characters: none touches what another one wrote. */
  lemma {:induction false} EscIsOnePass(s: string)
    ensures Esc(s) == OnePass(s)
  {
    if s != "" {
      assert s == [s[0]] + s[1..];
      EscConcat([s[0]], s[1..]);
      EscOne(s[0]);
      EscIsOnePass(s[1..]);
    }
  }

  lemma {:induction false} UnescapeOnePass(s: string)
    ensures Unescape(OnePass(s)) == s
  {
    if s != "" {
      UnescapeOnePass(s[1..]);
      var head, rest := EscChar(s[0]), OnePass(s[1..]);
      var all := head + rest;
      if |head| == 2 {
        assert all[0] == '\\' && all[1] == head[1] && all[2..] == rest;
      } else {
        assert all[0] == s[0] && all[1..] == rest;
      }
    }
  }

  /** Reading a text value back gives the original, for every string. */
  lemma TextRoundTrip(s: string)
    ensures Unescape(Esc(s)) == s
  {
    EscIsOnePass(s);
    UnescapeOnePass(s);
  }

  lemma EscInjective(s: string, t: string)
    requires Esc(s) == Esc(t)
    ensures s == t
  {
    TextRoundTrip(s);
    TextRoundTrip(t);
  }

  lemma {:induction false} OnePassHasNoLineFeed(s: string)
    ensures '\n' !in OnePass(s)
  {
    if s != "" { OnePassHasNoLineFeed(s[1..]); }
  }

  lemma EscHasNoLineFeed(s: string)
    ensures '\n' !in Esc(s)
  {
    EscIsOnePass(s);
    OnePassHasNoLineFeed(s);
  }

  // ---- The feed ----

  /** A booking of the feed; stamp, start and end are the formatted instants. */
  datatype Row = Row(
    id: string,
    stamp: string,
    start: string,
    end: string,
    cancelled: bool,
    customerName: string,
    referenceCode: string,
    meetingUrl: Option<string>,
    serviceName: Option<string>)
  {
    predicate HasUrl() { meetingUrl.Some? && meetingUrl.value != "" }

    function Summary(): string {
      (match serviceName case Some(n) => n case None => "Rezervace") + " \U{2014} " + customerName
    }

    function Description(): string {
      "K\U{00F3}d: " + referenceCode + if HasUrl() then "\n" + "Video: " + meetingUrl.value else ""
    }

    function UidLine(): string { "UID:" + id + "@reserved" }

    function StatusLine(): string { "STATUS:" + (if cancelled then "CANCELLED" else "CONFIRMED") }

    function FixedLines(): seq<string> {
      ["BEGIN:VEVENT", UidLine(), "DTSTAMP:" + stamp, "DTSTART:" + start, "DTEND:" + end,
       "SUMMARY:" + Esc(Summary()), StatusLine(), "DESCRIPTION:" + Esc(Description())]
    }

    function UrlLines(): seq<string> { if HasUrl() then ["URL:" + Esc(meetingUrl.value)] else [] }

    function Lines(): seq<string> { FixedLines() + UrlLines() + ["END:VEVENT"] }

    /** The identifiers and formatted instants hold no line feed; the names may. */
    predicate Plain() { '\n' !in id && '\n' !in stamp && '\n' !in start && '\n' !in end }
  }

  function Header(product: string, employee: string): seq<string> {
    ["BEGIN:VCALENDAR", "VERSION:2.0", "PRODID:-//" + product + "//Booking//CS", "CALSCALE:GREGORIAN", "METHOD:PUBLISH",
     "X-WR-CALNAME:" + product + " \U{2014} " + employee[..Min(|employee|, 8)]]
  }

  function RowLines(rows: seq<Row>): seq<string> {
    if rows == [] then [] else RowLines(rows[..|rows| - 1]) + rows[|rows| - 1].Lines()
  }

  function FeedLines(product: string, employee: string, rows: seq<Row>): seq<string> {
    Header(product, employee) + RowLines(rows) + ["END:VCALENDAR"]
  }

  function JoinCrlf(lines: seq<string>): string {
    if lines == [] then "" else lines[0] + "\r\n" + JoinCrlf(lines[1..])
  }

  /** text.split("\r\n") */
  function SplitCrlf(text: string): (parts: seq<string>)
    ensures |parts| >= 1
  {
    if text == "" then [""]
    else if |text| >= 2 && text[0] == '\r' && text[1] == '\n' then [""] + SplitCrlf(text[2..])
    else
      var rest := SplitCrlf(text[1..]);
      [[text[0]] + rest[0]] + rest[1..]
  }

  /** Pushes the lines of one booking. */
  method PushEvent(lines: seq<string>, r: Row) returns (more: seq<string>)
    ensures more == lines + r.Lines()
  {
    more := lines + ["BEGIN:VEVENT", r.UidLine(), "DTSTAMP:" + r.stamp, "DTSTART:" + r.start, "DTEND:" + r.end,
                     "SUMMARY:" + Esc(r.Summary()), r.StatusLine(), "DESCRIPTION:" + Esc(r.Description())];
    ghost var fixed := more;
    if r.HasUrl() {
      more := more + ["URL:" + Esc(r.meetingUrl.value)];
    }
    assert more == fixed + r.UrlLines();
    more := more + ["END:VEVENT"];
    assert lines + r.FixedLines() + r.UrlLines() + ["END:VEVENT"] == lines + r.Lines();
  }

  method PushRows(lines: seq<string>, rows: seq<Row>) returns (more: seq<string>)
    ensures more == lines + RowLines(rows)
  {
    more := lines;
    for n := 0 to |rows|
      invariant more == lines + RowLines(rows[..n])
    {
      RowLinesNext(rows, n);
      more := PushEvent(more, rows[n]);
      Associative(lines, RowLines(rows[..n]), rows[n].Lines());
    }
    assert rows[..|rows|] == rows;
  }

  lemma RowLinesNext(rows: seq<Row>, n: nat)
    requires n < |rows|
    ensures RowLines(rows[..n + 1]) == RowLines(rows[..n]) + rows[n].Lines()
  {
    assert rows[..n + 1][..n] == rows[..n];
  }

  lemma Associative<T>(a: seq<T>, b: seq<T>, c: seq<T>)
    ensures (a + b) + c == a + (b + c)
  {
  }

  method BuildIcs(product: string, employee: string, rows: seq<Row>) returns (ics: string)
    ensures ics == JoinCrlf(FeedLines(product, employee, rows))
  {
    var lines := Header(product, employee);
    lines := PushRows(lines, rows);
    ics := JoinCrlf(lines + ["END:VCALENDAR"]);
  }

  ghost predicate NoLineFeeds(lines: seq<string>) {
    forall i :: 0 <= i < |lines| ==> '\n' !in lines[i]
  }

  lemma {:induction false} SplitLine(line: string, rest: string)
    requires '\n' !in line
    ensures SplitCrlf(line + "\r\n" + rest) == [line] + SplitCrlf(rest)
  {
    var text := line + "\r\n" + rest;
    if line == "" {
      assert text == "\r\n" + rest;
      assert text[2..] == rest;
    } else {
      assert text[1..] == line[1..] + "\r\n" + rest;
      SplitLine(line[1..], rest);
      assert text[0] == line[0];
      assert |line| >= 2 ==> text[1] == line[1];
      assert |line| == 1 ==> text[1] == '\r';
      assert [line[0]] + line[1..] == line;
    }
  }

  lemma {:induction false} SplitJoin(lines: seq<string>)
    requires NoLineFeeds(lines)
    ensures SplitCrlf(JoinCrlf(lines)) == lines + [""]
  {
    if lines != [] {
      var line, rest := lines[0], lines[1..];
      SplitJoin(rest);
      SplitLine(line, JoinCrlf(rest));
      calc {
        SplitCrlf(JoinCrlf(lines));
        [line] + SplitCrlf(JoinCrlf(rest));
        [line] + (rest + [""]);
        { assert lines == [line] + rest; }
        lines + [""];
      }
    }
  }

  lemma PlainConcat(a: string, b: string)
    requires '\n' !in a && '\n' !in b
    ensures '\n' !in a + b
  {
  }

  lemma FixedLinesPlain(r: Row)
    requires r.Plain()
    ensures NoLineFeeds(r.FixedLines())
  {
    EscHasNoLineFeed(r.Summary());
    EscHasNoLineFeed(r.Description());
    PlainConcat("UID:", r.id);
    PlainConcat("UID:" + r.id, "@reserved");
    PlainConcat("DTSTAMP:", r.stamp);
    PlainConcat("DTSTART:", r.start);
    PlainConcat("DTEND:", r.end);
    PlainConcat("SUMMARY:", Esc(r.Summary()));
    PlainConcat("DESCRIPTION:", Esc(r.Description()));
    PlainConcat("STATUS:", if r.cancelled then "CANCELLED" else "CONFIRMED");
    assert r.UidLine() == "UID:" + r.id + "@reserved";
  }

  lemma RowLinesPlain(r: Row)
    requires r.Plain()
    ensures NoLineFeeds(r.Lines())
  {
    FixedLinesPlain(r);
    if r.HasUrl() {
      EscHasNoLineFeed(r.meetingUrl.value);
      PlainConcat("URL:", Esc(r.meetingUrl.value));
    }
    assert NoLineFeeds(r.UrlLines());
    assert '\n' !in "END:VEVENT";
  }

  lemma {:induction false} AllRowLinesPlain(rows: seq<Row>)
    requires forall i :: 0 <= i < |rows| ==> rows[i].Plain()
    ensures NoLineFeeds(RowLines(rows))
  {
    if rows != [] {
      AllRowLinesPlain(rows[..|rows| - 1]);
      RowLinesPlain(rows[|rows| - 1]);
    }
  }

  lemma HeaderPlain(product: string, employee: string)
    requires '\n' !in product && '\n' !in employee
    ensures NoLineFeeds(Header(product, employee))
  {
    var name := employee[..Min(|employee|, 8)];
    assert '\n' !in name;
  }

  lemma ConcatPlain(a: seq<string>, b: seq<string>)
    requires NoLineFeeds(a) && NoLineFeeds(b)
    ensures NoLineFeeds(a + b)
  {
  }

  /** Whatever names, codes and links contain, splitting the feed on CRLF gives back exactly the pushed lines. */
  lemma FeedSplitsIntoLines(product: string, employee: string, rows: seq<Row>)
    requires '\n' !in product && '\n' !in employee && forall i :: 0 <= i < |rows| ==> rows[i].Plain()
    ensures SplitCrlf(JoinCrlf(FeedLines(product, employee, rows))) == FeedLines(product, employee, rows) + [""]
  {
    HeaderPlain(product, employee);
    AllRowLinesPlain(rows);
    ConcatPlain(Header(product, employee), RowLines(rows));
    ConcatPlain(Header(product, employee) + RowLines(rows), ["END:VCALENDAR"]);
    SplitJoin(FeedLines(product, employee, rows));
  }

  // ---- The lines in plain words ----

  /** The lines of a booking, in order: who, when, what, its state, its code with any link, and the link. */
  lemma EventLines(r: Row)
    ensures var link := if r.meetingUrl == None then "" else r.meetingUrl.value;
      var service := if r.serviceName == None then "Rezervace" else r.serviceName.value;
      r.Lines() ==
        [ "BEGIN:VEVENT",
          "UID:" + r.id + "@reserved",
          "DTSTAMP:" + r.stamp,
          "DTSTART:" + r.start,
          "DTEND:" + r.end,
          "SUMMARY:" + OnePass(service + " \U{2014} " + r.customerName),
          if r.cancelled then "STATUS:CANCELLED" else "STATUS:CONFIRMED",
          "DESCRIPTION:" + OnePass("K\U{00F3}d: " + r.referenceCode + if link == "" then "" else "\nVideo: " + link)]
        + (if link == "" then [] else ["URL:" + OnePass(link)])
        + ["END:VEVENT"]
  {
    EscIsOnePass(r.Summary());
    EscIsOnePass(r.Description());
    if r.meetingUrl.Some? { EscIsOnePass(r.meetingUrl.value); }
    DescriptionText(r);
    StatusText(r);
  }

  lemma DescriptionText(r: Row)
    ensures var link := if r.meetingUrl == None then "" else r.meetingUrl.value;
      r.Description() == "K\U{00F3}d: " + r.referenceCode + if link == "" then "" else "\nVideo: " + link
  {
    if r.meetingUrl.Some? { assert "\n" + "Video: " + r.meetingUrl.value == "\nVideo: " + r.meetingUrl.value; }
  }

  lemma StatusText(r: Row)
    ensures r.StatusLine() == if r.cancelled then "STATUS:CANCELLED" else "STATUS:CONFIRMED"
  {
    assert "STATUS:" + "CANCELLED" == "STATUS:CANCELLED" && "STATUS:" + "CONFIRMED" == "STATUS:CONFIRMED";
  }

  /** The feed opens with its header, named after the first eight characters of the employee, and closes at the end. */
  lemma FeedFrame(product: string, employee: string, rows: seq<Row>)
    ensures var name := if |employee| < 8 then employee else employee[..8];
      FeedLines(product, employee, rows) ==
        [ "BEGIN:VCALENDAR",
          "VERSION:2.0",
          "PRODID:-//" + product + "//Booking//CS",
          "CALSCALE:GREGORIAN",
          "METHOD:PUBLISH",
          "X-WR-CALNAME:" + product + " \U{2014} " + name]
        + RowLines(rows) + ["END:VCALENDAR"]
    ensures forall r :: RowLines(rows + [r]) == RowLines(rows) + r.Lines()
    ensures RowLines([]) == []
  {
    if |employee| < 8 { assert employee[..|employee|] == employee; }
    forall r ensures RowLines(rows + [r]) == RowLines(rows) + r.Lines() {
      assert (rows + [r])[..|rows|] == rows;
    }
  }

  /** What the character map does. */
  lemma MapEffect(s: string, c: char)
    ensures OnePass("") == "" && OnePass(s + [c]) == OnePass(s) + EscChar(c)
    ensures EscChar('\\') == "\\\\" && EscChar(';') == "\\;" && EscChar(',') == "\\," && EscChar('\n') == "\\n"
    ensures c !in "\\;,\n" ==> EscChar(c) == [c]
  {
    EscIsOnePass(s);
    EscIsOnePass(s + [c]);
    EscConcat(s, [c]);
    EscOne(c);
  }

  /** A reader takes \\n and \\N for a line feed, and leaves an escape it does not know as it is. */
  lemma UnescapeReads(s: string, c: char)
    ensures Unescape(['\\', 'n'] + s) == Unescape(['\\', 'N'] + s) == "\n" + Unescape(s)
    ensures c in "\\;," ==> Unescape(['\\', c] + s) == [c] + Unescape(s)
    ensures c !in "\\;,nN" ==> Unescape(['\\', c] + s) == ['\\', c] + Unescape(s)
    ensures c != '\\' ==> Unescape([c] + s) == [c] + Unescape(s)
  {
    assert (['\\', 'n'] + s)[2..] == s && (['\\', 'N'] + s)[2..] == s;
    assert (['\\', c] + s)[2..] == s && (['\\', c] + s)[..2] == ['\\', c];
    assert ([c] + s)[1..] == s;
  }

  predicate CrlfAt(text: string, k: nat) {
    k + 1 < |text| && text[k] == '\r' && text[k + 1] == '\n'
  }

  lemma SplitBehind(text: string)
    requires text != "" && !CrlfAt(text, 0) && SplitCrlf(text[1..]) == [text[1..]]
    ensures SplitCrlf(text) == [text]
  {
    assert [text[0]] + text[1..] == text;
  }

  /** A text is split at CRLF only. */
  lemma {:induction false} SplitOnlyAtCrlf(text: string)
    requires forall k: nat :: !CrlfAt(text, k)
    ensures SplitCrlf(text) == [text]
  {
    if text != "" {
      forall k: nat ensures !CrlfAt(text[1..], k) {
        assert !CrlfAt(text, k + 1);
      }
      SplitOnlyAtCrlf(text[1..]);
      SplitBehind(text);
    }
  }
}
