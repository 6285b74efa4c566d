/** The event log: time-window listing, lookup by id, and the XML text of a record. */
module EventLog {
  import opened Prelude
  import opened BigEndian
  import opened TextNumbers

  /** Text whose characters are bytes, as in a `std::string`. */
  predicate Narrow(s: string) {
    forall i :: 0 <= i < |s| ==> s[i] as int < 256
  }

  type Text = s: string | Narrow(s)

  datatype EventSeverity = Info | Warning | Error

  datatype EventRecord = EventRecord(
    eventId: u32, severity: EventSeverity, timestampEpoch: u32, timestampText: Text, summary: Text)

  function SeverityText(severity: EventSeverity): string {
    match severity
    case Info => "info"
    case Warning => "warning"
    case Error => "error"
  }

  // ---- Listing ----

  predicate InWindow(event: EventRecord, start: u32, stop: u32) {
    start <= event.timestampEpoch <= stop
  }

  /** The records stamped within a window, both ends included, in log order. */
  function Window(events: seq<EventRecord>, start: u32, stop: u32): seq<EventRecord> {
    if events == [] then []
    else
      var last := |events| - 1;
      Window(events[..last], start, stop) + if InWindow(events[last], start, stop) then [events[last]] else []
  }

  function EventIds(events: seq<EventRecord>): seq<u32> {
    seq(|events|, i requires 0 <= i < |events| => events[i].eventId)
  }

  method ListEventIds(events: seq<EventRecord>, start: u32, stop: u32) returns (ids: seq<u32>)
    ensures ids == EventIds(Window(events, start, stop))
  {
    ids := [];
    for i := 0 to |events|
      invariant ids == EventIds(Window(events[..i], start, stop))
    {
      assert events[..i + 1][..i] == events[..i];
      if events[i].timestampEpoch >= start && events[i].timestampEpoch <= stop {
        ids := ids + [events[i].eventId];
      }
    }
    assert events[..|events|] == events;
  }

  lemma {:induction false} WindowContents(events: seq<EventRecord>, start: u32, stop: u32)
    ensures forall e :: e in Window(events, start, stop) <==> e in events && start <= e.timestampEpoch <= stop
  {
    if events != [] {
      var last := |events| - 1;
      WindowContents(events[..last], start, stop);
      assert events == events[..last] + [events[last]];
    }
  }

  lemma {:induction false} IdsInOrder(a: seq<EventRecord>, b: seq<EventRecord>)
    ensures EventIds(a + b) == EventIds(a) + EventIds(b)
  {
  }

  /** Filtering goes through the log left to right: a window of two logs in a row is the
      window of the first followed by the window of the second. */
  lemma {:induction false} WindowInOrder(early: seq<EventRecord>, late: seq<EventRecord>, start: u32, stop: u32)
    ensures Window(early + late, start, stop) == Window(early, start, stop) + Window(late, start, stop)
    ensures EventIds(Window(early + late, start, stop))
         == EventIds(Window(early, start, stop)) + EventIds(Window(late, start, stop))
  {
    IdsInOrder(Window(early, start, stop), Window(late, start, stop));
    hide EventIds;
    if late == [] {
      assert early + late == early;
    } else {
      var last := |late| - 1;
      WindowInOrder(early, late[..last], start, stop);
      assert (early + late)[..|early + late| - 1] == early + late[..last];
    }
  }

  /** Splitting a window at any second loses no id and repeats none. */
  lemma {:induction false} WindowConserves(events: seq<EventRecord>, a: u32, b: u32, c: u32)
    requires a <= b < c
    ensures multiset(EventIds(Window(events, a, c)))
         == multiset(EventIds(Window(events, a, b))) + multiset(EventIds(Window(events, b + 1, c)))
  {
    if events != [] {
      var last := |events| - 1;
      var e := events[last];
      WindowConserves(events[..last], a, b, c);
      LastId(events, a, c);
      LastId(events, a, b);
      LastId(events, b + 1, c);
    }
  }

  lemma {:induction false} LastId(events: seq<EventRecord>, start: u32, stop: u32)
    requires events != []
    ensures EventIds(Window(events, start, stop))
         == EventIds(Window(events[..|events| - 1], start, stop))
            + if InWindow(events[|events| - 1], start, stop) then [events[|events| - 1].eventId] else []
  {
  }

  predicate NoRepeats(ids: seq<u32>) {
    forall i, j :: 0 <= i < j < |ids| ==> ids[i] != ids[j]
  }

  lemma {:induction false} WindowNoRepeats(events: seq<EventRecord>, start: u32, stop: u32)
    requires NoRepeats(EventIds(events))
    ensures NoRepeats(EventIds(Window(events, start, stop)))
  {
    if events != [] {
      var last := |events| - 1;
      var before := events[..last];
      assert forall i :: 0 <= i < last ==> EventIds(before)[i] == EventIds(events)[i];
      WindowNoRepeats(before, start, stop);
      LastId(events, start, stop);
      WindowContents(before, start, stop);
      var kept := Window(before, start, stop);
      forall i | 0 <= i < |kept|
        ensures EventIds(kept)[i] != events[last].eventId
      {
        assert kept[i] in kept;
        var j :| 0 <= j < last && before[j] == kept[i];
        assert EventIds(events)[j] != EventIds(events)[last];
      }
    }
  }

  lemma {:induction false} WholeWindow(events: seq<EventRecord>)
    ensures Window(events, 0, 0xffff_ffff) == events
  {
    if events != [] {
      var last := |events| - 1;
      WholeWindow(events[..last]);
      assert InWindow(events[last], 0, 0xffff_ffff);
      hide InWindow;
      assert events == events[..last] + [events[last]];
    }
  }

  /** Every listing has one entry per id (section 7.3) if and only if the log repeats no id. */
  lemma {:induction false} NoRepeatsIff(events: seq<EventRecord>)
    ensures (forall start: u32, stop: u32 :: NoRepeats(EventIds(Window(events, start, stop))))
       <==> NoRepeats(EventIds(events))
  {
    if NoRepeats(EventIds(events)) {
      forall start: u32, stop: u32
        ensures NoRepeats(EventIds(Window(events, start, stop)))
      {
        WindowNoRepeats(events, start, stop);
      }
    } else {
      WholeWindow(events);
      assert !NoRepeats(EventIds(Window(events, 0, 0xffff_ffff)));
    }
  }

  // ---- The XML text of a record ----

  function EscapeChar(c: char): string {
    match c
    case '&' => "&amp;"
    case '<' => "&lt;"
    case '>' => "&gt;"
    case '"' => "&quot;"
    case '\'' => "&apos;"
    case _ => [c]
  }

  function Escape(s: string): string {
    if s == "" then "" else EscapeChar(s[0]) + Escape(s[1..])
  }

  method EscapeXml(s: string) returns (out: string)
    ensures out == Escape(s)
  {
    out := "";
    for i := 0 to |s|
      invariant out + Escape(s[i..]) == Escape(s)
    {
      assert s[i..][1..] == s[i + 1..];
      assert out + Escape(s[i..]) == (out + EscapeChar(s[i])) + Escape(s[i + 1..]);
      match s[i] {
        case '&' => out := out + "&amp;";
        case '<' => out := out + "&lt;";
        case '>' => out := out + "&gt;";
        case '"' => out := out + "&quot;";
        case '\'' => out := out + "&apos;";
        case _ => out := out + [s[i]];
      }
    }
    assert s[|s|..] == "";
  }

  /** The character an escaped text begins with, and what is left of the text. */
  function UnescapeFirst(s: string): (char, string)
    requires s != ""
  {
    if "&amp;" <= s then ('&', s[5..])
    else if "&lt;" <= s then ('<', s[4..])
    else if "&gt;" <= s then ('>', s[4..])
    else if "&quot;" <= s then ('"', s[6..])
    else if "&apos;" <= s then ('\'', s[6..])
    else (s[0], s[1..])
  }

  function Unescape(s: string): string
    decreases |s|
  {
    if s == "" then "" else [UnescapeFirst(s).0] + Unescape(UnescapeFirst(s).1)
  }

  lemma {:induction false} UnescapeOne(c: char, rest: string)
    ensures UnescapeFirst(EscapeChar(c) + rest) == (c, rest)
  {
    var s := EscapeChar(c) + rest;
    assert s[|EscapeChar(c)|..] == rest;
    assert s[0] == if c in "&<>\"'" then '&' else c;
    if c == '&' {
      assert s[..5] == "&amp;";
    } else if c == '<' {
      assert s[..4] == "&lt;" && s[1] == 'l';
    } else if c == '>' {
      assert s[..4] == "&gt;" && s[1] == 'g';
    } else if c == '"' {
      assert s[..6] == "&quot;" && s[1] == 'q';
    } else if c == '\'' {
      assert s[..6] == "&apos;" && s[1] == 'a' && s[2] == 'p';
    }
  }

  /** Unescaping undoes escaping on every text. */
  lemma {:induction false} UnescapeEscape(s: string)
    ensures Unescape(Escape(s)) == s
  {
    if s != "" {
      UnescapeOne(s[0], Escape(s[1..]));
      UnescapeEscape(s[1..]);
      assert s == [s[0]] + s[1..];
    }
  }

  /** Characters that would end a field or open a tag. */
  predicate Plain(s: string) {
    forall i :: 0 <= i < |s| ==> s[i] != '<' && s[i] != '>' && s[i] != '"' && s[i] != '\''
  }

  lemma {:induction false} EscapedIsPlain(s: string)
    ensures Plain(Escape(s))
    ensures Narrow(s) ==> Narrow(Escape(s))
  {
    if s != "" {
      EscapedIsPlain(s[1..]);
      assert Plain(EscapeChar(s[0]));
      assert s[0] as int < 256 ==> Narrow(EscapeChar(s[0]));
      assert Narrow(s) ==> Narrow(s[1..]);
    }
  }

  /** Text is escaped character by character, in order. */
  lemma {:induction false} EscapeInOrder(a: string, b: string)
    ensures Escape(a + b) == Escape(a) + Escape(b)
  {
    hide EscapeChar;
    if a == "" {
      assert a + b == b;
    } else {
      EscapeInOrder(a[1..], b);
      assert (a + b)[0] == a[0] && (a + b)[1..] == a[1..] + b;
      Regroup(EscapeChar(a[0]), Escape(a[1..]), Escape(b));
    }
  }

  lemma {:induction false} EscapeTable(c: char)
    ensures Escape("&") == "&amp;" && Escape("<") == "&lt;" && Escape(">") == "&gt;"
    ensures Escape("\"") == "&quot;" && Escape("'") == "&apos;"
    ensures c !in "&<>\"'" ==> Escape([c]) == [c]
  {
    assert Escape("") == "";
    assert [c][1..] == "" && "&"[1..] == "" && "<"[1..] == "" && ">"[1..] == "" && "\""[1..] == "" && "'"[1..] == "";
  }

  /** Text without any of the five characters is left as it is. */
  lemma {:induction false} EscapeLeaves(s: string)
    requires forall i :: 0 <= i < |s| ==> s[i] !in "&<>\"'"
    ensures Escape(s) == s
  {
    if s != "" {
      EscapeLeaves(s[1..]);
      assert s == [s[0]] + s[1..];
    }
  }

  function RenderXml(event: EventRecord): string {
    "<LogRecord>"
    + "<EventID>" + Decimal(event.eventId) + "</EventID>"
    + "<Timestamp>" + Escape(event.timestampText) + "</Timestamp>"
    + "<Severity>" + Escape(SeverityText(event.severity)) + "</Severity>"
    + "<Summary>" + Escape(event.summary) + "</Summary>"
    + "</LogRecord>"
  }

  /** An XML element. */
  function Element(name: string, content: string): string {
    "<" + name + ">" + content + "</" + name + ">"
  }

  lemma {:induction false} Tagged(name: string, open: string, content: string, close: string)
    requires open == "<" + name + ">" && close == "</" + name + ">"
    ensures Element(name, content) == open + content + close
  {
    Regroup(open + content, "</" + name, ">");
    Regroup(open + content, "</", name);
  }

  lemma {:induction false} TagNames()
    ensures "<LogRecord>" == "<" + "LogRecord" + ">" && "</LogRecord>" == "</" + "LogRecord" + ">"
    ensures "<EventID>" == "<" + "EventID" + ">" && "</EventID>" == "</" + "EventID" + ">"
    ensures "<Timestamp>" == "<" + "Timestamp" + ">" && "</Timestamp>" == "</" + "Timestamp" + ">"
    ensures "<Severity>" == "<" + "Severity" + ">" && "</Severity>" == "</" + "Severity" + ">"
    ensures "<Summary>" == "<" + "Summary" + ">" && "</Summary>" == "</" + "Summary" + ">"
  {
  }

  lemma {:induction false} SeverityEscaped(severity: EventSeverity)
    ensures Escape(SeverityText(severity))
         == match severity case Info => "info" case Warning => "warning" case Error => "error"
  {
    EscapeLeaves(SeverityText(severity));
  }

  lemma {:induction false} Flatten(a: string, b: string, id: string, c: string, d: string, stamp: string, e: string,
                                  f: string, severity: string, g: string, h: string, summary: string, i: string, z: string)
    ensures a + b + id + c + d + stamp + e + f + severity + g + h + summary + i + z
         == a + ((b + id + c) + (d + stamp + e) + (f + severity + g) + (h + summary + i)) + z
  {
  }

  /** The text of a record is one element that holds the four fields as elements, in this order. */
  lemma {:induction false} RenderedDocument(e: EventRecord)
    ensures RenderXml(e)
         == Element("LogRecord",
                    Element("EventID", Decimal(e.eventId))
                    + Element("Timestamp", Escape(e.timestampText))
                    + Element("Severity",
                              match e.severity case Info => "info" case Warning => "warning" case Error => "error")
                    + Element("Summary", Escape(e.summary)))
  {
    var id, stamp, summary := Decimal(e.eventId), Escape(e.timestampText), Escape(e.summary);
    var severity := Escape(SeverityText(e.severity));
    SeverityEscaped(e.severity);
    TagNames();
    Tagged("EventID", "<EventID>", id, "</EventID>");
    Tagged("Timestamp", "<Timestamp>", stamp, "</Timestamp>");
    Tagged("Severity", "<Severity>", severity, "</Severity>");
    Tagged("Summary", "<Summary>", summary, "</Summary>");
    hide Element, Escape, Decimal, SeverityText;
    var fields := Element("EventID", id) + Element("Timestamp", stamp)
                  + Element("Severity", severity) + Element("Summary", summary);
    Tagged("LogRecord", "<LogRecord>", fields, "</LogRecord>");
    Flatten("<LogRecord>", "<EventID>", id, "</EventID>", "<Timestamp>", stamp, "</Timestamp>", "<Severity>", severity,
            "</Severity>", "<Summary>", summary, "</Summary>", "</LogRecord>");
  }

  /** Two texts split at their first `<`. */
  lemma {:induction false} SplitAtTag(a: string, restA: string, b: string, restB: string)
    requires Plain(a) && Plain(b)
    requires a + ("<" + restA) == b + ("<" + restB)
    ensures a == b && restA == restB
  {
    var s := a + ("<" + restA);
    assert s[|a|] == '<' && s[|b|] == '<';
    assert forall i :: 0 <= i < |a| ==> s[i] == a[i];
    assert forall i :: 0 <= i < |b| ==> s[i] == b[i];
    assert |a| == |b|;
    assert s[..|a|] == a && s[..|b|] == b;
    assert s[|a| + 1..] == restA && s[|b| + 1..] == restB;
  }

  lemma {:induction false} DropPrefix(prefix: string, a: string, b: string)
    requires prefix + a == prefix + b
    ensures a == b
  {
    assert (prefix + a)[|prefix|..] == a && (prefix + b)[|prefix|..] == b;
  }

  /** The document from a field on: each field runs to the next `<`. */
  function FromSummary(event: EventRecord): string {
    Escape(event.summary) + ("<" + "/Summary></LogRecord>")
  }

  function FromSeverity(event: EventRecord): string {
    Escape(SeverityText(event.severity)) + ("<" + ("/Severity><Summary>" + FromSummary(event)))
  }

  function FromTimestamp(event: EventRecord): string {
    Escape(event.timestampText) + ("<" + ("/Timestamp><Severity>" + FromSeverity(event)))
  }

  function FromId(event: EventRecord): string {
    Decimal(event.eventId) + ("<" + ("/EventID><Timestamp>" + FromTimestamp(event)))
  }

  /** One field closed and the next one opened, with the bracket of the closing tag set apart. */
  lemma {:induction false} CloseAndOpen(before: string, close: string, open: string, tag: string, rest: string)
    requires close + open == "<" + tag
    ensures before + close + open + rest == before + ("<" + (tag + rest))
  {
    Regroup(before, close, open);
    Regroup(before, close + open, rest);
    Regroup("<", tag, rest);
  }

  lemma {:induction false} SummaryField(event: EventRecord)
    ensures Escape(event.summary) + "</Summary>" + "</LogRecord>" == FromSummary(event)
  {
    CloseAndOpen(Escape(event.summary), "</Summary>", "</LogRecord>", "/Summary></LogRecord>", "");
    assert "/Summary></LogRecord>" + "" == "/Summary></LogRecord>";
  }

  lemma {:induction false} SeverityField(event: EventRecord)
    ensures Escape(SeverityText(event.severity)) + "</Severity>" + "<Summary>" + FromSummary(event) == FromSeverity(event)
  {
    CloseAndOpen(Escape(SeverityText(event.severity)), "</Severity>", "<Summary>", "/Severity><Summary>",
                 FromSummary(event));
  }

  lemma {:induction false} TimestampField(event: EventRecord)
    ensures Escape(event.timestampText) + "</Timestamp>" + "<Severity>" + FromSeverity(event) == FromTimestamp(event)
  {
    CloseAndOpen(Escape(event.timestampText), "</Timestamp>", "<Severity>", "/Timestamp><Severity>", FromSeverity(event));
  }

  lemma {:induction false} IdField(event: EventRecord)
    ensures Decimal(event.eventId) + "</EventID>" + "<Timestamp>" + FromTimestamp(event) == FromId(event)
  {
    CloseAndOpen(Decimal(event.eventId), "</EventID>", "<Timestamp>", "/EventID><Timestamp>", FromTimestamp(event));
  }

  lemma {:induction false} RenderedFields(event: EventRecord)
    ensures RenderXml(event) == "<LogRecord>" + "<EventID>" + FromId(event)
  {
    SummaryField(event);
    SeverityField(event);
    TimestampField(event);
    IdField(event);
    Stitch("<LogRecord>" + "<EventID>", Decimal(event.eventId), "</EventID>", "<Timestamp>",
           Escape(event.timestampText), "</Timestamp>", "<Severity>",
           Escape(SeverityText(event.severity)), "</Severity>", "<Summary>",
           Escape(event.summary), "</Summary>", "</LogRecord>");
  }

  lemma {:induction false} Stitch(a: string, id: string, b1: string, b2: string, stamp: string, c1: string, c2: string,
                                 severity: string, d1: string, d2: string, summary: string, e1: string, e2: string)
    ensures a + id + b1 + b2 + stamp + c1 + c2 + severity + d1 + d2 + summary + e1 + e2
         == a + (id + b1 + b2 + (stamp + c1 + c2 + (severity + d1 + d2 + (summary + e1 + e2))))
  {
  }

  lemma {:induction false} EscapeInjective(a: string, b: string)
    requires Escape(a) == Escape(b)
    ensures a == b
  {
    UnescapeEscape(a);
    UnescapeEscape(b);
  }

  lemma {:induction false} DecimalIsPlain(n: nat)
    ensures Plain(Decimal(n)) && Narrow(Decimal(n))
  {
  }

  /** Two records with the same XML text agree in every field that is rendered. */
  lemma {:induction false} RenderInjective(e: EventRecord, f: EventRecord)
    requires RenderXml(e) == RenderXml(f)
    ensures e.eventId == f.eventId && e.timestampText == f.timestampText
    ensures e.severity == f.severity && e.summary == f.summary
  {
    RenderedFields(e);
    RenderedFields(f);
    DropPrefix("<LogRecord>" + "<EventID>", FromId(e), FromId(f));
    DecimalIsPlain(e.eventId);
    DecimalIsPlain(f.eventId);
    SplitAtTag(Decimal(e.eventId), "/EventID><Timestamp>" + FromTimestamp(e),
               Decimal(f.eventId), "/EventID><Timestamp>" + FromTimestamp(f));
    DecimalRoundTrip(e.eventId);
    DecimalRoundTrip(f.eventId);
    DropPrefix("/EventID><Timestamp>", FromTimestamp(e), FromTimestamp(f));
    LaterFieldsInjective(e, f);
  }

  lemma {:induction false} LaterFieldsInjective(e: EventRecord, f: EventRecord)
    requires FromTimestamp(e) == FromTimestamp(f)
    ensures e.timestampText == f.timestampText && e.severity == f.severity && e.summary == f.summary
  {
    EscapedIsPlain(e.timestampText);
    EscapedIsPlain(f.timestampText);
    SplitAtTag(Escape(e.timestampText), "/Timestamp><Severity>" + FromSeverity(e),
               Escape(f.timestampText), "/Timestamp><Severity>" + FromSeverity(f));
    EscapeInjective(e.timestampText, f.timestampText);
    DropPrefix("/Timestamp><Severity>", FromSeverity(e), FromSeverity(f));
    var s, t := SeverityText(e.severity), SeverityText(f.severity);
    EscapedIsPlain(s);
    EscapedIsPlain(t);
    SplitAtTag(Escape(s), "/Severity><Summary>" + FromSummary(e), Escape(t), "/Severity><Summary>" + FromSummary(f));
    EscapeInjective(s, t);
    assert s[0] == t[0];
    DropPrefix("/Severity><Summary>", FromSummary(e), FromSummary(f));
    EscapedIsPlain(e.summary);
    EscapedIsPlain(f.summary);
    SplitAtTag(Escape(e.summary), "/Summary></LogRecord>", Escape(f.summary), "/Summary></LogRecord>");
    EscapeInjective(e.summary, f.summary);
  }

  // ---- Lookup by id ----

  /** The rendering of the first record with an id. */
  function XmlOf(events: seq<EventRecord>, id: u32): Option<string> {
    if events == [] then None
    else if events[0].eventId == id then Some(RenderXml(events[0]))
    else XmlOf(events[1..], id)
  }

  method GetEventXml(events: seq<EventRecord>, id: u32) returns (xml: Option<string>)
    ensures xml == XmlOf(events, id)
  {
    for i := 0 to |events|
      invariant XmlOf(events, id) == XmlOf(events[i..], id)
    {
      assert events[i..][1..] == events[i + 1..];
      if events[i].eventId == id {
        return Some(RenderXml(events[i]));
      }
    }
    xml := None;
  }

  lemma {:induction false} XmlOfIsFirst(events: seq<EventRecord>, id: u32)
    ensures XmlOf(events, id).Some? <==> id in EventIds(events)
    ensures XmlOf(events, id).Some? ==>
            exists i :: 0 <= i < |events| && events[i].eventId == id && XmlOf(events, id) == Some(RenderXml(events[i]))
                        && forall j :: 0 <= j < i ==> events[j].eventId != id
  {
    hide RenderXml;
    if events != [] {
      assert EventIds(events) == [events[0].eventId] + EventIds(events[1..]);
      hide EventIds;
      if events[0].eventId == id {
        assert XmlOf(events, id) == Some(RenderXml(events[0]));
      } else {
        XmlOfIsFirst(events[1..], id);
        if XmlOf(events[1..], id).Some? {
          var i :| 0 <= i < |events[1..]| && events[1..][i].eventId == id
                   && XmlOf(events[1..], id) == Some(RenderXml(events[1..][i]))
                   && forall j :: 0 <= j < i ==> events[1..][j].eventId != id;
          assert forall j :: 1 <= j < i + 1 ==> events[j] == events[1..][j - 1];
          assert events[i + 1].eventId == id;
        }
      }
    }
  }

  /** What is found under a logged record's id is the text of some record with that id. */
  lemma {:induction false} FirstWithSameId(events: seq<EventRecord>, e: EventRecord) returns (f: EventRecord)
    requires e in events
    ensures f in events && f.eventId == e.eventId && XmlOf(events, e.eventId) == Some(RenderXml(f))
  {
    var k :| 0 <= k < |events| && events[k] == e;
    assert EventIds(events)[k] == e.eventId;
    XmlOfIsFirst(events, e.eventId);
    var i :| 0 <= i < |events| && events[i].eventId == e.eventId && XmlOf(events, e.eventId) == Some(RenderXml(events[i]));
    f := events[i];
  }

  predicate SameText(e: EventRecord, f: EventRecord) {
    RenderXml(e) == RenderXml(f)
  }

  predicate FoundAs(events: seq<EventRecord>, e: EventRecord) {
    XmlOf(events, e.eventId) == Some(RenderXml(e))
  }

  lemma {:induction false} FoundIffSameText(events: seq<EventRecord>, e: EventRecord) returns (f: EventRecord)
    requires e in events
    ensures f in events && f.eventId == e.eventId && (FoundAs(events, e) <==> SameText(f, e))
  {
    f := FirstWithSameId(events, e);
  }

  /** Asking for any logged record by its id yields that record's text if and only if records
      that share an id also share their text. */
  lemma {:induction false} LookupFaithfulIff(events: seq<EventRecord>)
    ensures (forall e :: e in events ==> FoundAs(events, e))
       <==> (forall e, f :: e in events && f in events && e.eventId == f.eventId ==> SameText(e, f))
  {
    if forall e :: e in events ==> FoundAs(events, e) {
      forall e, f | e in events && f in events && e.eventId == f.eventId
        ensures SameText(e, f)
      {
        assert FoundAs(events, e) && FoundAs(events, f);
      }
    } else {
      var e :| e in events && !FoundAs(events, e);
      var f := FoundIffSameText(events, e);
      assert !SameText(f, e);
    }
  }

  // ---- Text on the wire ----

  function TextBytes(s: Text): bytes {
    seq(|s|, i requires 0 <= i < |s| => s[i] as int)
  }

  function BytesText(b: bytes): Text {
    seq(|b|, i requires 0 <= i < |b| => b[i] as char)
  }

  lemma {:induction false} TextRoundTrip(s: Text)
    ensures BytesText(TextBytes(s)) == s
  {
  }

  lemma {:induction false} NarrowConcat(a: string, b: string)
    requires Narrow(a) && Narrow(b)
    ensures Narrow(a + b)
  {
  }

  lemma {:induction false} NarrowField(field: string, tag: string, rest: string)
    requires Narrow(field) && Narrow(tag) && Narrow(rest)
    ensures Narrow(field + ("<" + (tag + rest)))
  {
    NarrowConcat(tag, rest);
    NarrowConcat("<", tag + rest);
    NarrowConcat(field, "<" + (tag + rest));
  }

  lemma {:induction false} SummaryIsText(event: EventRecord)
    ensures Narrow(FromSummary(event))
  {
    EscapedIsPlain(event.summary);
    NarrowConcat("<", "/Summary></LogRecord>");
    NarrowConcat(Escape(event.summary), "<" + "/Summary></LogRecord>");
  }

  lemma {:induction false} SeverityIsText(event: EventRecord)
    ensures Narrow(FromSeverity(event))
  {
    SummaryIsText(event);
    EscapedIsPlain(SeverityText(event.severity));
    NarrowField(Escape(SeverityText(event.severity)), "/Severity><Summary>", FromSummary(event));
  }

  lemma {:induction false} TimestampIsText(event: EventRecord)
    ensures Narrow(FromTimestamp(event))
  {
    SeverityIsText(event);
    EscapedIsPlain(event.timestampText);
    NarrowField(Escape(event.timestampText), "/Timestamp><Severity>", FromSeverity(event));
  }

  lemma {:induction false} IdIsText(event: EventRecord)
    ensures Narrow(FromId(event))
  {
    TimestampIsText(event);
    DecimalIsPlain(event.eventId);
    NarrowField(Decimal(event.eventId), "/EventID><Timestamp>", FromTimestamp(event));
  }

  lemma {:induction false} RenderedIsText(event: EventRecord)
    ensures Narrow(RenderXml(event))
  {
    IdIsText(event);
    RenderedFields(event);
    NarrowConcat("<LogRecord>", "<EventID>");
    NarrowConcat("<LogRecord>" + "<EventID>", FromId(event));
  }

  lemma {:induction false} XmlOfIsText(events: seq<EventRecord>, id: u32)
    ensures XmlOf(events, id).Some? ==> Narrow(XmlOf(events, id).value)
  {
    XmlOfIsFirst(events, id);
    forall e: EventRecord
      ensures Narrow(RenderXml(e))
    {
      RenderedIsText(e);
    }
  }

  // ---- Request payloads ----

  function ParseListRequest(b: bytes): Result<(u32, u32)> {
    if |b| != 8 then Err("GetEventList request payload must be 8 bytes")
    else Ok((ReadU32(b, 0).value, ReadU32(b, 4).value))
  }

  function ListRequest(start: u32, stop: u32): bytes {
    ToBe(start, 4) + ToBe(stop, 4)
  }

  function ParseIdRequest(b: bytes): Result<u32> {
    if |b| != 4 then Err("GetEventID request payload must be 4 bytes")
    else Ok(ReadU32(b, 0).value)
  }

  lemma {:induction false} ListRequestRoundTrip(start: u32, stop: u32)
    ensures ParseListRequest(ListRequest(start, stop)) == Ok((start, stop))
  {
    ReadBackU32([], start, ToBe(stop, 4));
    assert ListRequest(start, stop) == [] + ToBe(start, 4) + ToBe(stop, 4);
    ReadBackU32(ToBe(start, 4), stop, []);
    assert ListRequest(start, stop) == ToBe(start, 4) + ToBe(stop, 4) + [];
  }
}
