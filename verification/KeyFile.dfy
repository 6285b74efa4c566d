/** The text of the key file: one JSON object per record, printed and parsed back. */
module KeyFile {
  import opened Prelude
  import opened KeyRecords
  import opened TextNumbers
  import opened LinePattern

  // ---- Printing ----

  function PrintRecord(key: LeKeyRecord): string {
    ("{\"key_id\":" + Decimal(key.keyId))
    + (",\"key\":\"" + Hex(key.key))
    + ("\",\"expire_time\":" + Decimal(key.expireTime))
    + (",\"attribute_data\":" + Decimal(key.attributeData) + "}")
  }

  function PrintFile(keys: seq<LeKeyRecord>): string {
    if keys == [] then "" else PrintRecord(keys[0]) + "\n" + PrintFile(keys[1..])
  }

  // ---- The line pattern ----

  function Comma(next: Pattern): Pattern {
    Space(Literal(",", next))
  }

  function Field(name: string, value: Pattern): Pattern {
    Space(Literal(name, Space(Literal(":", Space(value)))))
  }

  const CLOSE: Pattern := Space(Literal("}", Space(End)))
  const ATTRIBUTE: Pattern := Field("\"attribute_data\"", Digits(CLOSE))
  const EXPIRE: Pattern := Field("\"expire_time\"", Digits(Comma(ATTRIBUTE)))
  const KEY: Pattern := Field("\"key\"", Literal("\"", HexRun(32, Literal("\"", Comma(EXPIRE)))))
  const LINE: Pattern := Space(Literal("{", Field("\"key_id\"", Digits(Comma(KEY)))))

  lemma {:induction false} LiteralOneWay(text: string, next: Pattern)
    requires text != "" && !IsSpace(text[0]) && OneWay(next)
    ensures OneWay(Literal(text, next)) && OneWay(Space(Literal(text, next)))
    ensures forall c :: CanStart(Space(Literal(text, next)), c) ==> IsSpace(c) || c == text[0]
  {
    var literal := Literal(text, next);
    forall c | CanStart(literal, c)
      ensures c == text[0]
    {
    }
    assert OneWay(literal);
  }

  lemma {:induction false} FieldOneWay(name: string, value: Pattern)
    requires name != "" && name[0] == '"'
    requires OneWay(value) && forall c :: CanStart(value, c) ==> !IsSpace(c)
    ensures OneWay(Field(name, value))
    ensures forall c :: CanStart(Field(name, value), c) ==> IsSpace(c) || c == '"'
  {
    assert OneWay(Space(value));
    LiteralOneWay(":", Space(value));
    LiteralOneWay(name, Space(Literal(":", Space(value))));
  }

  lemma {:induction false} CommaOneWay(next: Pattern)
    requires OneWay(next)
    ensures OneWay(Digits(Comma(next))) && OneWay(Comma(next))
  {
    LiteralOneWay(",", next);
  }

  lemma {:induction false} ExpireOneWay()
    ensures OneWay(EXPIRE)
  {
    assert OneWay(CLOSE) && OneWay(Digits(CLOSE));
    FieldOneWay("\"attribute_data\"", Digits(CLOSE));
    CommaOneWay(ATTRIBUTE);
    FieldOneWay("\"expire_time\"", Digits(Comma(ATTRIBUTE)));
  }

  /** Nothing that a repetition of the line pattern can take can also come after it. */
  lemma {:induction false} LineOneWay()
    ensures OneWay(LINE)
  {
    ExpireOneWay();
    CommaOneWay(EXPIRE);
    var quoted := Literal("\"", HexRun(32, Literal("\"", Comma(EXPIRE))));
    assert OneWay(quoted);
    FieldOneWay("\"key\"", quoted);
    CommaOneWay(KEY);
    FieldOneWay("\"key_id\"", Digits(Comma(KEY)));
  }

  lemma {:induction false} FitsField(name: string, value: Pattern, captures: seq<string>)
    ensures Fits(Field(name, value), captures) == Fits(value, captures)
  {
    var colon := Literal(":", Space(value));
    assert Fits(colon, captures) == Fits(Space(value), captures) == Fits(value, captures);
    assert Fits(Field(name, value), captures) == Fits(Literal(name, Space(colon)), captures)
        == Fits(Space(colon), captures) == Fits(colon, captures);
  }

  lemma {:induction false} FitsComma(next: Pattern, captures: seq<string>)
    ensures Fits(Comma(next), captures) == Fits(next, captures)
  {
    assert Fits(Comma(next), captures) == Fits(Literal(",", next), captures);
  }

  lemma {:induction false} FitsNumber(name: string, next: Pattern, captures: seq<string>)
    ensures Fits(Field(name, Digits(next)), captures)
       <==> captures != [] && captures[0] != "" && AllDigits(captures[0]) && Fits(next, captures[1..])
  {
    FitsField(name, Digits(next), captures);
  }

  lemma {:induction false} FitsKey(captures: seq<string>)
    ensures Fits(KEY, captures)
       <==> captures != [] && AllHex(captures[0]) && |captures[0]| == 32 && Fits(EXPIRE, captures[1..])
  {
    var after := Literal("\"", Comma(EXPIRE));
    var quoted := Literal("\"", HexRun(32, after));
    FitsField("\"key\"", quoted, captures);
    assert Fits(quoted, captures) == Fits(HexRun(32, after), captures);
    if captures != [] {
      assert Fits(after, captures[1..]) == Fits(Comma(EXPIRE), captures[1..]);
      FitsComma(EXPIRE, captures[1..]);
    }
  }

  lemma {:induction false} FitsAttribute(captures: seq<string>)
    ensures Fits(ATTRIBUTE, captures) <==> |captures| == 1 && captures[0] != "" && AllDigits(captures[0])
  {
    FitsNumber("\"attribute_data\"", CLOSE, captures);
    if captures != [] {
      var none := captures[1..];
      assert Fits(CLOSE, none) == Fits(Literal("}", Space(End)), none) == Fits(Space(End), none) == Fits(End, none);
    }
  }

  lemma {:induction false} FitsExpire(captures: seq<string>)
    ensures Fits(EXPIRE, captures)
       <==> |captures| == 2 && captures[0] != "" && AllDigits(captures[0]) && captures[1] != "" && AllDigits(captures[1])
  {
    FitsNumber("\"expire_time\"", Comma(ATTRIBUTE), captures);
    if captures != [] {
      FitsComma(ATTRIBUTE, captures[1..]);
      FitsAttribute(captures[1..]);
    }
  }

  /** Captures fit the line pattern if they are an id, a key, an expiry and an attribute. */
  predicate IsRecordText(c: seq<string>) {
    && |c| == 4 && AllDigits(c[0]) && AllHex(c[1]) && AllDigits(c[2]) && AllDigits(c[3])
    && c[0] != "" && |c[1]| == 32 && c[2] != "" && c[3] != ""
  }

  lemma {:induction false} LineCaptures(captures: seq<string>)
    ensures Fits(LINE, captures) <==> IsRecordText(captures)
  {
    var id := Field("\"key_id\"", Digits(Comma(KEY)));
    assert Fits(LINE, captures) == Fits(Literal("{", id), captures) == Fits(id, captures);
    FitsNumber("\"key_id\"", Comma(KEY), captures);
    if captures != [] {
      FitsComma(KEY, captures[1..]);
      FitsKey(captures[1..]);
      if |captures| > 1 {
        FitsExpire(captures[1..][1..]);
      }
    }
  }

  // ---- Parsing ----

  /** The record of four captures: numbers are read as 64 bits, id and expiry then truncated. */
  function RecordOf(c: seq<string>): Result<LeKeyRecord>
    requires IsRecordText(c)
  {
    var keyId :- StoU64("stoul", c[0]);
    var key :- HexToKey(c[1]);
    var expireTime :- StoU64("stoul", c[2]);
    var attributeData :- StoU64("stoull", c[3]);
    Ok(LeKeyRecord(TruncateU32(keyId), key, TruncateU32(expireTime), attributeData))
  }

  function ParseLine(line: string): Result<LeKeyRecord> {
    match Scan(LINE, line)
    case None => Err("invalid LEKey JSONL line format")
    case Some(captures) =>
      ScanFits(LINE, line);
      LineCaptures(captures);
      RecordOf(captures)
  }

  function LineEnd(text: string): (n: nat)
    ensures n <= |text| && (forall i :: 0 <= i < n ==> text[i] != '\n') && (n < |text| ==> text[n] == '\n')
  {
    if text == "" || text[0] == '\n' then 0 else 1 + LineEnd(text[1..])
  }

  /** The lines `std::getline` delivers, the newline being optional after the last one. */
  function Lines(text: string): seq<string>
    decreases |text|
  {
    if text == "" then []
    else
      var n := LineEnd(text);
      [text[..n]] + if n == |text| then [] else Lines(text[n + 1..])
  }

  function LineError(number: nat, what: string): string {
    "failed to parse LEKey JSONL line " + Decimal(number) + ": " + what
  }

  function Prepend(keys: seq<LeKeyRecord>, rest: Result<seq<LeKeyRecord>>): Result<seq<LeKeyRecord>> {
    match rest
    case Ok(more) => Ok(keys + more)
    case Err(_) => rest
  }

  /** One line put before the outcome of the lines after it; an empty line is skipped. */
  function AddLine(line: string, number: nat, rest: Result<seq<LeKeyRecord>>): Result<seq<LeKeyRecord>> {
    if line == "" then rest
    else
      match ParseLine(line)
      case Err(what) => Err(LineError(number, what))
      case Ok(key) => Prepend([key], rest)
  }

  /** Parse the lines, the first of which has this number. */
  function ParseLines(lines: seq<string>, number: nat): Result<seq<LeKeyRecord>> {
    if lines == [] then Ok([]) else AddLine(lines[0], number, ParseLines(lines[1..], number + 1))
  }

  function ParseFile(text: string): Result<seq<LeKeyRecord>> {
    ParseLines(Lines(text), 1)
  }

  // ---- Parsing what was printed ----

  lemma {:induction false} SpaceFree(next: Pattern, s: string, captures: seq<string>)
    requires Matches(next, s, captures)
    ensures Matches(Space(next), s, captures)
  {
    assert SpacesUpTo(s, 0) && s[0..] == s;
  }

  lemma {:induction false} LiteralMatches(text: string, next: Pattern, s: string, captures: seq<string>)
    requires Matches(next, s, captures)
    ensures Matches(Literal(text, next), text + s, captures)
  {
    assert (text + s)[|text|..] == s;
  }

  lemma {:induction false} FieldMatches(name: string, value: Pattern, s: string, captures: seq<string>)
    requires Matches(value, s, captures)
    ensures Matches(Field(name, value), name + (":" + s), captures)
  {
    SpaceFree(value, s, captures);
    LiteralMatches(":", Space(value), s, captures);
    SpaceFree(Literal(":", Space(value)), ":" + s, captures);
    LiteralMatches(name, Space(Literal(":", Space(value))), ":" + s, captures);
    SpaceFree(Literal(name, Space(Literal(":", Space(value)))), name + (":" + s), captures);
  }

  lemma {:induction false} CommaMatches(next: Pattern, s: string, captures: seq<string>)
    requires Matches(next, s, captures)
    ensures Matches(Comma(next), "," + s, captures)
  {
    LiteralMatches(",", next, s, captures);
    SpaceFree(Literal(",", next), "," + s, captures);
  }

  lemma {:induction false} NumberMatches(n: nat, next: Pattern, s: string, captures: seq<string>)
    requires Matches(next, s, captures)
    ensures Matches(Digits(next), Decimal(n) + s, [Decimal(n)] + captures)
  {
    var text := Decimal(n) + s;
    assert text[..|Decimal(n)|] == Decimal(n) && text[|Decimal(n)|..] == s;
    assert ([Decimal(n)] + captures)[1..] == captures;
  }

  lemma {:induction false} KeyMatches(key: Key16, next: Pattern, s: string, captures: seq<string>)
    requires Matches(next, s, captures)
    ensures Matches(HexRun(32, next), Hex(key) + s, [Hex(key)] + captures)
  {
    var text := Hex(key) + s;
    assert text[..32] == Hex(key) && text[32..] == s;
    assert ([Hex(key)] + captures)[1..] == captures;
  }

  lemma {:induction false} NumberFieldMatches(name: string, n: nat, next: Pattern, s: string, captures: seq<string>)
    requires Matches(next, s, captures)
    ensures Matches(Field(name, Digits(next)), name + (":" + (Decimal(n) + s)), [Decimal(n)] + captures)
  {
    NumberMatches(n, next, s, captures);
    FieldMatches(name, Digits(next), Decimal(n) + s, [Decimal(n)] + captures);
  }

  lemma {:induction false} KeyFieldMatches(key: Key16, s: string, captures: seq<string>)
    requires Matches(EXPIRE, s, captures)
    ensures Matches(KEY, "\"key\"" + (":" + ("\"" + (Hex(key) + ("\"" + ("," + s))))), [Hex(key)] + captures)
  {
    var after := Literal("\"", Comma(EXPIRE));
    CommaMatches(EXPIRE, s, captures);
    LiteralMatches("\"", Comma(EXPIRE), "," + s, captures);
    KeyMatches(key, after, "\"" + ("," + s), captures);
    LiteralMatches("\"", HexRun(32, after), Hex(key) + ("\"" + ("," + s)), [Hex(key)] + captures);
    FieldMatches("\"key\"", Literal("\"", HexRun(32, after)), "\"" + (Hex(key) + ("\"" + ("," + s))), [Hex(key)] + captures);
  }

  /** The printed fields, each with the text that follows it. */
  function CloseText(): string {
    "}" + ""
  }

  function AttributeText(key: LeKeyRecord): string {
    "\"attribute_data\"" + (":" + (Decimal(key.attributeData) + CloseText()))
  }

  function ExpireText(key: LeKeyRecord): string {
    "\"expire_time\"" + (":" + (Decimal(key.expireTime) + ("," + AttributeText(key))))
  }

  function KeyText(key: LeKeyRecord): string {
    "\"key\"" + (":" + ("\"" + (Hex(key.key) + ("\"" + ("," + ExpireText(key))))))
  }

  function LineText(key: LeKeyRecord): string {
    "{" + ("\"key_id\"" + (":" + (Decimal(key.keyId) + ("," + KeyText(key)))))
  }

  lemma {:induction false} AttributePrinted(key: LeKeyRecord)
    ensures "," + AttributeText(key) == ",\"attribute_data\":" + Decimal(key.attributeData) + "}"
  {
  }

  lemma {:induction false} ExpirePrinted(key: LeKeyRecord)
    ensures "\"" + ("," + ExpireText(key))
         == "\",\"expire_time\":" + Decimal(key.expireTime) + ("," + AttributeText(key))
  {
  }

  lemma {:induction false} KeyPrinted(key: LeKeyRecord)
    ensures "," + KeyText(key) == ",\"key\":\"" + Hex(key.key) + ("\"" + ("," + ExpireText(key)))
  {
  }

  lemma {:induction false} IdPrinted(key: LeKeyRecord)
    ensures LineText(key) == "{\"key_id\":" + Decimal(key.keyId) + ("," + KeyText(key))
  {
  }

  lemma {:induction false} Reassociate(a: string, b: string, c: string, d: string)
    ensures a + (b + (c + d)) == a + b + c + d
  {
  }

  lemma {:induction false} LineTextIsPrinted(key: LeKeyRecord)
    ensures LineText(key) == PrintRecord(key)
  {
    AttributePrinted(key);
    ExpirePrinted(key);
    KeyPrinted(key);
    IdPrinted(key);
    Reassociate("{\"key_id\":" + Decimal(key.keyId), ",\"key\":\"" + Hex(key.key),
                "\",\"expire_time\":" + Decimal(key.expireTime), ",\"attribute_data\":" + Decimal(key.attributeData) + "}");
  }

  lemma {:induction false} CloseMatches()
    ensures Matches(CLOSE, CloseText(), [])
  {
    SpaceFree(End, "", []);
    LiteralMatches("}", Space(End), "", []);
    SpaceFree(Literal("}", Space(End)), CloseText(), []);
  }

  lemma {:induction false} AttributeMatches(key: LeKeyRecord)
    ensures Matches(ATTRIBUTE, AttributeText(key), [Decimal(key.attributeData)] + [])
  {
    CloseMatches();
    NumberFieldMatches("\"attribute_data\"", key.attributeData, CLOSE, CloseText(), []);
  }

  lemma {:induction false} ExpireMatches(key: LeKeyRecord)
    ensures Matches(EXPIRE, ExpireText(key), [Decimal(key.expireTime)] + ([Decimal(key.attributeData)] + []))
  {
    var c := [Decimal(key.attributeData)] + [];
    AttributeMatches(key);
    CommaMatches(ATTRIBUTE, AttributeText(key), c);
    NumberFieldMatches("\"expire_time\"", key.expireTime, Comma(ATTRIBUTE), "," + AttributeText(key), c);
  }

  function Captures(key: LeKeyRecord): seq<string> {
    [Decimal(key.keyId)] + ([Hex(key.key)] + ([Decimal(key.expireTime)] + ([Decimal(key.attributeData)] + [])))
  }

  lemma {:induction false} LineMatches(key: LeKeyRecord)
    ensures Matches(LINE, LineText(key), Captures(key))
  {
    var c := Captures(key)[1..];
    ExpireMatches(key);
    KeyFieldMatches(key.key, ExpireText(key), c[1..]);
    CommaMatches(KEY, KeyText(key), c);
    NumberFieldMatches("\"key_id\"", key.keyId, Comma(KEY), "," + KeyText(key), c);
    var id := Field("\"key_id\"", Digits(Comma(KEY)));
    LiteralMatches("{", id, "\"key_id\"" + (":" + (Decimal(key.keyId) + ("," + KeyText(key)))), Captures(key));
    SpaceFree(Literal("{", id), LineText(key), Captures(key));
  }

  lemma {:induction false} PrintedLineScans(key: LeKeyRecord)
    ensures Scan(LINE, PrintRecord(key)) == Some(Captures(key))
  {
    LineMatches(key);
    LineTextIsPrinted(key);
    LineOneWay();
    ScanDecidesMatch(LINE, PrintRecord(key), Captures(key));
  }

  lemma {:induction false} CapturesRoundTrip(c: seq<string>, key: LeKeyRecord)
    requires IsRecordText(c)
    requires StoU64("stoul", c[0]) == Ok(key.keyId) && HexToKey(c[1]) == Ok(key.key)
    requires StoU64("stoul", c[2]) == Ok(key.expireTime) && StoU64("stoull", c[3]) == Ok(key.attributeData)
    ensures RecordOf(c) == Ok(key)
  {
  }

  lemma {:induction false} PrintedLineParses(key: LeKeyRecord)
    ensures ParseLine(PrintRecord(key)) == Ok(key)
  {
    PrintedLineScans(key);
    var c := Captures(key);
    assert |c| == 4 && c[0] == Decimal(key.keyId) && c[1] == Hex(key.key);
    assert c[2] == Decimal(key.expireTime) && c[3] == Decimal(key.attributeData);
    NumberRoundTrip("stoul", key.keyId);
    HexRoundTrip(key.key);
    NumberRoundTrip("stoul", key.expireTime);
    NumberRoundTrip("stoull", key.attributeData);
    CapturesRoundTrip(c, key);
  }

  lemma {:induction false} NoNewline(key: LeKeyRecord)
    ensures forall i :: 0 <= i < |PrintRecord(key)| ==> PrintRecord(key)[i] != '\n'
    ensures PrintRecord(key) != ""
  {
  }

  lemma {:induction false} FirstLine(line: string, rest: string)
    requires forall i :: 0 <= i < |line| ==> line[i] != '\n'
    ensures Lines(line + "\n" + rest) == [line] + Lines(rest)
    ensures Lines(line) == if line == "" then [] else [line]
  {
    assert line[..LineEnd(line)] == line;
    var text := line + "\n" + rest;
    assert text[|line|] == '\n' && text[..|line|] == line && text[|line| + 1..] == rest;
    assert forall i :: 0 <= i < |line| ==> text[i] == line[i];
    assert LineEnd(text) == |line|;
  }

  /** Parsing the file that was printed for any list of records gives back that list. */
  lemma {:induction false} FileRoundTrip(keys: seq<LeKeyRecord>)
    ensures ParseFile(PrintFile(keys)) == Ok(keys)
  {
    LinesRoundTrip(keys, 1);
  }

  lemma {:induction false} OneMoreLine(
    line: string, key: LeKeyRecord, rest: seq<string>, later: seq<LeKeyRecord>, number: nat)
    requires line != "" && ParseLine(line) == Ok(key) && ParseLines(rest, number + 1) == Ok(later)
    ensures ParseLines([line] + rest, number) == Ok([key] + later)
  {
    assert ([line] + rest)[1..] == rest;
  }

  lemma {:induction false} OneMoreRecord(key: LeKeyRecord, more: seq<LeKeyRecord>, number: nat)
    requires ParseLines(Lines(PrintFile(more)), number + 1) == Ok(more)
    ensures ParseLines(Lines(PrintFile([key] + more)), number) == Ok([key] + more)
  {
    hide ParseLine, PrintRecord, Lines, ParseLines;
    var line, rest := PrintRecord(key), PrintFile(more);
    assert ([key] + more)[1..] == more && PrintFile([key] + more) == line + "\n" + rest;
    hide PrintFile;
    NoNewline(key);
    FirstLine(line, rest);
    PrintedLineParses(key);
    OneMoreLine(line, key, Lines(rest), more, number);
  }

  lemma {:induction false} LinesRoundTrip(keys: seq<LeKeyRecord>, number: nat)
    ensures ParseLines(Lines(PrintFile(keys)), number) == Ok(keys)
  {
    if keys != [] {
      LinesRoundTrip(keys[1..], number + 1);
      OneMoreRecord(keys[0], keys[1..], number);
      assert keys == [keys[0]] + keys[1..];
    }
  }

  /** A file is printed record by record, a line each. */
  lemma {:induction false} PrintedInOrder(a: seq<LeKeyRecord>, b: seq<LeKeyRecord>, key: LeKeyRecord)
    ensures PrintFile(a + b) == PrintFile(a) + PrintFile(b)
    ensures PrintFile([key]) == PrintRecord(key) + "\n" && PrintFile([]) == ""
  {
    hide PrintRecord;
    if a == [] {
      assert a + b == b && "" + PrintFile(b) == PrintFile(b);
    } else {
      PrintedInOrder(a[1..], b, key);
      assert (a + b)[0] == a[0] && (a + b)[1..] == a[1..] + b;
      Regroup(PrintRecord(a[0]) + "\n", PrintFile(a[1..]), PrintFile(b));
    }
    assert [key][1..] == [];
  }

  /** Lines are parsed one after another, in order; empty ones count but hold no record. */
  lemma {:induction false} ParsedInOrder(a: seq<string>, b: seq<string>, number: nat)
    ensures var first, second := ParseLines(a, number), ParseLines(b, number + |a|);
            ParseLines(a + b, number) == if first.Ok? then Prepend(first.value, second) else first
  {
    hide ParseLine, LineError;
    if a == [] {
      assert a + b == b && ParseLines(a, number) == Ok([]);
      assert ParseLines(b, number).Ok? ==> [] + ParseLines(b, number).value == ParseLines(b, number).value;
    } else {
      ParsedInOrder(a[1..], b, number + 1);
      assert (a + b)[0] == a[0] && (a + b)[1..] == a[1..] + b;
      var second := ParseLines(b, number + |a|);
      if a[0] != "" && ParseLine(a[0]).Ok? && ParseLines(a[1..], number + 1).Ok? && second.Ok? {
        var key, more := ParseLine(a[0]).value, ParseLines(a[1..], number + 1).value;
        assert [key] + (more + second.value) == ([key] + more) + second.value;
      }
    }
  }

  lemma {:induction false} ParsedAlone(line: string, number: nat)
    requires line == "" || ParseLine(line).Ok?
    ensures ParseLines([line], number) == Ok(if line == "" then [] else [ParseLine(line).value])
  {
    assert [line][1..] == [] && ParseLines([], number + 1) == Ok([]);
    assert line != "" ==> [ParseLine(line).value] + [] == [ParseLine(line).value];
    hide ParseLine;
  }

  // ---- Lines the store did not print ----

  /** A line is accepted with some captures exactly when it matches the pattern with them. */
  lemma {:induction false} LineAccepted(line: string, captures: seq<string>)
    ensures Scan(LINE, line) == Some(captures) <==> Matches(LINE, line, captures)
    ensures Matches(LINE, line, captures) ==> IsRecordText(captures)
  {
    LineOneWay();
    ScanDecidesMatch(LINE, line, captures);
    ScanFits(LINE, line);
    if Scan(LINE, line) == Some(captures) {
      LineCaptures(captures);
    }
  }

  lemma {:induction false} BeforeGap(text: string, chunks: seq<string>)
    ensures Before(text, [""] + chunks) == [text] + chunks
  {
    assert text + "" == text && ([""] + chunks)[1..] == chunks;
  }

  /** A text that white space may follow is a chunk of its own. */
  lemma {:induction false} TextThenGap(text: string, next: Pattern, captures: seq<string>)
    ensures Fits(Literal(text, Space(next)), captures) == Fits(next, captures)
    ensures Fits(next, captures) ==> Chunks(Literal(text, Space(next)), captures) == [text] + Chunks(next, captures)
  {
    assert Fits(Literal(text, Space(next)), captures) == Fits(Space(next), captures);
    if Fits(next, captures) {
      BeforeGap(text, Chunks(next, captures));
      assert Chunks(Space(next), captures) == [""] + Chunks(next, captures);
    }
  }

  lemma {:induction false} GapFirst(next: Pattern, captures: seq<string>)
    ensures Fits(Space(next), captures) == Fits(next, captures)
    ensures Fits(next, captures) ==> Chunks(Space(next), captures) == [""] + Chunks(next, captures)
  {
  }

  lemma {:induction false} FieldChunks(name: string, value: Pattern, captures: seq<string>)
    requires Fits(Field(name, value), captures)
    ensures Fits(value, captures)
    ensures Chunks(Field(name, value), captures) == ["", name, ":"] + Chunks(value, captures)
  {
    hide Chunks, Fits;
    var colon := Literal(":", Space(value));
    TextThenGap(":", value, captures);
    TextThenGap(name, colon, captures);
    GapFirst(Literal(name, Space(colon)), captures);
    assert Chunks(Field(name, value), captures) == [""] + ([name] + ([":"] + Chunks(value, captures)));
  }

  lemma {:induction false} CommaChunks(next: Pattern, captures: seq<string>, later: seq<string>)
    requires Fits(next, captures) && Chunks(next, captures) == [""] + later
    ensures Fits(Comma(next), captures) && Chunks(Comma(next), captures) == [""] + ([","] + later)
  {
    FitsComma(next, captures);
    BeforeGap(",", later);
    GapFirst(Literal(",", next), captures);
  }

  lemma {:induction false} FieldInOne(name: string, value: string, later: seq<string>)
    ensures ["", name, ":"] + ([value] + ([","] + later)) == [""] + ([name, ":", value, ","] + later)
  {
  }

  /** A field that holds a number, and the comma before the next field. */
  lemma {:induction false} NumberChunks(name: string, next: Pattern, captures: seq<string>, later: seq<string>)
    requires captures != [] && Fits(Field(name, Digits(Comma(next))), captures)
    requires Fits(next, captures[1..]) && Chunks(next, captures[1..]) == [""] + later
    ensures Chunks(Field(name, Digits(Comma(next))), captures) == [""] + ([name, ":", captures[0], ","] + later)
  {
    FieldChunks(name, Digits(Comma(next)), captures);
    CommaChunks(next, captures[1..], later);
    BeforeGap(captures[0], [","] + later);
    assert Chunks(Digits(Comma(next)), captures) == [captures[0]] + ([","] + later);
    FieldInOne(name, captures[0], later);
  }

  function AttributeOnwards(attribute: string): seq<string> {
    ["\"attribute_data\"", ":", attribute, "}", ""]
  }

  lemma {:induction false} AttributeChunks(captures: seq<string>)
    requires Fits(ATTRIBUTE, captures)
    ensures |captures| == 1 && Chunks(ATTRIBUTE, captures) == [""] + AttributeOnwards(captures[0])
  {
    FitsAttribute(captures);
    FieldChunks("\"attribute_data\"", Digits(CLOSE), captures);
    BeforeGap("}", [""]);
    assert Chunks(Space(End), []) == ["", ""];
    assert Chunks(CLOSE, []) == [""] + ["}", ""];
    BeforeGap(captures[0], ["}", ""]);
  }

  function ExpireOnwards(expire: string, attribute: string): seq<string> {
    ["\"expire_time\"", ":", expire, ","] + AttributeOnwards(attribute)
  }

  lemma {:induction false} ExpireChunks(captures: seq<string>)
    requires Fits(EXPIRE, captures)
    ensures |captures| == 2 && Chunks(EXPIRE, captures) == [""] + ExpireOnwards(captures[0], captures[1])
  {
    FitsExpire(captures);
    FitsAttribute(captures[1..]);
    AttributeChunks(captures[1..]);
    NumberChunks("\"expire_time\"", ATTRIBUTE, captures, AttributeOnwards(captures[1]));
  }

  /** A quoted key and the comma before the next field. */
  lemma {:induction false} QuotedChunks(next: Pattern, captures: seq<string>, later: seq<string>)
    requires captures != [] && Fits(Literal("\"", HexRun(32, Literal("\"", Comma(next)))), captures)
    requires Fits(next, captures[1..]) && Chunks(next, captures[1..]) == [""] + later
    ensures Chunks(Literal("\"", HexRun(32, Literal("\"", Comma(next)))), captures)
         == ["\"" + (captures[0] + "\"")] + ([","] + later)
  {
    var after := Literal("\"", Comma(next));
    CommaChunks(next, captures[1..], later);
    BeforeGap("\"", [","] + later);
    assert Chunks(after, captures[1..]) == ["\""] + ([","] + later);
    assert Chunks(HexRun(32, after), captures) == [captures[0] + "\""] + ([","] + later);
  }

  function KeyOnwards(key: string, expire: string, attribute: string): seq<string> {
    ["\"key\"", ":", "\"" + (key + "\""), ","] + ExpireOnwards(expire, attribute)
  }

  lemma {:induction false} KeyChunks(captures: seq<string>)
    requires Fits(KEY, captures)
    ensures |captures| == 3 && Chunks(KEY, captures) == [""] + KeyOnwards(captures[0], captures[1], captures[2])
  {
    var quoted := Literal("\"", HexRun(32, Literal("\"", Comma(EXPIRE))));
    FitsKey(captures);
    FitsExpire(captures[1..]);
    hide Chunks, Fits, ExpireOnwards;
    ExpireChunks(captures[1..]);
    FieldChunks("\"key\"", quoted, captures);
    QuotedChunks(EXPIRE, captures, ExpireOnwards(captures[1], captures[2]));
    FieldInOne("\"key\"", "\"" + (captures[0] + "\""), ExpireOnwards(captures[1], captures[2]));
  }

  /** The pieces of a line, in order. */
  function LineChunks(c: seq<string>): (chunks: seq<string>)
    requires |c| == 4
  {
    ["", "{", "\"key_id\"", ":", c[0], ",", "\"key\"", ":", "\"" + (c[1] + "\""), ",",
     "\"expire_time\"", ":", c[2], ",", "\"attribute_data\"", ":", c[3], "}", ""]
  }

  lemma {:induction false} LineInOne(c: seq<string>)
    requires |c| == 4
    ensures LineChunks(c) == [""] + (["{"] + (["\"key_id\"", ":", c[0], ","] + KeyOnwards(c[1], c[2], c[3])))
  {
  }

  lemma {:induction false} ChunksOfLine(c: seq<string>)
    requires Fits(LINE, c)
    ensures |c| == 4 && Chunks(LINE, c) == LineChunks(c)
  {
    LineCaptures(c);
    var id := Field("\"key_id\"", Digits(Comma(KEY)));
    var later := ["\"key_id\"", ":", c[0], ","] + KeyOnwards(c[1], c[2], c[3]);
    assert Fits(Literal("{", id), c) && Fits(id, c);
    FitsNumber("\"key_id\"", Comma(KEY), c);
    FitsComma(KEY, c[1..]);
    KeyChunks(c[1..]);
    NumberChunks("\"key_id\"", KEY, c, KeyOnwards(c[1], c[2], c[3]));
    BeforeGap("{", later);
    LineInOne(c);
    hide KeyOnwards, LineChunks;
    assert Chunks(LINE, c) == [""] + Chunks(Literal("{", id), c);
  }

  /** A line matches the pattern if and only if it is one JSON object with the four fields in
      this order, the key 32 hexadecimal digits in quotes and the rest unsigned numbers, with
      any white space around the 17 pieces and none elsewhere. */
  lemma {:induction false} LineWritten(line: string, c: seq<string>)
    ensures Matches(LINE, line, c)
       <==> IsRecordText(c) && exists gaps :: IsWeave(line, LineChunks(c), gaps)
  {
    MatchesIffWoven(LINE, line, c);
    LineCaptures(c);
    if Fits(LINE, c) {
      ChunksOfLine(c);
    }
  }

  predicate Tight(s: string) {
    forall i :: 0 <= i < |s| ==> s[i] as int !in {9, 10, 11, 12, 13, 32}
  }

  lemma {:induction false} TightParts(a: string, b: string)
    ensures Tight(a + b) <==> Tight(a) && Tight(b)
  {
    assert forall i :: 0 <= i < |a| ==> (a + b)[i] == a[i];
    assert forall i :: 0 <= i < |b| ==> (a + b)[|a| + i] == b[i];
  }

  lemma {:induction false} TightAt(s: string, i: nat)
    requires i < |s| && Tight(s)
    ensures s[i] as int !in {9, 10, 11, 12, 13, 32}
  {
  }

  lemma {:induction false} TightBlank(w: string)
    requires Tight(w) && Blank(w)
    ensures w == ""
  {
    hide Tight;
    if w != "" {
      TightAt(w, 0);
    }
  }

  lemma {:induction false} NothingBlank(s: string, chunks: seq<string>, gaps: seq<string>)
    requires IsWeave(s, chunks, gaps) && Tight(s)
    ensures forall i :: 0 <= i < |gaps| ==> gaps[i] == ""
    decreases |gaps|
  {
    if gaps != [] {
      var rest := Weave(chunks[1..], gaps[1..]);
      TightParts(chunks[0], gaps[0] + rest);
      TightParts(gaps[0], rest);
      TightBlank(gaps[0]);
      NothingBlank(rest, chunks[1..], gaps[1..]);
    }
  }

  lemma {:induction false} TightNames()
    ensures Tight("{\"key_id\":") && Tight(",\"key\":\"") && Tight("\",\"expire_time\":")
    ensures Tight(",\"attribute_data\":") && Tight("}")
  {
  }

  lemma {:induction false} TightFields(key: LeKeyRecord)
    ensures Tight(Decimal(key.keyId)) && Tight(Hex(key.key))
    ensures Tight(Decimal(key.expireTime)) && Tight(Decimal(key.attributeData))
  {
  }

  lemma {:induction false} TightRecord(key: LeKeyRecord)
    ensures Tight(PrintRecord(key))
  {
    TightNames();
    TightFields(key);
    hide Tight, Decimal, Hex;
    var id, hex := "{\"key_id\":" + Decimal(key.keyId), ",\"key\":\"" + Hex(key.key);
    var expire := "\",\"expire_time\":" + Decimal(key.expireTime);
    var attribute := ",\"attribute_data\":" + Decimal(key.attributeData);
    TightParts("{\"key_id\":", Decimal(key.keyId));
    TightParts(",\"key\":\"", Hex(key.key));
    TightParts("\",\"expire_time\":", Decimal(key.expireTime));
    TightParts(",\"attribute_data\":", Decimal(key.attributeData));
    TightParts(attribute, "}");
    TightParts(id, hex);
    TightParts(id + hex, expire);
    TightParts(id + hex + expire, attribute + "}");
  }

  /** A record is printed as the pieces of its line with nothing between them: numbers in
      decimal, key bytes in lower-case hexadecimal. */
  lemma {:induction false} PrintedPieces(key: LeKeyRecord)
    ensures var c := [Decimal(key.keyId), Hex(key.key), Decimal(key.expireTime), Decimal(key.attributeData)];
            PrintRecord(key) == Weave(LineChunks(c), seq(18, _ => ""))
  {
    var c := [Decimal(key.keyId), Hex(key.key), Decimal(key.expireTime), Decimal(key.attributeData)];
    var line := PrintRecord(key);
    LineMatches(key);
    LineTextIsPrinted(key);
    assert Captures(key) == c;
    LineWritten(line, c);
    var gaps :| IsWeave(line, LineChunks(c), gaps);
    TightRecord(key);
    NothingBlank(line, LineChunks(c), gaps);
    assert gaps == seq(18, _ => "");
  }

  /** The numbers of a line that matches: id, expiry and attribute data. */
  function LineNumber(c: seq<string>, i: nat): nat
    requires IsRecordText(c) && i in {0, 2, 3}
  {
    DecimalValue(c[i])
  }

  /** A matching line is refused exactly when a number exceeds 64 bits. The key and the attribute
      data are stored as written; the id and the expiry are, exactly when they fit in 32 bits,
      and are taken modulo 2^32 otherwise. */
  lemma {:induction false} ForeignLine(line: string, captures: seq<string>)
    requires Matches(LINE, line, captures)
    ensures IsRecordText(captures)
    ensures ParseLine(line).Err? <==> exists i :: i in {0, 2, 3} && LineNumber(captures, i) >= 0x1_0000_0000_0000_0000
    ensures ParseLine(line).Ok? ==>
            var key := ParseLine(line).value;
            && key.keyId == LineNumber(captures, 0) % 0x1_0000_0000
            && (key.keyId == LineNumber(captures, 0) <==> LineNumber(captures, 0) < 0x1_0000_0000)
            && Hex(key.key) == LowerCase(captures[1])
            && key.expireTime == LineNumber(captures, 2) % 0x1_0000_0000
            && (key.expireTime == LineNumber(captures, 2) <==> LineNumber(captures, 2) < 0x1_0000_0000)
            && key.attributeData == LineNumber(captures, 3)
  {
    LineAccepted(line, captures);
    assert ParseLine(line) == RecordOf(captures);
    RecordRefused(captures);
    TruncatedAbove(LineNumber(captures, 0));
    TruncatedAbove(LineNumber(captures, 2));
    hide ParseLine, RecordOf, Hex, LowerCase, LineNumber;
  }

  lemma {:induction false} TruncatedAbove(n: nat)
    ensures n % 0x1_0000_0000 == n <==> n < 0x1_0000_0000
  {
  }

  lemma {:induction false} RecordRefused(c: seq<string>)
    requires IsRecordText(c)
    ensures RecordOf(c).Err? <==> exists i :: i in {0, 2, 3} && LineNumber(c, i) >= 0x1_0000_0000_0000_0000
    ensures RecordOf(c).Ok? ==>
            var key := RecordOf(c).value;
            && key.keyId == LineNumber(c, 0) % 0x1_0000_0000
            && Hex(key.key) == LowerCase(c[1])
            && key.expireTime == LineNumber(c, 2) % 0x1_0000_0000
            && key.attributeData == LineNumber(c, 3)
  {
    KeyAsWritten(c[1]);
    hide Hex, HexToKey, LowerCase;
    var id, expire, attribute := LineNumber(c, 0), LineNumber(c, 2), LineNumber(c, 3);
  }

  /** The first line that is neither empty nor accepted. */
  predicate FirstRefused(lines: seq<string>, i: nat) {
    && i < |lines| && lines[i] != "" && ParseLine(lines[i]).Err?
    && forall j :: 0 <= j < i ==> lines[j] == "" || ParseLine(lines[j]).Ok?
  }

  lemma {:induction false} FirstRefusedLater(lines: seq<string>, i: nat)
    requires lines != [] && (lines[0] == "" || ParseLine(lines[0]).Ok?)
    ensures !FirstRefused(lines, 0)
    ensures FirstRefused(lines, i + 1) <==> FirstRefused(lines[1..], i)
  {
    hide ParseLine;
    assert forall j :: 0 <= j < |lines| - 1 ==> lines[1..][j] == lines[j + 1];
    if FirstRefused(lines[1..], i) {
      forall j | 0 <= j < i + 1
        ensures lines[j] == "" || ParseLine(lines[j]).Ok?
      {
        assert j > 0 ==> lines[j] == lines[1..][j - 1];
      }
    }
  }

  lemma {:induction false} RefusedAt(lines: seq<string>, number: nat, i: nat)
    requires FirstRefused(lines, i)
    ensures ParseLines(lines, number) == Err(LineError(number + i, ParseLine(lines[i]).message))
  {
    hide ParseLine;
    if i > 0 {
      FirstRefusedLater(lines, i - 1);
      RefusedAt(lines[1..], number + 1, i - 1);
    }
  }

  lemma {:induction false} RefusedSomewhere(lines: seq<string>, number: nat) returns (i: nat)
    requires ParseLines(lines, number).Err?
    ensures FirstRefused(lines, i)
  {
    hide ParseLine;
    if lines[0] != "" && ParseLine(lines[0]).Err? {
      i := 0;
    } else {
      var later := RefusedSomewhere(lines[1..], number + 1);
      FirstRefusedLater(lines, later);
      i := later + 1;
    }
  }

  /** Opening a file fails exactly when some line is neither empty nor accepted, and reports
      the number of the first such line and why it was refused. */
  lemma {:induction false} FileRefusedIff(text: string)
    ensures ParseFile(text).Err? <==> exists i: nat :: FirstRefused(Lines(text), i)
    ensures forall i: nat :: FirstRefused(Lines(text), i) ==>
              ParseFile(text) == Err("failed to parse LEKey JSONL line " + Decimal(1 + i) + ": "
                                     + ParseLine(Lines(text)[i]).message)
  {
    hide Lines, ParseLine, ParseLines;
    if ParseFile(text).Err? {
      var i := RefusedSomewhere(Lines(text), 1);
      assert FirstRefused(Lines(text), i);
    }
    forall i: nat | FirstRefused(Lines(text), i)
      ensures ParseFile(text) == Err(LineError(1 + i, ParseLine(Lines(text)[i]).message))
    {
      RefusedAt(Lines(text), 1, i);
    }
  }
}
