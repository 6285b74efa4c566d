/** The regular expression that recognises a line of the key file: what a full match means,
    and a left-to-right scanner that decides it without backtracking. */
module LinePattern {
  import opened Prelude
  import opened TextNumbers

  /** A pattern as a list of pieces; digits and hexadecimal runs are captured. */
  datatype Pattern =
    | End
    | Space(next: Pattern)                  // \s*
    | Literal(text: string, next: Pattern)
    | Digits(next: Pattern)                 // ([0-9]+)
    | HexRun(count: nat, next: Pattern)     // ([0-9A-Fa-f]{count})

  predicate IsSpace(c: char) {
    c == ' ' || 9 <= c as int <= 13
  }

  predicate SpacesUpTo(s: string, n: nat) {
    n <= |s| && forall i :: 0 <= i < n ==> IsSpace(s[i])
  }

  /** Full match of a line with these captures, every repetition free to take any length. */
  ghost predicate Matches(p: Pattern, s: string, captures: seq<string>)
    decreases p
  {
    match p
    case End => s == "" && captures == []
    case Space(next) =>
      exists n: nat :: SpacesUpTo(s, n) && Matches(next, s[n..], captures)
    case Literal(text, next) =>
      text <= s && Matches(next, s[|text|..], captures)
    case Digits(next) =>
      && captures != []
      && var n := |captures[0]|;
         0 < n <= |s| && captures[0] == s[..n] && (forall i :: 0 <= i < n ==> IsDigit(s[i]))
         && Matches(next, s[n..], captures[1..])
    case HexRun(count, next) =>
      && captures != []
      && count <= |s| && captures[0] == s[..count] && (forall i :: 0 <= i < count ==> IsHex(s[i]))
      && Matches(next, s[count..], captures[1..])
  }

  /** How many leading characters are white space, or digits. */
  function SpaceRun(s: string): (n: nat)
    ensures SpacesUpTo(s, n) && (n < |s| ==> !IsSpace(s[n]))
  {
    if s == "" || !IsSpace(s[0]) then 0 else 1 + SpaceRun(s[1..])
  }

  function DigitRun(s: string): (n: nat)
    ensures n <= |s| && (forall i :: 0 <= i < n ==> IsDigit(s[i])) && (n < |s| ==> !IsDigit(s[n]))
  {
    if s == "" || !IsDigit(s[0]) then 0 else 1 + DigitRun(s[1..])
  }

  predicate AllDigits(s: string) {
    forall i :: 0 <= i < |s| ==> IsDigit(s[i])
  }

  predicate AllHex(s: string) {
    forall i :: 0 <= i < |s| ==> IsHex(s[i])
  }

  function Captured(text: string, later: Option<seq<string>>): Option<seq<string>> {
    match later
    case Some(captures) => Some([text] + captures)
    case None => None
  }

  /** Every repetition takes as much as it can; there is no second try. */
  function Scan(p: Pattern, s: string): Option<seq<string>>
    decreases p
  {
    match p
    case End => if s == "" then Some([]) else None
    case Space(next) => Scan(next, s[SpaceRun(s)..])
    case Literal(text, next) => if text <= s then Scan(next, s[|text|..]) else None
    case Digits(next) =>
      var n := DigitRun(s);
      if n == 0 then None else Captured(s[..n], Scan(next, s[n..]))
    case HexRun(count, next) =>
      if |s| < count || !AllHex(s[..count]) then None else Captured(s[..count], Scan(next, s[count..]))
  }

  /** Can a match of the pattern begin with this character? */
  predicate CanStart(p: Pattern, c: char)
    decreases p
  {
    match p
    case End => false
    case Space(next) => IsSpace(c) || CanStart(next, c)
    case Literal(text, next) => if text == "" then CanStart(next, c) else c == text[0]
    case Digits(next) => IsDigit(c)
    case HexRun(count, next) => if count == 0 then CanStart(next, c) else IsHex(c)
  }

  /** No repetition can be continued by what is allowed to follow it. */
  ghost predicate OneWay(p: Pattern)
    decreases p
  {
    match p
    case End => true
    case Space(next) => OneWay(next) && forall c :: CanStart(next, c) ==> !IsSpace(c)
    case Literal(text, next) => OneWay(next)
    case Digits(next) => OneWay(next) && forall c :: CanStart(next, c) ==> !IsDigit(c)
    case HexRun(count, next) => OneWay(next)
  }

  /** Captures of the right number and kind for a pattern. */
  predicate Fits(p: Pattern, captures: seq<string>)
    decreases p
  {
    match p
    case End => captures == []
    case Space(next) => Fits(next, captures)
    case Literal(text, next) => Fits(next, captures)
    case Digits(next) =>
      captures != [] && captures[0] != "" && AllDigits(captures[0]) && Fits(next, captures[1..])
    case HexRun(count, next) =>
      captures != [] && |captures[0]| == count && AllHex(captures[0]) && Fits(next, captures[1..])
  }

  lemma {:induction false} ScanFits(p: Pattern, s: string)
    ensures Scan(p, s).Some? ==> Fits(p, Scan(p, s).value)
    decreases p
  {
    match p
    case End =>
    case Space(next) => ScanFits(next, s[SpaceRun(s)..]);
    case Literal(text, next) =>
      if text <= s {
        ScanFits(next, s[|text|..]);
      }
    case Digits(next) => ScanFits(next, s[DigitRun(s)..]);
    case HexRun(count, next) =>
      if count <= |s| {
        ScanFits(next, s[count..]);
      }
  }

  lemma {:induction false} MatchStarts(p: Pattern, s: string, captures: seq<string>)
    requires Matches(p, s, captures) && s != ""
    ensures CanStart(p, s[0])
    decreases p
  {
    match p
    case End =>
    case Space(next) =>
      var n: nat :| SpacesUpTo(s, n) && Matches(next, s[n..], captures);
      if n == 0 {
        assert s[0..] == s;
        MatchStarts(next, s, captures);
      }
    case Literal(text, next) =>
      if text == "" {
        assert s[0..] == s;
        MatchStarts(next, s, captures);
      }
    case Digits(next) =>
    case HexRun(count, next) =>
      if count == 0 {
        assert s[0..] == s;
        MatchStarts(next, s, captures[1..]);
      }
  }

  lemma {:induction false} OnlyWholeRun(next: Pattern, s: string, n: nat, captures: seq<string>)
    requires forall c :: CanStart(next, c) ==> !IsSpace(c)
    requires SpacesUpTo(s, n) && Matches(next, s[n..], captures)
    ensures n == SpaceRun(s)
  {
    hide CanStart, Matches;
    if n < SpaceRun(s) {
      MatchStarts(next, s[n..], captures);
    }
  }

  lemma {:induction false} SpaceScan(next: Pattern, s: string, captures: seq<string>)
    requires forall c :: CanStart(next, c) ==> !IsSpace(c)
    requires Scan(next, s[SpaceRun(s)..]) == Some(captures) <==> Matches(next, s[SpaceRun(s)..], captures)
    ensures Scan(Space(next), s) == Some(captures) <==> Matches(Space(next), s, captures)
  {
    hide CanStart, IsSpace;
    forall n: nat | SpacesUpTo(s, n) && Matches(next, s[n..], captures)
      ensures n == SpaceRun(s)
    {
      OnlyWholeRun(next, s, n, captures);
    }
    assert SpacesUpTo(s, SpaceRun(s));
  }

  lemma {:induction false} DigitScan(next: Pattern, s: string, captures: seq<string>)
    requires forall c :: CanStart(next, c) ==> !IsDigit(c)
    requires captures != []
    requires Scan(next, s[DigitRun(s)..]) == Some(captures[1..]) <==> Matches(next, s[DigitRun(s)..], captures[1..])
    ensures Scan(Digits(next), s) == Some(captures) <==> Matches(Digits(next), s, captures)
  {
    assert captures == [captures[0]] + captures[1..];
    if Matches(Digits(next), s, captures) && |captures[0]| < DigitRun(s) {
      MatchStarts(next, s[|captures[0]|..], captures[1..]);
    }
  }

  lemma {:induction false} HexScan(count: nat, next: Pattern, s: string, captures: seq<string>)
    requires captures != [] && count <= |s|
    requires Scan(next, s[count..]) == Some(captures[1..]) <==> Matches(next, s[count..], captures[1..])
    ensures Scan(HexRun(count, next), s) == Some(captures) <==> Matches(HexRun(count, next), s, captures)
  {
    assert captures == [captures[0]] + captures[1..];
    assert s[..count] == captures[0] ==> (AllHex(s[..count]) <==> forall i :: 0 <= i < count ==> IsHex(s[i]));
  }

  lemma {:induction false} NoCaptures(p: Pattern, s: string)
    requires p.Digits? || p.HexRun?
    ensures Scan(p, s) != Some([]) && !Matches(p, s, [])
  {
  }

  /** On such a pattern the scanner finds the captures of a line if and only if they match. */
  lemma {:induction false} ScanDecidesMatch(p: Pattern, s: string, captures: seq<string>)
    requires OneWay(p)
    ensures Scan(p, s) == Some(captures) <==> Matches(p, s, captures)
    decreases p
  {
    match p
    case End =>
    case Space(next) =>
      ScanDecidesMatch(next, s[SpaceRun(s)..], captures);
      SpaceScan(next, s, captures);
    case Literal(text, next) =>
      if text <= s {
        ScanDecidesMatch(next, s[|text|..], captures);
      }
    case Digits(next) =>
      if captures == [] {
        NoCaptures(p, s);
      } else {
        ScanDecidesMatch(next, s[DigitRun(s)..], captures[1..]);
        DigitScan(next, s, captures);
      }
    case HexRun(count, next) =>
      if captures == [] {
        NoCaptures(p, s);
      } else if count <= |s| {
        ScanDecidesMatch(next, s[count..], captures[1..]);
        HexScan(count, next, s, captures);
      }
  }

  // ---- What a matching line looks like ----

  predicate Blank(w: string) {
    forall i :: 0 <= i < |w| ==> w[i] as int in {9, 10, 11, 12, 13, 32}
  }

  predicate AllBlank(gaps: seq<string>) {
    forall i :: 0 <= i < |gaps| ==> Blank(gaps[i])
  }

  /** Chunks of text with a gap between any two. */
  function Weave(chunks: seq<string>, gaps: seq<string>): string
    requires |chunks| == |gaps| + 1
  {
    if gaps == [] then chunks[0] else chunks[0] + (gaps[0] + Weave(chunks[1..], gaps[1..]))
  }

  /** A text written before the first chunk. */
  function Before(text: string, chunks: seq<string>): seq<string>
    requires chunks != []
  {
    [text + chunks[0]] + chunks[1..]
  }

  /** The chunks a pattern has between its white spaces, the captures put in. */
  function Chunks(p: Pattern, captures: seq<string>): (chunks: seq<string>)
    requires Fits(p, captures)
    ensures chunks != []
    decreases p
  {
    match p
    case End => [""]
    case Space(next) => [""] + Chunks(next, captures)
    case Literal(text, next) => Before(text, Chunks(next, captures))
    case Digits(next) => Before(captures[0], Chunks(next, captures[1..]))
    case HexRun(count, next) => Before(captures[0], Chunks(next, captures[1..]))
  }

  predicate IsWeave(s: string, chunks: seq<string>, gaps: seq<string>) {
    |gaps| + 1 == |chunks| && AllBlank(gaps) && s == Weave(chunks, gaps)
  }

  /** The line is the chunks of the pattern with white space between them. */
  ghost predicate Woven(p: Pattern, s: string, captures: seq<string>) {
    Fits(p, captures) && exists gaps :: IsWeave(s, Chunks(p, captures), gaps)
  }

  lemma {:induction false} WeaveBefore(text: string, chunks: seq<string>, gaps: seq<string>)
    requires |chunks| == |gaps| + 1
    ensures Weave(Before(text, chunks), gaps) == text + Weave(chunks, gaps)
  {
    var longer := Before(text, chunks);
    assert longer[0] == text + chunks[0] && longer[1..] == chunks[1..];
    if gaps != [] {
      Regroup(text, chunks[0], gaps[0] + Weave(chunks[1..], gaps[1..]));
    }
  }

  /** A text at the head of a line is woven before the first chunk of what follows. */
  lemma {:induction false} HeadWoven(text: string, next: Pattern, s: string, captures: seq<string>)
    ensures text <= s && Woven(next, s[|text|..], captures)
       <==> Fits(next, captures) && exists gaps :: IsWeave(s, Before(text, Chunks(next, captures)), gaps)
  {
    if Fits(next, captures) {
      forall gaps
        ensures IsWeave(s, Before(text, Chunks(next, captures)), gaps)
           <==> text <= s && IsWeave(s[|text|..], Chunks(next, captures), gaps)
      {
        if |gaps| + 1 == |Chunks(next, captures)| {
          WeaveBefore(text, Chunks(next, captures), gaps);
          SplitAt(s, text, Weave(Chunks(next, captures), gaps));
        }
      }
    }
  }

  lemma {:induction false} SplitAt(s: string, head: string, tail: string)
    ensures s == head + tail <==> head <= s && s[|head|..] == tail
  {
    assert head <= s ==> s == head + s[|head|..];
    assert (head + tail)[|head|..] == tail;
  }

  lemma {:induction false} GapWoven(chunks: seq<string>, s: string, n: nat, gaps: seq<string>)
    requires SpacesUpTo(s, n) && IsWeave(s[n..], chunks, gaps)
    ensures IsWeave(s, [""] + chunks, [s[..n]] + gaps)
  {
    var more := [s[..n]] + gaps;
    assert more[0] == s[..n] && more[1..] == gaps && ([""] + chunks)[1..] == chunks;
    assert s == s[..n] + s[n..];
  }

  lemma {:induction false} GapUnwoven(chunks: seq<string>, s: string, gaps: seq<string>)
    requires chunks != [] && IsWeave(s, [""] + chunks, gaps)
    ensures SpacesUpTo(s, |gaps[0]|) && IsWeave(s[|gaps[0]|..], chunks, gaps[1..])
  {
    assert ([""] + chunks)[1..] == chunks;
    assert s == gaps[0] + Weave(chunks, gaps[1..]);
    assert forall i :: 0 <= i < |gaps[0]| ==> s[i] == gaps[0][i];
  }

  lemma {:induction false} SpaceWoven(next: Pattern, s: string, captures: seq<string>)
    requires forall n: nat :: n <= |s| ==> (Matches(next, s[n..], captures) <==> Woven(next, s[n..], captures))
    ensures Matches(Space(next), s, captures) <==> Woven(Space(next), s, captures)
  {
    if Matches(Space(next), s, captures) {
      var n: nat :| SpacesUpTo(s, n) && Matches(next, s[n..], captures);
      SpacePut(next, s, captures, n);
    }
    if Woven(Space(next), s, captures) {
      var n := SpaceTaken(next, s, captures);
    }
  }

  lemma {:induction false} SpacePut(next: Pattern, s: string, captures: seq<string>, n: nat)
    requires SpacesUpTo(s, n) && Woven(next, s[n..], captures)
    ensures Woven(Space(next), s, captures)
  {
    var chunks := Chunks(next, captures);
    var gaps :| IsWeave(s[n..], chunks, gaps);
    GapWoven(chunks, s, n, gaps);
    assert Chunks(Space(next), captures) == [""] + chunks;
  }

  lemma {:induction false} SpaceTaken(next: Pattern, s: string, captures: seq<string>) returns (n: nat)
    requires Woven(Space(next), s, captures)
    ensures SpacesUpTo(s, n) && Woven(next, s[n..], captures)
  {
    var chunks := Chunks(next, captures);
    assert Chunks(Space(next), captures) == [""] + chunks;
    var gaps :| IsWeave(s, [""] + chunks, gaps);
    GapUnwoven(chunks, s, gaps);
    n := |gaps[0]|;
  }

  lemma {:induction false} EndWoven(s: string, captures: seq<string>)
    ensures Matches(End, s, captures) <==> Woven(End, s, captures)
  {
    assert Weave([""], []) == "";
    if captures == [] {
      assert Chunks(End, captures) == [""];
      assert s == "" ==> IsWeave(s, [""], []);
      forall gaps | IsWeave(s, [""], gaps)
        ensures s == ""
      {
        assert gaps == [];
      }
    }
  }

  /** A line matches any pattern with some captures if and only if the captures are of the
      right kind and the line is the pattern's chunks with white space between them. */
  lemma {:induction false} MatchesIffWoven(p: Pattern, s: string, captures: seq<string>)
    ensures Matches(p, s, captures) <==> Woven(p, s, captures)
    decreases p
  {
    match p
    case End =>
      EndWoven(s, captures);
    case Space(next) =>
      forall n: nat | n <= |s|
        ensures Matches(next, s[n..], captures) <==> Woven(next, s[n..], captures)
      {
        MatchesIffWoven(next, s[n..], captures);
      }
      SpaceWoven(next, s, captures);
    case Literal(text, next) =>
      if text <= s {
        MatchesIffWoven(next, s[|text|..], captures);
      }
      assert Fits(p, captures) ==> Chunks(p, captures) == Before(text, Chunks(next, captures));
      HeadWoven(text, next, s, captures);
    case Digits(next) =>
      if captures != [] {
        if captures[0] <= s {
          MatchesIffWoven(next, s[|captures[0]|..], captures[1..]);
        }
        DigitsWoven(next, s, captures);
      }
    case HexRun(count, next) =>
      if captures != [] {
        if captures[0] <= s {
          MatchesIffWoven(next, s[|captures[0]|..], captures[1..]);
        }
        HexWoven(count, next, s, captures);
      }
  }

  lemma {:induction false} DigitsWoven(next: Pattern, s: string, captures: seq<string>)
    requires captures != []
    requires captures[0] <= s ==> var rest := s[|captures[0]|..];
               (Matches(next, rest, captures[1..]) <==> Woven(next, rest, captures[1..]))
    ensures Matches(Digits(next), s, captures) <==> Woven(Digits(next), s, captures)
  {
    var text, later := captures[0], captures[1..];
    HeadWoven(text, next, s, later);
    assert text <= s ==> (AllDigits(text) <==> forall i :: 0 <= i < |text| ==> IsDigit(s[i]));
    assert text <= s <==> |text| <= |s| && text == s[..|text|];
    assert Fits(Digits(next), captures) ==> Chunks(Digits(next), captures) == Before(text, Chunks(next, later));
    assert Woven(Digits(next), s, captures)
      <==> text != "" && AllDigits(text) && text <= s && Woven(next, s[|text|..], later);
  }

  lemma {:induction false} HexWoven(count: nat, next: Pattern, s: string, captures: seq<string>)
    requires captures != []
    requires captures[0] <= s ==> var rest := s[|captures[0]|..];
               (Matches(next, rest, captures[1..]) <==> Woven(next, rest, captures[1..]))
    ensures Matches(HexRun(count, next), s, captures) <==> Woven(HexRun(count, next), s, captures)
  {
    var text, later := captures[0], captures[1..];
    HeadWoven(text, next, s, later);
    assert text <= s ==> (AllHex(text) <==> forall i :: 0 <= i < |text| ==> IsHex(s[i]));
    assert text <= s <==> |text| <= |s| && text == s[..|text|];
    assert Fits(HexRun(count, next), captures) ==>
             Chunks(HexRun(count, next), captures) == Before(text, Chunks(next, later));
    assert Woven(HexRun(count, next), s, captures)
      <==> |text| == count && AllHex(text) && text <= s && Woven(next, s[|text|..], later);
  }
}
