/** What the legacy rule parser recovers: the exact conditions under which it returns and under which the body is the text
    after the header, and the round trip with printed headers. */
module RuleRoundTrip {
  import opened Wrappers
  import opened RuleHeader

  /** The text after the separator line, or from the first line that is not part of the header. */
  function TextAfterHeader(s: string): string
    requires IsLegacyRule(s)
  {
    var stop := StopOf(s);
    if stop.Exhausted? || stop.at == |s| then "" else s[stop.at + 1..]
  }

  /** No CRLF starts at an index in `[from, to)`. */
  ghost predicate NoCrLf(s: string, from: nat, to: nat) {
    forall i, j :: from <= i < to && j == i + 1 < |s| ==> !(s[i] == '\r' && s[j] == '\n')
  }

  lemma {:induction false} EndOfLineAt(s: string, start: nat, end: nat)
    requires start <= end <= |s| && (end < |s| ==> s[end] == '\n')
    requires forall i :: start <= i < end ==> s[i] != '\n'
    ensures EndOfLine(s, start) == end
    decreases end - start
  {
    if start < end {
      EndOfLineAt(s, start + 1, end);
    }
  }

  // ---- The body's offset ------------------------------------------------------------

  /** The header's end is a line terminator, or the end of a text that does not end in one. */
  ghost predicate LineEnd(s: string, at: nat) {
    at <= |s| && if at < |s| then s[at] == '\n' else s != "" && s[|s| - 1] != '\n'
  }

  lemma {:induction false} StopsAtLineEnd(s: string, start: nat)
    requires start > 0 && (start <= |s| ==> s[start - 1] == '\n')
    ensures var stop := Scan(s, start); !stop.Exhausted? ==> LineEnd(s, stop.at)
    decreases |s| - start
  {
    hide EndOfLine, TrimEnd, Line, Dropped, Scan;
    if start >= |s| {
      NothingAfter(s, start);
    } else {
      ScanStep(s, start, 0);
      LineLength(s, start);
      StopsAtLineEnd(s, EndOfLine(s, start) + 1);
    }
  }

  lemma EmptyRange(s: string, from: nat, to: nat)
    requires to <= from
    ensures NoCrLf(s, from, to)
  {
  }

  lemma {:induction false} NothingDroppedIff(s: string, start: nat)
    requires start > 0 && !Scan(s, start).Exhausted?
    ensures Scan(s, start).lost == 0 <==> NoCrLf(s, start, Scan(s, start).at)
    decreases |s| - start
  {
    hide EndOfLine, TrimEnd, Line, Dropped, Scan, NoCrLf;
    if start >= |s| {
      NothingAfter(s, start);
    } else {
      var line, end, at := TrimEnd(Line(s, start)), EndOfLine(s, start), Scan(s, start).at;
      ScanStep(s, start, 0);
      if line == RULE_BODY_SEPARATOR {
        OneLine(s, start, at);
        EmptyRange(s, end + 1, at);
      } else if ':' in line || line == "" {
        NothingDroppedIff(s, end + 1);
        OneLine(s, start, at);
      } else {
        EmptyRange(s, start, at);
      }
    }
  }

  lemma OneLine(s: string, start: nat, to: nat)
    requires start < |s| && EndOfLine(s, start) <= to <= |s|
    ensures NoCrLf(s, start, to) <==> Dropped(s, start) == 0 && NoCrLf(s, EndOfLine(s, start) + 1, to)
  {
    hide EndOfLine;
    var end := EndOfLine(s, start);
    if EndsInCrLf(s, start) {
      assert s[end - 1] == '\r' && s[end] == '\n';
    } else {
      forall i, j | start <= i < end + 1 && i < to && j == i + 1 < |s|
        ensures !(s[i] == '\r' && s[j] == '\n')
      {
      }
    }
  }

  lemma BareMarkerIff(s: string)
    requires IsLegacyRule(s)
    ensures "RULE\n" <= s <==> Bytes(s[..EndOfLine(s, 0)]) == 4 && EndOfLine(s, 0) == 4 < |s|
    ensures Bytes(s[..EndOfLine(s, 0)]) == 4 ==> EndOfLine(s, 0) == 4 && Dropped(s, 0) == 0
  {
    hide TrimEnd, EndOfLine, Dropped, Bytes;
    LineLength(s, 0);
    MarkerBytes(s);
    var end, first := EndOfLine(s, 0), TrimEnd(Line(s, 0));
    if end == 4 {
      assert s[..4] == first;
      MarkerCounts();
    }
    if "RULE\n" <= s {
      assert s[4] == '\n';
      EndOfLineAt(s, 0, 4);
    }
    if end == 4 < |s| {
      assert s[..5] == "RULE" + [s[4]];
    }
  }

  /** The parser's count is right exactly when the marker line is bare and no header line ends in CRLF. */
  lemma CountRightIff(s: string)
    requires IsLegacyRule(s) && !StopOf(s).Exhausted?
    ensures StopOf(s).lost == 0 <==> "RULE\n" <= s && NoCrLf(s, 0, StopOf(s).at)
  {
    hide EndOfLine, TrimEnd, Line, Dropped, Scan, NoCrLf, StopOf, IsLegacyRule, Bytes;
    var end := EndOfLine(s, 0);
    Opening(s);
    if end + 1 >= |s| {
      NothingAfter(s, end + 1);
    } else {
      NothingDroppedIff(s, end + 1);
      OneLine(s, 0, StopOf(s).at);
      BareMarkerIff(s);
    }
  }

  /** Where the parser slices: `lost` bytes before the header's end. */
  function SliceOffset(s: string): nat
    requires IsLegacyRule(s) && !StopOf(s).Exhausted?
  {
    Bytes(s[..StopOf(s).at]) - StopOf(s).lost
  }

  /** Some tail of the text before `at` has exactly `lost` bytes. */
  ghost predicate TailOfBytes(s: string, at: nat, lost: nat)
    requires at <= |s|
  {
    exists i :: 0 <= i <= at && Bytes(s[i..at]) == lost
  }

  lemma BoundaryIffTail(s: string, at: nat, lost: nat)
    requires at <= |s| && lost <= Bytes(s[..at])
    ensures IndexAt(s, Bytes(s[..at]) - lost).Some? <==> TailOfBytes(s, at, lost)
    ensures IndexAt(s, Bytes(s[..at]) - lost).Some? ==>
              var i := IndexAt(s, Bytes(s[..at]) - lost).value; i <= at && (i == at <==> lost == 0)
  {
    hide Bytes, IndexAt;
    var found := IndexAt(s, Bytes(s[..at]) - lost);
    if found.Some? {
      var i := found.value;
      if i > at {
        PartBytes(s, at, i);
        assert false;
      } else {
        PartBytes(s, i, at);
        assert i == at ==> s[i..at] == "";
        EmptyBytes();
        assert Bytes(s[i..at]) == lost;
      }
    }
    if TailOfBytes(s, at, lost) {
      var i :| 0 <= i <= at && Bytes(s[i..at]) == lost;
      BytesOfPart(s, i, at);
      IndexAtBoundary(s, i);
    }
  }

  lemma NonEmptyBytes(s: string)
    requires s != ""
    ensures Bytes(s) > 0
  {
  }

  lemma PartBytes(s: string, i: nat, j: nat)
    requires i <= j <= |s|
    ensures Bytes(s[..j]) == Bytes(s[..i]) + Bytes(s[i..j])
    ensures i < j ==> Bytes(s[i..j]) > 0
  {
    BytesOfPart(s, i, j);
  }

  lemma EmptyBytes()
    ensures Bytes("") == 0
  {
  }

  /** The parser returns for a legacy rule unless what it lost, counted back in bytes from the header's end, ends inside
      a character: exactly then the slice panics. */
  lemma PanicsIff(s: string)
    ensures ParsedHeader(s).Panics?
       <==> && IsLegacyRule(s) && !StopOf(s).Exhausted?
            && !TailOfBytes(s, StopOf(s).at, StopOf(s).lost)
  {
    hide StopOf, IndexAt, Bytes, FieldsFrom, IsLegacyRule;
    if IsLegacyRule(s) && !StopOf(s).Exhausted? {
      var stop := StopOf(s);
      BoundaryIffTail(s, stop.at, stop.lost);
      BytesOfPart(s, stop.at, |s|);
      assert s[..|s|] == s;
      if SliceOffset(s) >= Bytes(s) {
        assert stop.lost == 0;
        EmptyBytes();
        assert s[stop.at..stop.at] == "";
        assert TailOfBytes(s, stop.at, stop.lost);
      }
    }
  }

  /** A header of ASCII characters never makes the parser panic, whatever the body is. */
  lemma AsciiHeaderReturns(s: string)
    requires IsLegacyRule(s) && !StopOf(s).Exhausted?
    requires forall i :: 0 <= i < StopOf(s).at ==> s[i] as int < 0x80
    ensures !ParsedHeader(s).Panics?
  {
    hide StopOf, Bytes, IsLegacyRule, ParsedHeader;
    var at, lost := StopOf(s).at, StopOf(s).lost;
    AsciiBytes(s[..at]);
    PanicsIff(s);
    assert lost <= at;
    AsciiBytes(s[at - lost..at]);
    assert TailOfBytes(s, at, lost);
  }

  lemma {:induction false} AsciiBytes(s: string)
    requires forall i :: 0 <= i < |s| ==> s[i] as int < 0x80
    ensures Bytes(s) == |s|
  {
    if s != "" {
      AsciiBytes(s[1..]);
    }
  }

  /** The parser returns the text after the header exactly when the marker line is bare and no line up to the header's
      end is terminated by CRLF; otherwise the body is another one, or none. A header that runs to the end of the text
      has an empty body. */
  lemma BodyIsTextIff(s: string)
    requires IsLegacyRule(s)
    ensures (ParsedHeader(s).Parsed? && ParsedHeader(s).header.body == TextAfterHeader(s))
       <==> (StopOf(s).Exhausted? || ("RULE\n" <= s && NoCrLf(s, 0, StopOf(s).at)))
  {
    hide EndOfLine, TrimEnd, Line, Scan, NoCrLf, StopOf, BodyFrom, FieldsFrom, IsLegacyRule, LineEnd, Bytes;
    var stop := StopOf(s);
    if !stop.Exhausted? {
      CountRightIff(s);
      StopIsLineEnd(s);
      WrongOffsetWrongBody(s, stop);
    }
  }

  lemma StopIsLineEnd(s: string)
    requires IsLegacyRule(s) && !StopOf(s).Exhausted?
    ensures LineEnd(s, StopOf(s).at)
  {
    hide TrimEnd, Line, Scan, EndOfLine, StopOf, IsLegacyRule, Bytes;
    Opening(s);
    StopsAtLineEnd(s, EndOfLine(s, 0) + 1);
  }

  lemma WrongOffsetWrongBody(s: string, stop: Stop)
    requires !stop.Exhausted? && LineEnd(s, stop.at) && stop.lost <= Bytes(s[..stop.at])
    ensures BodyFrom(s, Bytes(s[..stop.at]) - stop.lost) == Some(if stop.at == |s| then "" else s[stop.at + 1..])
       <==> stop.lost == 0
  {
    hide Bytes, IndexAt;
    var at, offset := stop.at, Bytes(s[..stop.at]) - stop.lost;
    BoundaryIffTail(s, at, stop.lost);
    BytesOfPart(s, at, |s|);
    assert s[..|s|] == s;
    if at < |s| { NonEmptyBytes(s[at..]); }
    IndexAtBoundary(s, at);
    EmptyBytes();
  }

  // ---- Printing and parsing --------------------------------------------------------------

  /** A field the header format can carry. */
  ghost predicate Printable(field: (string, string)) {
    && field.0 != "" && Trim(field.0) == field.0 && ':' !in field.0 && '\n' !in field.0
    && Trim(field.1) == field.1 && '\n' !in field.1
  }

  function FieldLine(field: (string, string)): string {
    field.0 + ":" + field.1
  }

  function PrintFields(fields: seq<(string, string)>): string {
    if fields == [] then "" else FieldLine(fields[0]) + "\n" + PrintFields(fields[1..])
  }

  function Print(fields: seq<(string, string)>, body: string): string {
    "RULE\n" + PrintFields(fields) + "---\n" + body
  }

  /** The map that inserting the fields in order leaves. */
  function LastWins(fields: seq<(string, string)>): map<string, string> {
    if fields == [] then map[] else map[fields[0].0 := fields[0].1] + LastWins(fields[1..])
  }

  lemma {:induction false} TrimStartShape(s: string)
    ensures |TrimStart(s)| <= |s|
    ensures s != "" && Whitespace(s[0]) ==> |TrimStart(s)| < |s|
  {
    if s != "" && Whitespace(s[0]) {
      TrimStartShape(s[1..]);
    }
  }

  /** A trimmed string does not end in whitespace. */
  lemma TrimmedEnd(s: string)
    requires Trim(s) == s
    ensures s == "" || !Whitespace(s[|s| - 1])
  {
    hide TrimEnd, TrimStart, Whitespace;
    TrimStartShape(TrimEnd(s));
  }

  lemma TrimEndFixed(s: string)
    requires s == "" || !Whitespace(s[|s| - 1])
    ensures TrimEnd(s) == s
  {
  }

  /** A printed field line is read back as it was written. */
  lemma FieldLineReadsBack(field: (string, string))
    requires Printable(field)
    ensures var line := FieldLine(field);
            && TrimEnd(line) == line && '\n' !in line && line[|line| - 1] != '\r'
            && ':' in line && FieldOf(line) == Some(field)
  {
    hide TrimEnd, TrimStart, Trim, IndexOfColon, Whitespace;
    var line := FieldLine(field);
    assert line[|field.0|] == ':';
    TrimmedEnd(field.1);
    LastOfFieldLine(field);
    TrimEndFixed(line);
    var colon := IndexOfColon(line);
    assert forall i :: 0 <= i < |field.0| ==> line[i] == field.0[i] != ':';
    assert forall i :: 0 <= i < colon ==> line[i] in line[..colon];
    assert colon == |field.0|;
    assert line[..colon] == field.0 && line[colon + 1..] == field.1;
  }

  lemma LastOfFieldLine(field: (string, string))
    requires field.1 == "" || !Whitespace(field.1[|field.1| - 1])
    ensures var line := FieldLine(field); !Whitespace(line[|line| - 1]) && line[|line| - 1] != '\r'
  {
  }

  /** One LF-terminated line in the middle of a text. */
  lemma LineInside(s: string, pre: string, line: string, post: string)
    requires s == pre + line + "\n" + post && '\n' !in line && (line == "" || line[|line| - 1] != '\r')
    ensures EndOfLine(s, |pre|) == |pre| + |line|
    ensures Line(s, |pre|) == line && Dropped(s, |pre|) == 0
  {
    hide EndOfLine;
    var end := |pre| + |line|;
    assert forall i :: |pre| <= i < end ==> s[i] == line[i - |pre|];
    EndOfLineAt(s, |pre|, end);
    assert s[|pre|..end] == line;
  }

  /** The scan past one printed field. */
  lemma ScanField(s: string, pre: string, field: (string, string), post: string)
    requires pre != "" && s == pre + FieldLine(field) + "\n" + post && Printable(field)
    ensures var next := |pre| + |FieldLine(field)| + 1;
            && Scan(s, |pre|) == Scan(s, next)
            && FieldsFrom(s, |pre|) == map[field.0 := field.1] + FieldsFrom(s, next)
  {
    hide EndOfLine, Line, Dropped, TrimEnd, Printable, FieldOf, FieldLine, Scan, FieldsFrom;
    FieldLineReadsBack(field);
    LineInside(s, pre, FieldLine(field), post);
    ScanStep(s, |pre|, 0);
    FieldsStep(s, |pre|, map[]);
    assert map[] + FieldsFrom(s, |pre|) == FieldsFrom(s, |pre|);
  }

  /** The scan at the printed separator. */
  lemma ScanSeparator(s: string, pre: string, body: string)
    requires pre != "" && s == pre + "---" + "\n" + body
    ensures Scan(s, |pre|) == Separator(|pre| + 3, 0)
    ensures FieldsFrom(s, |pre|) == map[]
  {
    hide EndOfLine, Line, Dropped, TrimEnd, FieldOf, Scan;
    LineInside(s, pre, "---", body);
    TrimEndFixed("---");
    ScanStep(s, |pre|, 0);
  }

  lemma {:induction false} ScanPrinted(s: string, pre: string, fields: seq<(string, string)>, body: string)
    requires pre != "" && s == pre + PrintFields(fields) + "---\n" + body
    requires forall i :: 0 <= i < |fields| ==> Printable(fields[i])
    ensures Scan(s, |pre|) == Separator(|pre| + |PrintFields(fields)| + 3, 0)
    ensures FieldsFrom(s, |pre|) == LastWins(fields)
    decreases |fields|
  {
    hide Printable, FieldLine, Scan, FieldsFrom;
    if fields == [] {
      assert s == pre + "---" + "\n" + body;
      ScanSeparator(s, pre, body);
    } else {
      var line, post := FieldLine(fields[0]), PrintFields(fields[1..]) + "---\n" + body;
      var longer := pre + line + "\n";
      PrintedFirst(pre, fields, body);
      assert s == pre + line + "\n" + post;
      ScanField(s, pre, fields[0], post);
      ScanPrinted(s, longer, fields[1..], body);
    }
  }

  lemma PrintedFirst(pre: string, fields: seq<(string, string)>, body: string)
    requires fields != []
    ensures var line, rest := FieldLine(fields[0]), PrintFields(fields[1..]);
            && pre + PrintFields(fields) + "---\n" + body == pre + line + "\n" + (rest + "---\n" + body)
            && pre + PrintFields(fields) + "---\n" + body == (pre + line + "\n") + rest + "---\n" + body
            && |PrintFields(fields)| == |line| + 1 + |rest|
  {
    hide FieldLine;
    assert PrintFields(fields) == FieldLine(fields[0]) + "\n" + PrintFields(fields[1..]);
    hide PrintFields;
    Regroup(pre, FieldLine(fields[0]), PrintFields(fields[1..]), "---\n", body);
  }

  lemma Regroup(pre: string, line: string, rest: string, separator: string, body: string)
    ensures pre + (line + "\n" + rest) + separator + body == pre + line + "\n" + (rest + separator + body)
    ensures pre + (line + "\n" + rest) + separator + body == (pre + line + "\n") + rest + separator + body
  {
  }

  /** Parsing a printed rule gives back its fields, the last value of each key winning, and the body unchanged. */
  lemma ParseOfPrint(fields: seq<(string, string)>, body: string)
    requires forall i :: 0 <= i < |fields| ==> Printable(fields[i])
    ensures ParsedHeader(Print(fields, body)) == Parsed(Header(LastWins(fields), body))
  {
    hide Printable, Scan, FieldsFrom, PrintFields, EndOfLine, BodyFrom, LastWins, IsLegacyRule, ParsedHeader, Print;
    var s, at := Print(fields, body), 5 + |PrintFields(fields)| + 3;
    PrintShape(fields, body);
    MarkerLine(s, PrintFields(fields) + "---\n" + body);
    ScanPrinted(s, "RULE\n", fields, body);
    BodyOfPrint(PrintFields(fields), body);
    ParsedFrom(s, at, body);
  }

  lemma PrintShape(fields: seq<(string, string)>, body: string)
    ensures Print(fields, body) == "RULE\n" + PrintFields(fields) + "---\n" + body
    ensures Print(fields, body) == "RULE\n" + (PrintFields(fields) + "---\n" + body)
  {
    hide PrintFields;
  }

  lemma ParsedFrom(s: string, at: nat, body: string)
    requires IsLegacyRule(s) && EndOfLine(s, 0) == 4 && Scan(s, 5) == Separator(at, 0) && at < |s|
    requires s[at] == '\n' && s[at + 1..] == body
    ensures ParsedHeader(s) == Parsed(Header(FieldsFrom(s, 5), body))
  {
    hide Scan, FieldsFrom, EndOfLine, IsLegacyRule, Bytes, IndexAt, StopOf;
    Opening(s);
    MarkerIsBare(s);
    BytesOfPart(s, at, |s|);
    assert s[..|s|] == s;
    NonEmptyBytes(s[at..]);
    IndexAtBoundary(s, at);
  }

  lemma MarkerIsBare(s: string)
    requires IsLegacyRule(s) && EndOfLine(s, 0) == 4
    ensures Bytes(s[..4]) == 4
  {
    hide TrimEnd, EndOfLine, Bytes;
    LineLength(s, 0);
    var first := TrimEnd(Line(s, 0));
    assert s[..4] == first;
    MarkerCounts();
  }

  lemma MarkerLine(s: string, rest: string)
    requires s == "RULE\n" + rest
    ensures IsLegacyRule(s) && EndOfLine(s, 0) == 4
  {
    hide EndOfLine, Line, TrimEnd;
    assert s == "" + "RULE" + "\n" + rest;
    LineInside(s, "", "RULE", rest);
    TrimEndFixed("RULE");
  }

  lemma BodyOfPrint(fields: string, body: string)
    ensures var s, at := "RULE\n" + fields + "---\n" + body, 5 + |fields| + 3;
            at < |s| && s[at] == '\n' && s[at + 1..] == body
  {
    var s := "RULE\n" + fields + "---\n" + body;
    assert s == ("RULE\n" + fields + "---") + "\n" + body;
  }

  // ---- Where the count goes wrong ------------------------------------------------------------

  /** A marker line with one trailing space: the separator's last dash becomes part of the body. */
  lemma TrailingSpaceShiftsBody(body: string)
    ensures var s := "RULE " + "\n" + "---" + "\n" + body;
            && IsLegacyRule(s)
            && ParsedHeader(s) == Parsed(Header(map[], "-\n" + body))
            && TextAfterHeader(s) == body
  {
    hide EndOfLine, Line, Dropped, Scan, FieldsFrom, Whitespace, StopOf, Bytes, BodyFrom;
    var s := "RULE " + "\n" + "---" + "\n" + body;
    SpacedMarker(s, "---" + "\n" + body);
    assert s == "RULE \n" + "---" + "\n" + body;
    ScanSeparator(s, "RULE \n", body);
    assert s[9] == '\n' && s[9 + 1..] == body;
    assert s[..9] == "RULE \n---" && s[8] == '-' && s[8..] == "-\n" + body;
    AsciiBytes(s[..9]);
    AsciiBytes(s[..8]);
    BodyAtBoundary(s, 8);
  }

  /** A marker line with one trailing space loses one byte. */
  lemma SpacedMarker(s: string, rest: string)
    requires s == "RULE " + "\n" + rest
    ensures IsLegacyRule(s) && EndOfLine(s, 0) == 5 && StopOf(s) == Later(Scan(s, 6), 1)
    ensures map[] + FieldsFrom(s, 6) == FieldsFrom(s, 6)
  {
    hide EndOfLine, Line, Dropped, Scan, FieldsFrom, Whitespace, StopOf, Bytes;
    assert s == "" + "RULE " + "\n" + rest;
    LineInside(s, "", "RULE ", rest);
    SpaceTrimmed();
    Opening(s);
    assert s[..5] == "RULE ";
    AsciiBytes(s[..5]);
  }

  lemma SpaceTrimmed()
    ensures TrimEnd("RULE ") == "RULE"
  {
    assert "RULE "[..4] == "RULE";
    TrimEndFixed("RULE");
  }

  lemma BodyAtBoundary(s: string, i: nat)
    requires i < |s| && s[i] != '\n'
    ensures BodyFrom(s, Bytes(s[..i])) == Some(s[i..])
  {
    hide Bytes, IndexAt;
    IndexAtBoundary(s, i);
    BytesOfPart(s, i, |s|);
    assert s[..|s|] == s;
    NonEmptyBytes(s[i..]);
  }

  /** The same trailing space before a header that ends in a character of several bytes: the parser panics. */
  lemma TrailingSpacePanics()
    ensures ParsedHeader("RULE \nk:\U{E9}\nbody").Panics?
  {
    hide EndOfLine, Line, Dropped, Scan, FieldsFrom, Whitespace, StopOf, Bytes, ParsedHeader, FieldOf, TrimEnd;
    var s, line := "RULE \nk:\U{E9}\nbody", "k:\U{E9}";
    SpacedMarker(s, line + "\n" + "body");
    LineInside(s, "RULE \n", line, "body");
    LineTrimmed();
    ScanStep(s, 6, 1);
    BodyLineStops(s);
    assert StopOf(s) == BodyLine(9, 1);
    PanicsIff(s);
    NoTailOfOneByte(s);
  }

  lemma LineTrimmed()
    ensures TrimEnd("k:\U{E9}") == "k:\U{E9}"
  {
  }

  lemma BodyLineStops(s: string)
    requires s == "RULE \nk:\U{E9}\nbody"
    ensures Later(Scan(s, 10), 1) == BodyLine(9, 1)
  {
    hide EndOfLine, Line, Dropped, Scan, TrimEnd;
    EndOfLineAt(s, 10, 14);
    LastLine(s);
    TrimmedBody();
    ScanStep(s, 10, 1);
  }

  lemma LastLine(s: string)
    requires s == "RULE \nk:\U{E9}\nbody" && EndOfLine(s, 10) == 14
    ensures Line(s, 10) == "body"
  {
    hide EndOfLine;
  }

  lemma TrimmedBody()
    ensures TrimEnd("body") == "body"
  {
  }

  lemma NoTailOfOneByte(s: string)
    requires s == "RULE \nk:\U{E9}\nbody"
    ensures !TailOfBytes(s, 9, 1)
  {
    forall i | 0 <= i <= 9
      ensures Bytes(s[i..9]) != 1
    {
      if i < 9 {
        BytesOfPart(s[i..], 8 - i, 9 - i);
        assert s[i..][..9 - i] == s[i..9] && s[i..][8 - i..9 - i] == ['\U{E9}'];
        assert Bytes(['\U{E9}']) == 2;
      }
    }
  }

  // ---- Scope ---------------------------------------------------------------------------------

  const TENANT_GLOBAL := "global"

  function RawScope(h: Header): Option<string> {
    if "scope" in h.fields && h.fields["scope"] != "" then Some(h.fields["scope"]) else None
  }

  function SplitScope(h: Header): (string, Option<string>) {
    match RawScope(h)
    case None => (TENANT_GLOBAL, None)
    case Some(s) =>
      if s == TENANT_GLOBAL then (TENANT_GLOBAL, None)
      else if "project:" <= s then ("project", Some(s[8..]))
      else (s, None)
  }

  /** The split loses nothing but the difference between `global`, an empty scope and no scope. */
  lemma SameScopeIff(g: Header, h: Header)
    ensures SplitScope(g) == SplitScope(h)
        <==> ((if RawScope(g).Some? then RawScope(g).value else TENANT_GLOBAL)
              == (if RawScope(h).Some? then RawScope(h).value else TENANT_GLOBAL))
  {
    forall x: Header | RawScope(x).Some? && "project:" <= RawScope(x).value
      ensures RawScope(x).value == "project:" + RawScope(x).value[8..]
    {
    }
  }
}
