/** The header of legacy rules: a `RULE` line, `key:value` lines, a `---` line, then the body.

    The parser reads lines without their terminators and recovers the body's byte offset by adding up line lengths, so it
    loses count of everything a line reader drops. Text is a sequence of characters; lengths and offsets count the bytes
    of its UTF-8 form, and slicing inside a character panics. */
module RuleHeader {
  import opened Wrappers

  const RULE_HEADER_MARKER := "RULE"
  const RULE_BODY_SEPARATOR := "---"

  datatype Header = Header(fields: map<string, string>, body: string)

  /** The outcomes of the parser. */
  datatype Parse = NoHeader | Panics | Parsed(header: Header)

  // ---- Bytes -----------------------------------------------------------------------

  /** The length of a character in UTF-8 (RFC 3629, section 3). */
  function CharBytes(c: char): (n: nat)
    ensures 1 <= n <= 4
  {
    var u := c as int;
    if u < 0x80 then 1 else if u < 0x800 then 2 else if u < 0x10000 then 3 else 4
  }

  /** The length of a text in bytes. */
  function Bytes(s: string): (n: nat)
    ensures n >= |s|
  {
    if s == "" then 0 else CharBytes(s[0]) + Bytes(s[1..])
  }

  lemma {:induction false} BytesConcat(a: string, b: string)
    ensures Bytes(a + b) == Bytes(a) + Bytes(b)
  {
    if a == "" {
      assert a + b == b;
    } else {
      assert (a + b)[1..] == a[1..] + b;
      BytesConcat(a[1..], b);
    }
  }

  lemma BytesOfPart(s: string, i: nat, j: nat)
    requires i <= j <= |s|
    ensures Bytes(s[..j]) == Bytes(s[..i]) + Bytes(s[i..j])
  {
    BytesConcat(s[..i], s[i..j]);
    assert s[..j] == s[..i] + s[i..j];
  }

  /** The character that starts at a byte offset; none when the offset is past the end or inside a character. */
  function IndexAt(s: string, offset: nat): (i: Option<nat>)
    ensures i.Some? ==> i.value <= |s| && Bytes(s[..i.value]) == offset
  {
    if offset == 0 then Some(0)
    else if s == "" || offset < CharBytes(s[0]) then None
    else
      var rest := IndexAt(s[1..], offset - CharBytes(s[0]));
      if rest.None? then None
      else
        assert s[..rest.value + 1] == [s[0]] + s[1..][..rest.value];
        BytesConcat([s[0]], s[1..][..rest.value]);
        assert Bytes([s[0]]) == CharBytes(s[0]) + Bytes([s[0]][1..]);
        Some(rest.value + 1)
  }

  lemma {:induction false} IndexAtBoundary(s: string, i: nat)
    requires i <= |s|
    ensures IndexAt(s, Bytes(s[..i])) == Some(i)
  {
    if i > 0 {
      assert s[..i][1..] == s[1..][..i - 1];
      IndexAtBoundary(s[1..], i - 1);
    }
  }

  /** The Unicode property White_Space. */
  predicate Whitespace(c: char) {
    var u := c as int;
    || 9 <= u <= 13 || u == 0x20 || u == 0x85 || u == 0xA0 || u == 0x1680 || 0x2000 <= u <= 0x200A
    || u == 0x2028 || u == 0x2029 || u == 0x202F || u == 0x205F || u == 0x3000
  }

  function TrimEnd(s: string): (t: string)
    ensures t <= s && (t == "" || !Whitespace(t[|t| - 1]))
  {
    if s != "" && Whitespace(s[|s| - 1]) then TrimEnd(s[..|s| - 1]) else s
  }

  function TrimStart(s: string): string {
    if s != "" && Whitespace(s[0]) then TrimStart(s[1..]) else s
  }

  function Trim(s: string): string {
    TrimStart(TrimEnd(s))
  }

  // ---- Lines ---------------------------------------------------------------------

  /** The index of the LF that ends the line starting at `start`, or the length of the text. */
  function EndOfLine(s: string, start: nat): (end: nat)
    requires start <= |s|
    ensures start <= end <= |s| && (end < |s| ==> s[end] == '\n')
    ensures forall i :: start <= i < end ==> s[i] != '\n'
    decreases |s| - start
  {
    if start == |s| || s[start] == '\n' then start else EndOfLine(s, start + 1)
  }

  /** Whether the line's terminator is CRLF; the line reader then drops both characters. */
  predicate EndsInCrLf(s: string, start: nat)
    requires start <= |s|
  {
    var end := EndOfLine(s, start);
    start < end < |s| && s[end - 1] == '\r'
  }

  /** A line as the line reader yields it. A CR at the very end of the text is kept. */
  function Line(s: string, start: nat): string
    requires start <= |s|
  {
    var end := EndOfLine(s, start);
    if EndsInCrLf(s, start) then s[start..end - 1] else s[start..end]
  }

  // ---- Where the header ends -----------------------------------------------------------

  /** `lost` counts the bytes the reader dropped on the way. */
  datatype Stop =
    | Separator(at: nat, lost: nat)  // the separator line ends at `at`
    | BodyLine(at: nat, lost: nat)   // the line after the terminator at `at` is not a header line
    | Exhausted

  function Later(stop: Stop, lost: nat): Stop {
    if stop.Exhausted? then stop else stop.(lost := lost + stop.lost)
  }

  function Dropped(s: string, start: nat): nat
    requires start <= |s|
  {
    if EndsInCrLf(s, start) then 1 else 0
  }

  /** The end of the header whose next line starts at `start`. */
  function Scan(s: string, start: nat): (stop: Stop)
    requires start > 0
    ensures stop.Separator? ==> start <= stop.at <= |s|
    ensures stop.BodyLine? ==> start - 1 <= stop.at < |s|
    decreases |s| - start
  {
    if start >= |s| then Exhausted
    else
      var line := TrimEnd(Line(s, start));
      if line == RULE_BODY_SEPARATOR then Separator(EndOfLine(s, start), Dropped(s, start))
      else if ':' in line || line == "" then Later(Scan(s, EndOfLine(s, start) + 1), Dropped(s, start))
      else BodyLine(start - 1, 0)
  }

  /** The first `:` splits a line into key and value; an empty key is ignored. */
  function FieldOf(line: string): (field: Option<(string, string)>)
  {
    if ':' !in line then None
    else
      var colon := IndexOfColon(line);
      var key := Trim(line[..colon]);
      if key == "" then None else Some((key, Trim(line[colon + 1..])))
  }

  function IndexOfColon(line: string): (i: nat)
    requires ':' in line
    ensures i < |line| && line[i] == ':' && ':' !in line[..i]
  {
    if line[0] == ':' then 0
    else
      assert line == [line[0]] + line[1..];
      var i := 1 + IndexOfColon(line[1..]);
      assert line[..i] == [line[0]] + line[1..][..i - 1];
      i
  }

  function Insert(fields: map<string, string>, field: Option<(string, string)>): map<string, string> {
    if field.Some? then fields[field.value.0 := field.value.1] else fields
  }

  /** The fields of the header lines from `start` on; a later line overrides an earlier one. */
  function FieldsFrom(s: string, start: nat): map<string, string>
    decreases |s| - start
  {
    if start >= |s| then map[]
    else
      var line := TrimEnd(Line(s, start));
      if line == RULE_BODY_SEPARATOR || (':' !in line && line != "") then map[]
      else Insert(map[], FieldOf(line)) + FieldsFrom(s, EndOfLine(s, start) + 1)
  }

  /** The body read at a byte offset that is meant to be that of a line terminator; none when the slice panics. */
  function BodyFrom(s: string, offset: nat): Option<string> {
    if offset >= Bytes(s) then Some("")
    else
      var i := IndexAt(s, offset);
      if i.None? then None
      else if i.value < |s| && s[i.value] == '\n' then Some(s[i.value + 1..])
      else Some(s[i.value..])
  }

  predicate IsLegacyRule(s: string) {
    s != "" && TrimEnd(Line(s, 0)) == RULE_HEADER_MARKER
  }

  /** The header's end, counting everything dropped since the start of the text. */
  function StopOf(s: string): (stop: Stop)
    requires IsLegacyRule(s)
    ensures !stop.Exhausted? ==> stop.at <= |s| && stop.lost <= Bytes(s[..stop.at])
  {
    var end := EndOfLine(s, 0);
    ScanLosesLittle(s, end + 1);
    MarkerBytes(s);
    var stop := Scan(s, end + 1);
    if stop.Exhausted? then stop
    else
      BytesOfPart(s, end, stop.at);
      Later(stop, Bytes(s[..end]) - |RULE_HEADER_MARKER|)
  }

  /** The marker line is at least as long as the marker. */
  lemma MarkerBytes(s: string)
    requires IsLegacyRule(s)
    ensures var end := EndOfLine(s, 0);
            && |RULE_HEADER_MARKER| <= end <= Bytes(s[..end]) && (Bytes(s[..end]) == |RULE_HEADER_MARKER| ==> end == 4)
  {
    hide EndOfLine, TrimEnd, Bytes;
    LineLength(s, 0);
  }

  lemma {:induction false} ScanLosesLittle(s: string, start: nat)
    requires start > 0
    ensures var stop := Scan(s, start); !stop.Exhausted? ==> start - 1 + stop.lost <= stop.at
    decreases |s| - start
  {
    hide EndOfLine, TrimEnd, Line, Dropped, Scan;
    if start >= |s| {
      NothingAfter(s, start);
    } else {
      ScanStep(s, start, 0);
      LineLength(s, start);
      ScanLosesLittle(s, EndOfLine(s, start) + 1);
    }
  }

  function ParsedHeader(s: string): Parse {
    if !IsLegacyRule(s) then NoHeader
    else
      var stop := StopOf(s);
      var body := if stop.Exhausted? then Some("") else BodyFrom(s, Bytes(s[..stop.at]) - stop.lost);
      if body.None? then Panics else Parsed(Header(FieldsFrom(s, EndOfLine(s, 0) + 1), body.value))
  }

  lemma LineLength(s: string, start: nat)
    requires start <= |s|
    ensures |Line(s, start)| + Dropped(s, start) == EndOfLine(s, start) - start
  {
    hide EndOfLine;
  }

  /** Reading one more line: how the count of dropped characters moves, and where the header then ends. */
  lemma ScanStep(s: string, start: nat, lost: nat)
    requires 0 < start < |s|
    ensures var line, end := TrimEnd(Line(s, start)), EndOfLine(s, start);
            Later(Scan(s, start), lost) ==
            if line == RULE_BODY_SEPARATOR then Separator(end, lost + Dropped(s, start))
            else if ':' in line || line == "" then Later(Scan(s, end + 1), lost + Dropped(s, start))
            else BodyLine(start - 1, lost)
  {
    hide EndOfLine, Line, Dropped, TrimEnd;
  }

  lemma MergeInsert(fields: map<string, string>, field: Option<(string, string)>, rest: map<string, string>)
    ensures fields + (Insert(map[], field) + rest) == Insert(fields, field) + rest
  {
  }

  /** The bytes up to a line's end, from the bytes up to the terminator before it. */
  lemma LineBytes(s: string, start: nat)
    requires 0 < start <= |s| && s[start - 1] == '\n'
    ensures Bytes(s[..EndOfLine(s, start)]) == Bytes(s[..start - 1]) + 1 + Bytes(Line(s, start)) + Dropped(s, start)
  {
    hide EndOfLine;
    var end, line := EndOfLine(s, start), Line(s, start);
    BytesOfPart(s, start - 1, end);
    assert s[start - 1..end] == "\n" + s[start..end];
    BytesConcat("\n", s[start..end]);
    OneByte('\n');
    if EndsInCrLf(s, start) {
      assert s[start..end] == line + "\r";
      BytesConcat(line, "\r");
      OneByte('\r');
    }
  }

  lemma OneByte(c: char)
    requires c as int < 0x80
    ensures Bytes([c]) == 1
  {
  }

  method ParseRuleHeader(content: string) returns (r: Parse)
    ensures r == ParsedHeader(content)
  {
    hide EndOfLine, Line, Dropped, TrimEnd, TrimStart, Trim, IndexOfColon, Scan, FieldsFrom, EndsInCrLf;
    hide FieldOf, Insert, BodyFrom, Whitespace, StopOf, Bytes;
    if content == "" { return NoHeader; }
    var first := TrimEnd(Line(content, 0));
    if first != RULE_HEADER_MARKER { return NoHeader; }
    MarkerCounts();
    var fields: map<string, string> := map[];
    var bodyStart: Option<nat> := None;
    var consumed := Bytes(first);
    var next := EndOfLine(content, 0) + 1;
    ghost var all, stop := FieldsFrom(content, next), StopOf(content);
    ghost var lost := Bytes(content[..next - 1]) - consumed;
    Opening(content);
    while next < |content|
      invariant 1 <= next <= |content| + 1
      invariant next <= |content| ==> content[next - 1] == '\n'
      invariant lost >= 0 && consumed + lost == Bytes(content[..next - 1])
      invariant bodyStart == None
      invariant fields + FieldsFrom(content, next) == all
      invariant Later(Scan(content, next), lost) == stop
      decreases |content| - next
    {
      var line := Line(content, next);
      LineBytes(content, next);
      ScanStep(content, next, lost);
      FieldsStep(content, next, fields);
      consumed := consumed + 1 + Bytes(line);
      ghost var before := lost;
      lost := lost + Dropped(content, next);
      var trimmed := TrimEnd(line);
      if trimmed == RULE_BODY_SEPARATOR {
        bodyStart := Some(consumed);
        break;
      }
      if ':' in trimmed {
        var colon := IndexOfColon(trimmed);
        var key, value := Trim(trimmed[..colon]), Trim(trimmed[colon + 1..]);
        FieldOfLine(trimmed, fields);
        if key != "" {
          fields := fields[key := value];
        }
      } else if trimmed == "" {
        NoFieldOfBlank(fields);
      } else {
        lost := before;
        bodyStart := Some(consumed - Bytes(line) - 1);
        break;
      }
      next := EndOfLine(content, next) + 1;
    }
    if bodyStart.None? {
      NothingAfter(content, next);
      assert fields + map[] == fields;
    }
    var body := match bodyStart
      case None => Some("")
      case Some(offset) => BodyFrom(content, offset);
    if body.None? { return Panics; }
    r := Parsed(Header(fields, body.value));
  }

  lemma MarkerCounts()
    ensures Bytes(RULE_HEADER_MARKER) == |RULE_HEADER_MARKER|
  {
    assert RULE_HEADER_MARKER[1..][1..][1..][1..] == "";
  }

  lemma FieldsStep(s: string, start: nat, fields: map<string, string>)
    requires start < |s|
    ensures var line := TrimEnd(Line(s, start));
            fields + FieldsFrom(s, start) ==
            if line == RULE_BODY_SEPARATOR || (':' !in line && line != "") then fields
            else Insert(fields, FieldOf(line)) + FieldsFrom(s, EndOfLine(s, start) + 1)
  {
    hide EndOfLine, Line, TrimEnd, FieldOf;
    var line := TrimEnd(Line(s, start));
    MergeInsert(fields, FieldOf(line), FieldsFrom(s, EndOfLine(s, start) + 1));
  }

  lemma FieldOfLine(line: string, fields: map<string, string>)
    requires ':' in line
    ensures var colon := IndexOfColon(line);
            var key, value := Trim(line[..colon]), Trim(line[colon + 1..]);
            Insert(fields, FieldOf(line)) == if key == "" then fields else fields[key := value]
  {
    hide IndexOfColon, Trim;
  }

  lemma NoFieldOfBlank(fields: map<string, string>)
    ensures Insert(fields, FieldOf("")) == fields
  {
  }

  lemma Opening(s: string)
    requires IsLegacyRule(s)
    ensures var end := EndOfLine(s, 0);
            && |RULE_HEADER_MARKER| <= Bytes(s[..end])
            && StopOf(s) == Later(Scan(s, end + 1), Bytes(s[..end]) - |RULE_HEADER_MARKER|)
    ensures map[] + FieldsFrom(s, EndOfLine(s, 0) + 1) == FieldsFrom(s, EndOfLine(s, 0) + 1)
  {
    hide EndOfLine, TrimEnd, Scan, FieldsFrom, Bytes;
    MarkerBytes(s);
  }

  lemma NothingAfter(s: string, start: nat)
    requires start > 0 && start >= |s|
    ensures Scan(s, start) == Exhausted && FieldsFrom(s, start) == map[]
  {
  }
}
