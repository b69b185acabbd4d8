/** Header lines as people write them: spaces around keys and values, blank lines, lines without a key; and what the
    parser's counts mean in UTF-8. */
module RuleReading {
  import opened Wrappers
  import opened RuleHeader
  import opened RuleRoundTrip
  import Utf8

  // ---- Characters ------------------------------------------------------------------------------------------

  /** The code points with the Unicode property White_Space. */
  const WHITE_SPACE := [
    0x9, 0xA, 0xB, 0xC, 0xD, 0x20, 0x85, 0xA0, 0x1680,
    0x2000, 0x2001, 0x2002, 0x2003, 0x2004, 0x2005, 0x2006, 0x2007, 0x2008, 0x2009, 0x200A,
    0x2028, 0x2029, 0x202F, 0x205F, 0x3000]

  lemma WhitespaceExactly(c: char)
    ensures Whitespace(c) <==> c as int in WHITE_SPACE
  {
    var u := c as int;
    if 9 <= u <= 13 { assert WHITE_SPACE[u - 9] == u; }
    if 0x2000 <= u <= 0x200A { assert WHITE_SPACE[u - 0x2000 + 9] == u; }
    assert WHITE_SPACE[5..9] == [0x20, 0x85, 0xA0, 0x1680];
    assert WHITE_SPACE[20..] == [0x2028, 0x2029, 0x202F, 0x205F, 0x3000];
    assert WHITE_SPACE == WHITE_SPACE[..5] + WHITE_SPACE[5..9] + WHITE_SPACE[9..20] + WHITE_SPACE[20..];
  }

  /** The code points of a text. */
  function Codes(s: string): (cs: Utf8.Text)
    ensures |cs| == |s| && forall i :: 0 <= i < |s| ==> cs[i] == s[i] as int
  {
    seq(|s|, i requires 0 <= i < |s| => s[i] as int)
  }

  lemma CharBytesAreUtf8(c: char)
    ensures CharBytes(c) == |Utf8.Encode(c as int)|
  {
  }

  /** Lengths and offsets are those of the text's UTF-8 form. */
  lemma {:induction false} BytesAreUtf8(s: string)
    ensures Bytes(s) == |Utf8.EncodeAll(Codes(s))|
  {
    hide Utf8.Encode, CharBytes;
    if s != "" {
      CharBytesAreUtf8(s[0]);
      BytesAreUtf8(s[1..]);
      assert Codes(s)[1..] == Codes(s[1..]);
    }
  }

  // ---- What a legacy rule is -------------------------------------------------------------------------------

  ghost predicate AllWhite(s: string) {
    forall i :: 0 <= i < |s| ==> Whitespace(s[i])
  }

  lemma {:induction false} TrimEndCuts(s: string)
    ensures TrimEnd(s) <= s && AllWhite(s[|TrimEnd(s)|..])
  {
    hide Whitespace;
    if s != "" && Whitespace(s[|s| - 1]) {
      var init := s[..|s| - 1];
      TrimEndCuts(init);
      assert s[|TrimEnd(s)|..] == init[|TrimEnd(s)|..] + [s[|s| - 1]];
    }
  }

  lemma {:induction false} TrimEndOf(t: string, w: string)
    requires (t == "" || !Whitespace(t[|t| - 1])) && AllWhite(w)
    ensures TrimEnd(t + w) == t
  {
    hide Whitespace;
    if w != "" {
      assert (t + w)[..|t + w| - 1] == t + w[..|w| - 1];
      TrimEndOf(t, w[..|w| - 1]);
    } else {
      assert t + w == t;
    }
  }

  /** `s` is the marker, white space on its line, and the rest from the line's end on. */
  ghost predicate Marked(s: string, w: string, rest: string) {
    s == "RULE" + w + rest && AllWhite(w) && '\n' !in w && (rest == "" || rest[0] == '\n')
  }

  /** A text is a legacy rule exactly when it starts with the marker, followed on its line by white space only. */
  lemma LegacyIff(s: string)
    ensures IsLegacyRule(s) <==> exists w, rest :: Marked(s, w, rest)
  {
    hide Marked, IsLegacyRule;
    if IsLegacyRule(s) {
      LegacyIsMarked(s);
    }
    if exists w, rest :: Marked(s, w, rest) {
      var w, rest :| Marked(s, w, rest);
      MarkedIsLegacy(s, w, rest);
    }
  }

  lemma LegacyIsMarked(s: string)
    requires IsLegacyRule(s)
    ensures 4 <= EndOfLine(s, 0) && Marked(s, s[4..EndOfLine(s, 0)], s[EndOfLine(s, 0)..])
  {
    hide EndOfLine, TrimEnd, Whitespace, AllWhite;
    MarkerBytes(s);
    var end := EndOfLine(s, 0);
    MarkedLine(s, s[4..end], s[end..]);
    assert s == s[..4] + s[4..end] + s[end..];
    assert forall i :: 0 <= i < end - 4 ==> s[4..end][i] == s[4 + i];
  }

  lemma LineIsFront(s: string)
    ensures var end := EndOfLine(s, 0);
            Line(s, 0) == s[..end] || (end > 0 && end < |s| && s[end - 1] == '\r' && Line(s, 0) == s[..end - 1])
  {
    hide EndOfLine;
  }

  lemma MarkedLine(s: string, w: string, rest: string)
    requires IsLegacyRule(s) && 4 <= EndOfLine(s, 0) && w == s[4..EndOfLine(s, 0)] && rest == s[EndOfLine(s, 0)..]
    ensures AllWhite(w) && s[..4] == "RULE" && (rest == "" || rest[0] == '\n')
  {
    hide EndOfLine, TrimEnd, Whitespace;
    var end, line := EndOfLine(s, 0), Line(s, 0);
    TrimEndCuts(line);
    LineIsFront(s);
    CrIsWhite();
    assert forall i :: 0 <= i < |w| ==> w[i] == s[4 + i];
    assert forall i :: 4 <= i < |line| ==> line[i] == line[4..][i - 4];
    assert line[..4] == "RULE";
  }

  lemma CrIsWhite()
    ensures Whitespace('\r')
  {
  }

  lemma MarkedIsLegacy(s: string, w: string, rest: string)
    requires Marked(s, w, rest)
    ensures IsLegacyRule(s)
  {
    hide EndOfLine, TrimEnd, Whitespace;
    var end := 4 + |w|;
    assert forall i :: 0 <= i < end ==> s[i] != '\n' by {
      assert forall i :: 4 <= i < end ==> s[i] == w[i - 4];
      assert forall i :: 0 <= i < 4 ==> s[i] == "RULE"[i];
    }
    EndOfLineAt(s, 0, end);
    assert s[..end] == "RULE" + w;
    PlainMarker();
    if EndsInCrLf(s, 0) {
      assert |w| > 0 && Line(s, 0) == "RULE" + w[..|w| - 1];
      TrimEndOf("RULE", w[..|w| - 1]);
    } else {
      assert Line(s, 0) == "RULE" + w;
      TrimEndOf("RULE", w);
    }
  }

  lemma PlainMarker()
    ensures !Whitespace("RULE"[3])
  {
  }

  // ---- Header lines ----------------------------------------------------------------------------------------

  /** A line of a header: text on both sides of its first colon, or white space. */
  datatype HeaderLine = Keyed(left: string, right: string) | Blank(space: string)

  function TextOf(line: HeaderLine): string {
    match line
    case Keyed(left, right) => left + ":" + right
    case Blank(space) => space
  }

  ghost predicate OneLineText(s: string) {
    '\n' !in s && (s == "" || s[|s| - 1] != '\r')
  }

  ghost predicate WellFormedLine(line: HeaderLine) {
    && OneLineText(TextOf(line))
    && (line.Keyed? ==> ':' !in line.left)
    && (line.Blank? ==> AllWhite(line.space))
  }

  function Written(lines: seq<HeaderLine>): string {
    if lines == [] then "" else TextOf(lines[0]) + "\n" + Written(lines[1..])
  }

  /** What a line says: trimmed key and value; nothing without a key. */
  function Says(line: HeaderLine): map<string, string> {
    if line.Keyed? && Trim(line.left) != "" then map[Trim(line.left) := Trim(line.right)] else map[]
  }

  function AllSay(lines: seq<HeaderLine>): map<string, string> {
    if lines == [] then map[] else Says(lines[0]) + AllSay(lines[1..])
  }

  lemma {:induction false} TrimEndTwice(s: string)
    ensures TrimEnd(TrimEnd(s)) == TrimEnd(s)
  {
    hide Whitespace;
    if s != "" && Whitespace(s[|s| - 1]) {
      TrimEndTwice(s[..|s| - 1]);
    }
  }

  lemma {:induction false} TrimEndBehind(a: string, s: string)
    requires a != "" && !Whitespace(a[|a| - 1])
    ensures TrimEnd(a + s) == a + TrimEnd(s)
  {
    hide Whitespace;
    if s == "" {
      assert a + s == a;
      assert a + TrimEnd("") == a;
    } else if Whitespace(s[|s| - 1]) {
      assert (a + s)[..|a + s| - 1] == a + s[..|s| - 1];
      TrimEndBehind(a, s[..|s| - 1]);
    }
  }

  lemma ColonIsNotWhite(left: string)
    ensures !Whitespace((left + ":")[|left|])
  {
  }

  lemma KeyedReads(left: string, right: string)
    requires ':' !in left
    ensures var line := TrimEnd(left + ":" + right);
            && ':' in line && line != RULE_BODY_SEPARATOR
            && FieldOf(line) == if Trim(left) == "" then None else Some((Trim(left), Trim(right)))
  {
    hide TrimEnd, TrimStart, IndexOfColon, Whitespace;
    var line := left + ":" + TrimEnd(right);
    ColonIsNotWhite(left);
    TrimEndBehind(left + ":", right);
    assert line[|left|] == ':';
    var colon := IndexOfColon(line);
    assert forall i :: 0 <= i < |left| ==> line[i] == left[i] != ':';
    assert forall i :: 0 <= i < colon ==> line[i] in line[..colon];
    assert colon == |left|;
    assert line[..colon] == left && line[colon + 1..] == TrimEnd(right);
    TrimEndTwice(right);
  }

  lemma LineReads(line: HeaderLine)
    requires WellFormedLine(line)
    ensures var t := TrimEnd(TextOf(line));
            && t != RULE_BODY_SEPARATOR && (':' in t || t == "") && Insert(map[], FieldOf(t)) == Says(line)
  {
    hide TrimEnd, Trim, FieldOf, Whitespace;
    match line
    case Keyed(left, right) => KeyedReads(left, right);
    case Blank(space) =>
      TrimEndOf("", space);
      assert "" + space == space;
      NoFieldOfBlank(map[]);
  }

  /** The scan past one header line. */
  lemma ScanLine(s: string, pre: string, line: HeaderLine, post: string)
    requires pre != "" && s == pre + TextOf(line) + "\n" + post && WellFormedLine(line)
    ensures var next := |pre| + |TextOf(line)| + 1;
            Scan(s, |pre|) == Scan(s, next) && FieldsFrom(s, |pre|) == Says(line) + FieldsFrom(s, next)
  {
    hide EndOfLine, Line, Dropped, TrimEnd, FieldOf, TextOf, Scan, FieldsFrom, Insert, Says;
    LineReads(line);
    LineInside(s, pre, TextOf(line), post);
    ScanStep(s, |pre|, 0);
    FieldsStep(s, |pre|, map[]);
    assert map[] + FieldsFrom(s, |pre|) == FieldsFrom(s, |pre|);
  }

  lemma {:induction false} ScanWritten(s: string, pre: string, lines: seq<HeaderLine>, body: string)
    requires pre != "" && s == pre + Written(lines) + "---\n" + body
    requires forall i :: 0 <= i < |lines| ==> WellFormedLine(lines[i])
    ensures Scan(s, |pre|) == Separator(|pre| + |Written(lines)| + 3, 0)
    ensures FieldsFrom(s, |pre|) == AllSay(lines)
    decreases |lines|
  {
    hide WellFormedLine, TextOf, Scan, FieldsFrom, Says;
    if lines == [] {
      assert s == pre + "---" + "\n" + body;
      ScanSeparator(s, pre, body);
    } else {
      var line, rest := TextOf(lines[0]), Written(lines[1..]);
      assert Written(lines) == line + "\n" + rest;
      Regroup(pre, line, rest, "---\n", body);
      ScanLine(s, pre, lines[0], rest + "---\n" + body);
      ScanWritten(s, pre + line + "\n", lines[1..], body);
    }
  }

  /** A header written with any spacing, with blank lines and lines without a key, gives its trimmed fields, the last
      value of a key winning, and the body untouched. */
  lemma ParseOfWritten(lines: seq<HeaderLine>, body: string)
    requires forall i :: 0 <= i < |lines| ==> WellFormedLine(lines[i])
    ensures ParsedHeader("RULE\n" + Written(lines) + "---\n" + body) == Parsed(Header(AllSay(lines), body))
  {
    hide WellFormedLine, Scan, FieldsFrom, Written, EndOfLine, BodyFrom, AllSay, IsLegacyRule, ParsedHeader;
    var s, at := "RULE\n" + Written(lines) + "---\n" + body, 5 + |Written(lines)| + 3;
    assert s == "RULE\n" + (Written(lines) + "---\n" + body);
    MarkerLine(s, Written(lines) + "---\n" + body);
    ScanWritten(s, "RULE\n", lines, body);
    BodyOfPrint(Written(lines), body);
    ParsedFrom(s, at, body);
  }

  // ---- Scope -----------------------------------------------------------------------------------------------

  /** The scope that a tenant and a project stand for. */
  function ScopeText(scope: (string, Option<string>)): string {
    if scope.1.Some? then scope.0 + ":" + scope.1.value else scope.0
  }

  /** The split can be undone: no scope, an empty one and `global` all mean `global`. */
  lemma ScopeIsRebuilt(h: Header)
    ensures ScopeText(SplitScope(h))
         == if "scope" in h.fields && h.fields["scope"] != "" then h.fields["scope"] else "global"
    ensures SplitScope(h).1.Some? <==> "scope" in h.fields && "project:" <= h.fields["scope"]
  {
    if "scope" in h.fields && "project:" <= h.fields["scope"] {
      var raw := h.fields["scope"];
      assert raw == "project:" + raw[8..];
      assert "project" + ":" == "project:";
      assert raw[0] != TENANT_GLOBAL[0];
    }
  }
}
