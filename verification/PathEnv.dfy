/** Expansion of `~` and variables in a PATH segment.

    The environment and the home directory are parameters. The `$` scanner is stated against templates: literal text,
    variable references and stray dollars. */
module PathEnv {
  import opened Text
  import opened Wrappers
  import PathNormalize

  type Env = map<string, string>

  /** The depth at which expansion of substituted values stops. */
  const MAX_DEPTH := 10

  predicate NameChar(c: char) {
    'a' <= c <= 'z' || 'A' <= c <= 'Z' || '0' <= c <= '9' || c == '_'
  }

  /** The characters of variable names are the letters, the digits and `_`. */
  lemma NameCharsExactly(c: char)
    ensures NameChar(c) <==> c in LOWER || c in UPPER || c in DIGITS || c == '_'
  {
    LetterAt(c);
    DigitAt(c);
  }

  /** The index of the first `}` at or after `from`, if any. */
  function ClosingBrace(s: string, from: nat): (close: Option<nat>)
    requires from <= |s|
    ensures close.Some? ==> from <= close.value < |s| && s[close.value] == '}' && '}' !in s[from..close.value]
    ensures close.None? ==> '}' !in s[from..]
    decreases |s| - from
  {
    if from == |s| then None
    else if s[from] == '}' then Some(from)
    else
      var rest := ClosingBrace(s, from + 1);
      assert s[from..] == [s[from]] + s[from + 1..];
      assert rest.Some? ==> s[from..rest.value] == [s[from]] + s[from + 1..rest.value];
      rest
  }

  /** The end of the run of name characters at `from`. */
  function NameEnd(s: string, from: nat): (end: nat)
    requires from <= |s|
    ensures from <= end <= |s|
    ensures forall i :: from <= i < end ==> NameChar(s[i])
    ensures end < |s| ==> !NameChar(s[end])
    decreases |s| - from
  {
    if from < |s| && NameChar(s[from]) then NameEnd(s, from + 1) else from
  }

  /** What one scan writes, and whether it replaced a variable by a value. */
  datatype Scanned = Scanned(text: string, changed: bool)

  function Prepend(text: string, changed: bool, rest: Scanned): Scanned {
    Scanned(text + rest.text, changed || rest.changed)
  }

  function ValueOf(env: Env, name: string): string {
    if name in env then env[name] else ""
  }

  /** One step of the scanner: where it continues, what it writes, whether that is a variable's value. */
  datatype Token = Token(next: nat, written: string, changed: bool)

  function VariableToken(env: Env, name: string, next: nat): Token {
    Token(next, ValueOf(env, name), name in env)
  }

  /** The step at index `i`; an unset variable writes nothing, an unclosed `${` is an ordinary dollar. */
  function TokenAt(env: Env, s: string, i: nat): (t: Token)
    requires i < |s|
    ensures i < t.next <= |s|
  {
    if s[i] == '$' && i + 1 < |s| && s[i + 1] == '{' && ClosingBrace(s, i + 2).Some? then
      var close := ClosingBrace(s, i + 2).value;
      VariableToken(env, s[i + 2..close], close + 1)
    else if s[i] == '$' && i + 1 < |s| && NameChar(s[i + 1]) then
      var end := NameEnd(s, i + 1);
      VariableToken(env, s[i + 1..end], end)
    else Token(i + 1, [s[i]], false)
  }

  /** The scan of `s` from index `i`. */
  function Substitute(env: Env, s: string, i: nat): Scanned
    requires i <= |s|
    decreases |s| - i
  {
    if i == |s| then Scanned("", false)
    else
      var t := TokenAt(env, s, i);
      Prepend(t.written, t.changed, Substitute(env, s, t.next))
  }

  /** The expansion of a segment: `~` at the front, then variables, again while a value was substituted. */
  function Expand(env: Env, home: PathNormalize.Home, segment: string, depth: nat): string
    decreases MAX_DEPTH + 1 - depth
  {
    if depth > MAX_DEPTH || segment == "" then segment
    else
      var scanned := Substitute(env, PathNormalize.ExpandTilde(segment, home), 0);
      if scanned.changed then Expand(env, home, scanned.text, depth + 1) else scanned.text
  }

  method CollectName(chars: string, start: nat) returns (end: nat)
    requires start <= |chars|
    ensures end == NameEnd(chars, start)
  {
    end := start;
    while end < |chars| && NameChar(chars[end])
      invariant start <= end <= |chars|
      invariant NameEnd(chars, start) == NameEnd(chars, end)
    {
      end := end + 1;
    }
  }

  /** The scanner loop. */
  method SubstituteVariables(env: Env, chars: string) returns (expanded: string, changed: bool)
    ensures Scanned(expanded, changed) == Substitute(env, chars, 0)
  {
    hide Substitute, ClosingBrace, NameEnd;
    expanded, changed := "", false;
    var i := 0;
    while i < |chars|
      invariant i <= |chars|
      invariant Prepend(expanded, changed, Substitute(env, chars, i)) == Substitute(env, chars, 0)
      decreases |chars| - i
    {
      OneToken(env, chars, i, expanded, changed);
      NothingWritten(expanded);
      if chars[i] == '$' && i + 1 < |chars| {
        if chars[i + 1] == '{' {
          var close := ClosingBrace(chars, i + 2);
          if close.Some? {
            var name := chars[i + 2..close.value];
            if name in env {
              expanded := expanded + env[name];
              changed := true;
            }
            i := close.value + 1;
            continue;
          }
        } else if NameChar(chars[i + 1]) {
          var end := CollectName(chars, i + 1);
          var name := chars[i + 1..end];
          if name in env {
            expanded := expanded + env[name];
            changed := true;
          }
          i := end;
          continue;
        }
      }
      expanded := expanded + [chars[i]];
      i := i + 1;
    }
    SubstituteEnd(env, chars);
    NothingWritten(expanded);
  }

  method ExpandPathSegmentRecursive(env: Env, home: PathNormalize.Home, segment: string, depth: nat)
    returns (r: string)
    ensures r == Expand(env, home, segment, depth)
    decreases MAX_DEPTH + 1 - depth
  {
    hide Substitute, PathNormalize.ExpandTilde;
    if depth > MAX_DEPTH || segment == "" {
      return segment;
    }
    var expanded, changed := SubstituteVariables(env, PathNormalize.ExpandTilde(segment, home));
    if changed {
      r := ExpandPathSegmentRecursive(env, home, expanded, depth + 1);
    } else {
      r := expanded;
    }
  }

  lemma SubstituteEnd(env: Env, s: string)
    ensures Substitute(env, s, |s|) == Scanned("", false)
  {
  }

  lemma OneToken(env: Env, s: string, i: nat, text: string, changed: bool)
    requires i < |s|
    ensures var t := TokenAt(env, s, i);
            Prepend(text, changed, Substitute(env, s, i))
            == Prepend(text + t.written, changed || t.changed, Substitute(env, s, t.next))
  {
    hide TokenAt;
  }

  lemma NothingWritten(text: string)
    ensures text + "" == text
  {
  }

  // ---- Templates ---------------------------------------------------------------------

  /** How a segment reads: plain characters, `${name}`, `$name`, and dollars that start neither. */
  datatype Piece = Plain(c: char) | Braced(name: string) | Bare(name: string) | Dollar

  function RenderPiece(p: Piece): string {
    match p
    case Plain(c) => [c]
    case Braced(name) => "${" + name + "}"
    case Bare(name) => "$" + name
    case Dollar => "$"
  }

  function Render(pieces: seq<Piece>): string {
    if pieces == [] then "" else RenderPiece(pieces[0]) + Render(pieces[1..])
  }

  /** `p` is read as itself when `after` follows it. */
  predicate ReadsAs(p: Piece, after: string) {
    match p
    case Plain(c) => c != '$'
    case Braced(name) => '}' !in name
    case Bare(name) =>
      name != "" && (forall i :: 0 <= i < |name| ==> NameChar(name[i])) && (after == "" || !NameChar(after[0]))
    case Dollar => after == "" || (!NameChar(after[0]) && !(after[0] == '{' && '}' in after[1..]))
  }

  predicate Template(pieces: seq<Piece>) {
    pieces == [] || (ReadsAs(pieces[0], Render(pieces[1..])) && Template(pieces[1..]))
  }

  /** Each reference stands for its value, an unset one for nothing. */
  function Meaning(env: Env, pieces: seq<Piece>): Scanned {
    if pieces == [] then Scanned("", false)
    else
      var rest := Meaning(env, pieces[1..]);
      match pieces[0]
      case Plain(c) => Prepend([c], false, rest)
      case Dollar => Prepend("$", false, rest)
      case Braced(name) => Prepend(ValueOf(env, name), name in env, rest)
      case Bare(name) => Prepend(ValueOf(env, name), name in env, rest)
  }

  lemma {:induction false} ClosingBraceAt(s: string, from: nat, close: nat)
    requires from <= close < |s| && s[close] == '}' && '}' !in s[from..close]
    ensures ClosingBrace(s, from) == Some(close)
    decreases close - from
  {
    if from < close {
      assert s[from] in s[from..close];
      assert s[from..close] == [s[from]] + s[from + 1..close];
      ClosingBraceAt(s, from + 1, close);
    }
  }

  lemma {:induction false} NameEndAt(s: string, from: nat, end: nat)
    requires from <= end <= |s| && (end < |s| ==> !NameChar(s[end]))
    requires forall i :: from <= i < end ==> NameChar(s[i])
    ensures NameEnd(s, from) == end
    decreases end - from
  {
    if from < end {
      NameEndAt(s, from + 1, end);
    }
  }

  lemma ClosingBraceIff(s: string, from: nat)
    requires from <= |s|
    ensures ClosingBrace(s, from).Some? <==> '}' in s[from..]
  {
    var close := ClosingBrace(s, from);
    if close.Some? {
      assert s[from..][close.value - from] == '}';
    }
  }

  lemma SliceOfSlice(s: string, from: nat, to: nat, start: nat, end: nat)
    requires from <= to <= |s| && start <= end <= to - from
    ensures s[from..to][start..end] == s[from + start..from + end]
  {
    var inner := s[from..to];
    assert forall k, j :: start <= k < end && j == from + k ==> inner[k] == s[j];
  }

  lemma TokenOfBraced(env: Env, s: string, i: nat, name: string)
    requires i + |name| + 3 <= |s| && s[i..i + |name| + 3] == RenderPiece(Braced(name)) && '}' !in name
    ensures TokenAt(env, s, i) == VariableToken(env, name, i + |name| + 3)
  {
    hide ClosingBrace, NameEnd, NameChar, ValueOf;
    var close := i + 2 + |name|;
    var text := s[i..close + 1];
    assert text[0] == s[i] && text[1] == s[i + 1] && text[|name| + 2] == s[close];
    assert text == "${" + name + "}";
    assert text[0] == '$' && text[1] == '{' && text[|name| + 2] == '}';
    assert text[2..|name| + 2] == name;
    SliceOfSlice(s, i, close + 1, 2, |name| + 2);
    assert s[i + 2..close] == name;
    ClosingBraceAt(s, i + 2, close);
    assert s[i] == '$';
    assert s[i + 1] == '{';
    assert ClosingBrace(s, i + 2) == Some(close);
    assert TokenAt(env, s, i) == VariableToken(env, s[i + 2..close], close + 1);
  }

  lemma TokenOfBare(env: Env, s: string, i: nat, name: string)
    requires i + |name| + 1 <= |s| && s[i..i + |name| + 1] == RenderPiece(Bare(name)) && name != ""
    requires forall k :: 0 <= k < |name| ==> NameChar(name[k])
    requires i + |name| + 1 < |s| ==> !NameChar(s[i + |name| + 1])
    ensures TokenAt(env, s, i) == VariableToken(env, name, i + |name| + 1)
  {
    hide ClosingBrace, NameEnd, ValueOf;
    var end := i + 1 + |name|;
    var text := s[i..end];
    assert text[0] == s[i];
    assert s[i + 1..end] == text[1..] == name;
    assert forall k :: i + 1 <= k < end ==> s[k] == s[i + 1..end][k - i - 1];
    NameEndAt(s, i + 1, end);
  }

  lemma TokenOfDollar(env: Env, s: string, i: nat)
    requires i < |s| && s[i] == '$' && ReadsAs(Dollar, s[i + 1..])
    ensures TokenAt(env, s, i) == Token(i + 1, "$", false)
  {
    hide NameEnd;
    if i + 1 < |s| && s[i + 1] == '{' {
      assert s[i + 1..][1..] == s[i + 2..];
      ClosingBraceIff(s, i + 2);
    }
  }

  /** A piece that reads as itself is one step of the scanner. */
  lemma TokenOfPiece(env: Env, pre: string, p: Piece, after: string)
    requires ReadsAs(p, after)
    ensures var s := pre + RenderPiece(p) + after;
            TokenAt(env, s, |pre|) ==
            match p
            case Plain(c) => Token(|pre| + 1, [c], false)
            case Dollar => Token(|pre| + 1, "$", false)
            case Braced(name) => VariableToken(env, name, |pre| + |name| + 3)
            case Bare(name) => VariableToken(env, name, |pre| + |name| + 1)
  {
    hide ClosingBrace, NameEnd, ValueOf, NameChar;
    var s, i := pre + RenderPiece(p) + after, |pre|;
    assert s[i..i + |RenderPiece(p)|] == RenderPiece(p) && s[i + |RenderPiece(p)|..] == after;
    match p
    case Plain(c) =>
    case Dollar => TokenOfDollar(env, s, i);
    case Braced(name) => TokenOfBraced(env, s, i, name);
    case Bare(name) =>
      assert i + |name| + 1 < |s| ==> s[i + |name| + 1] == after[0];
      TokenOfBare(env, s, i, name);
  }

  /** The scanner computes the meaning of every template. */
  lemma {:induction false} SubstituteIsMeaning(env: Env, pre: string, pieces: seq<Piece>)
    requires Template(pieces)
    ensures Substitute(env, pre + Render(pieces), |pre|) == Meaning(env, pieces)
    decreases |pieces|
  {
    hide TokenAt, ReadsAs, ValueOf, Prepend;
    var s := pre + Render(pieces);
    if pieces != [] {
      var after := Render(pieces[1..]);
      var longer := pre + RenderPiece(pieces[0]);
      assert s == longer + after;
      TokenOfPiece(env, pre, pieces[0], after);
      SubstituteIsMeaning(env, longer, pieces[1..]);
    }
  }

  /** The piece at index `i`, and where the next one starts. */
  function PieceAt(s: string, i: nat): (p: (Piece, nat))
    requires i < |s|
    ensures i < p.1 <= |s|
  {
    if s[i] != '$' then (Plain(s[i]), i + 1)
    else if i + 1 < |s| && s[i + 1] == '{' && ClosingBrace(s, i + 2).Some? then
      var close := ClosingBrace(s, i + 2).value;
      (Braced(s[i + 2..close]), close + 1)
    else if i + 1 < |s| && NameChar(s[i + 1]) then (Bare(s[i + 1..NameEnd(s, i + 1)]), NameEnd(s, i + 1))
    else (Dollar, i + 1)
  }

  /** The template a text reads as. */
  function Parse(s: string, i: nat): (pieces: seq<Piece>)
    requires i <= |s|
    decreases |s| - i
  {
    if i == |s| then [] else [PieceAt(s, i).0] + Parse(s, PieceAt(s, i).1)
  }

  lemma BracedAtReads(s: string, i: nat)
    requires i + 1 < |s| && s[i] == '$' && s[i + 1] == '{' && ClosingBrace(s, i + 2).Some?
    ensures var (p, next) := PieceAt(s, i); s[i..next] == RenderPiece(p) && ReadsAs(p, s[next..])
  {
    hide ClosingBrace, NameEnd, NameChar;
    var close := ClosingBrace(s, i + 2).value;
    assert s[i..close + 1] == "${" + s[i + 2..close] + "}";
  }

  lemma BareAtReads(s: string, i: nat)
    requires i + 1 < |s| && s[i] == '$' && NameChar(s[i + 1])
    ensures var (p, next) := PieceAt(s, i); s[i..next] == RenderPiece(p) && ReadsAs(p, s[next..])
  {
    hide ClosingBrace;
    var end := NameEnd(s, i + 1);
    var name := s[i + 1..end];
    assert s[i..end] == "$" + name;
    assert forall k :: 0 <= k < |name| ==> NameChar(name[k]);
  }

  lemma DollarAtReads(s: string, i: nat)
    requires i < |s| && s[i] == '$' && PieceAt(s, i) == (Dollar, i + 1)
    ensures s[i..i + 1] == "$" && ReadsAs(Dollar, s[i + 1..])
  {
    hide ClosingBrace, NameEnd;
    if i + 1 < |s| && s[i + 1] == '{' {
      assert s[i + 1..][1..] == s[i + 2..];
      ClosingBraceIff(s, i + 2);
    }
  }

  lemma PieceAtReads(s: string, i: nat)
    requires i < |s|
    ensures var (p, next) := PieceAt(s, i); s[i..next] == RenderPiece(p) && ReadsAs(p, s[next..])
  {
    hide ClosingBrace, NameEnd, NameChar;
    if s[i] != '$' {
      hide ReadsAs;
      PlainAtReads(s, i);
    } else if i + 1 < |s| && s[i + 1] == '{' && ClosingBrace(s, i + 2).Some? {
      hide ReadsAs, RenderPiece;
      BracedAtReads(s, i);
    } else if i + 1 < |s| && NameChar(s[i + 1]) {
      hide ReadsAs, RenderPiece;
      BareAtReads(s, i);
    } else {
      hide ReadsAs;
      DollarAtReads(s, i);
    }
  }

  lemma PlainAtReads(s: string, i: nat)
    requires i < |s| && s[i] != '$'
    ensures s[i..i + 1] == [s[i]] && ReadsAs(Plain(s[i]), s[i + 1..])
  {
  }

  /** Every text is a template, so `SubstituteIsMeaning` speaks of every segment. */
  lemma {:induction false} EveryTextIsATemplate(s: string, i: nat)
    requires i <= |s|
    ensures Template(Parse(s, i)) && Render(Parse(s, i)) == s[i..]
    decreases |s| - i
  {
    hide PieceAt, ReadsAs, RenderPiece;
    if i < |s| {
      var (p, next) := PieceAt(s, i);
      PieceAtReads(s, i);
      EveryTextIsATemplate(s, next);
      var pieces := Parse(s, i);
      assert pieces[0] == p && pieces[1..] == Parse(s, next);
      assert Render(pieces) == RenderPiece(p) + s[next..];
      assert s[i..] == s[i..next] + s[next..];
    }
  }
}
