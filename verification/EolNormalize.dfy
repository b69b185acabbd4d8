/** Line-ending normalization of file content, on bytes.

    The program replaces CRLF and then lone CR by LF, in two passes. What that means is stated through an independent
    reading of the content as lines that end in LF, CRLF or CR. */
module EolNormalize {
  const LF := 10
  const CR := 13

  type Byte = b: int | 0 <= b < 256

  type Bytes = seq<Byte>

  /** `replace("\r\n", "\n")`: left to right, non-overlapping. */
  function ReplaceCrLf(b: Bytes): Bytes {
    if b == [] then []
    else if |b| >= 2 && b[0] == CR && b[1] == LF then [LF] + ReplaceCrLf(b[2..])
    else [b[0]] + ReplaceCrLf(b[1..])
  }

  /** `replace('\r', "\n")`. */
  function ReplaceCr(b: Bytes): (r: Bytes)
    ensures |r| == |b|
    ensures forall i :: 0 <= i < |b| ==> r[i] == if b[i] == CR then LF else b[i]
  {
    seq(|b|, i requires 0 <= i < |b| => if b[i] == CR then LF else b[i])
  }

  function NormalizeLineEndings(content: Bytes): Bytes {
    if CR !in content then content else ReplaceCr(ReplaceCrLf(content))
  }

  // ---- Lines -----------------------------------------------------------------

  /** The lines of a text in which LF, CRLF and CR all end a line. */
  function UniversalLines(b: Bytes): (lines: seq<Bytes>)
    ensures |lines| >= 1
    ensures forall l :: l in lines ==> LF !in l && CR !in l
  {
    if b == [] then [[]]
    else if |b| >= 2 && b[0] == CR && b[1] == LF then [[]] + UniversalLines(b[2..])
    else if b[0] == CR || b[0] == LF then [[]] + UniversalLines(b[1..])
    else
      var rest := UniversalLines(b[1..]);
      [[b[0]] + rest[0]] + rest[1..]
  }

  function JoinLf(lines: seq<Bytes>): Bytes
    requires lines != []
  {
    if |lines| == 1 then lines[0] else lines[0] + [LF] + JoinLf(lines[1..])
  }

  lemma ReplaceCrOfCons(c: Byte, b: Bytes)
    ensures ReplaceCr([c] + b) == [if c == CR then LF else c] + ReplaceCr(b)
  {
    assert forall i :: 0 < i < |[c] + b| ==> ([c] + b)[i] == b[i - 1];
  }

  lemma JoinOfBreak(lines: seq<Bytes>)
    requires lines != []
    ensures JoinLf([[]] + lines) == [LF] + JoinLf(lines)
  {
    assert ([[]] + lines)[1..] == lines;
  }

  lemma JoinOfLonger(c: Byte, lines: seq<Bytes>)
    requires lines != []
    ensures JoinLf([[c] + lines[0]] + lines[1..]) == [c] + JoinLf(lines)
  {
    assert ([[c] + lines[0]] + lines[1..])[1..] == lines[1..];
  }

  lemma {:induction false} TwoPassesJoinLines(b: Bytes)
    ensures ReplaceCr(ReplaceCrLf(b)) == JoinLf(UniversalLines(b))
  {
    hide ReplaceCr, JoinLf;
    if b == [] {
      NothingToJoin();
    } else if |b| >= 2 && b[0] == CR && b[1] == LF {
      TwoPassesJoinLines(b[2..]);
      ReplaceCrOfCons(LF, ReplaceCrLf(b[2..]));
      JoinOfBreak(UniversalLines(b[2..]));
    } else {
      TwoPassesJoinLines(b[1..]);
      ReplaceCrOfCons(b[0], ReplaceCrLf(b[1..]));
      if b[0] == CR || b[0] == LF {
        JoinOfBreak(UniversalLines(b[1..]));
      } else {
        JoinOfLonger(b[0], UniversalLines(b[1..]));
      }
    }
  }

  lemma NothingToJoin()
    ensures ReplaceCr(ReplaceCrLf([])) == JoinLf(UniversalLines([]))
  {
  }

  lemma {:induction false} CrFreeIsJoined(b: Bytes)
    requires CR !in b
    ensures JoinLf(UniversalLines(b)) == b
  {
    if b != [] {
      CrFreeIsJoined(b[1..]);
      var rest := UniversalLines(b[1..]);
      if b[0] == LF {
        assert UniversalLines(b)[1..] == rest;
      } else {
        assert UniversalLines(b)[1..] == rest[1..];
      }
      assert b == [b[0]] + b[1..];
    }
  }

  /** Both branches of the normalization write the content's lines, separated by LF. */
  lemma NormalizeJoinsLines(b: Bytes)
    ensures NormalizeLineEndings(b) == JoinLf(UniversalLines(b))
  {
    if CR !in b {
      CrFreeIsJoined(b);
    } else {
      TwoPassesJoinLines(b);
    }
  }

  /** A prefix without line breaks stays at the front of the first line. */
  lemma {:induction false} BreakFreeHead(p: Bytes, b: Bytes)
    requires LF !in p && CR !in p
    ensures UniversalLines(p + b) == [p + UniversalLines(b)[0]] + UniversalLines(b)[1..]
  {
    if p == [] {
      assert p + b == b;
      assert p + UniversalLines(b)[0] == UniversalLines(b)[0];
    } else {
      assert (p + b)[1..] == p[1..] + b;
      BreakFreeHead(p[1..], b);
      assert [p[0]] + (p[1..] + UniversalLines(b)[0]) == p + UniversalLines(b)[0];
    }
  }

  lemma {:induction false} LinesOfJoined(lines: seq<Bytes>)
    requires lines != [] && forall l :: l in lines ==> LF !in l && CR !in l
    ensures UniversalLines(JoinLf(lines)) == lines
    ensures CR !in JoinLf(lines)
  {
    if |lines| == 1 {
      BreakFreeHead(lines[0], []);
      assert lines[0] + [] == lines[0];
    } else {
      hide UniversalLines;
      LinesOfJoined(lines[1..]);
      LinesOfTwo(lines[0], JoinLf(lines[1..]));
    }
  }

  lemma LinesOfTwo(first: Bytes, joined: Bytes)
    requires LF !in first && CR !in first
    ensures UniversalLines(first + [LF] + joined) == [first] + UniversalLines(joined)
  {
    hide UniversalLines;
    AfterLf(joined);
    BreakFreeHead(first, [LF] + joined);
    assert first + [LF] + joined == first + ([LF] + joined);
    assert first + [] == first;
  }

  lemma AfterLf(b: Bytes)
    ensures UniversalLines([LF] + b) == [[]] + UniversalLines(b)
  {
    assert ([LF] + b)[1..] == b;
  }

  /** Normalized content has the same lines, no CR, and is a fixed point. */
  lemma NormalizeKeepsLines(b: Bytes)
    ensures UniversalLines(NormalizeLineEndings(b)) == UniversalLines(b)
    ensures CR !in NormalizeLineEndings(b)
    ensures NormalizeLineEndings(NormalizeLineEndings(b)) == NormalizeLineEndings(b)
  {
    NormalizeJoinsLines(b);
    LinesOfJoined(UniversalLines(b));
  }

  /** Normalization forgets how lines end and nothing else. */
  lemma SameNormalFormIff(a: Bytes, b: Bytes)
    ensures NormalizeLineEndings(a) == NormalizeLineEndings(b) <==> UniversalLines(a) == UniversalLines(b)
  {
    NormalizeKeepsLines(a);
    NormalizeKeepsLines(b);
    NormalizeJoinsLines(a);
    NormalizeJoinsLines(b);
  }

  // ---- Copies with other line endings ------------------------------------------

  /** `copy` is `text` with each LF written as LF or as CRLF, independently. */
  predicate EolCopy(text: Bytes, copy: Bytes) {
    if text == [] then copy == []
    else if text[0] == LF then
      || (copy != [] && copy[0] == LF && EolCopy(text[1..], copy[1..]))
      || (|copy| >= 2 && copy[0] == CR && copy[1] == LF && EolCopy(text[1..], copy[2..]))
    else copy != [] && copy[0] == text[0] && EolCopy(text[1..], copy[1..])
  }

  /** A copy has the lines of the text, and is no shorter. */
  lemma {:induction false} EolCopySameLines(text: Bytes, copy: Bytes)
    requires CR !in text && EolCopy(text, copy)
    ensures UniversalLines(copy) == UniversalLines(text)
    ensures |text| <= |copy|
  {
    if text != [] {
      if |copy| >= 2 && copy[0] == CR && copy[1] == LF {
        EolCopySameLines(text[1..], copy[2..]);
      } else {
        EolCopySameLines(text[1..], copy[1..]);
      }
    }
  }

  // ---- UTF-8 ---------------------------------------------------------------------

  predicate Continuation(b: Bytes, i: nat) {
    i < |b| && 0x80 <= b[i] <= 0xBF
  }

  /** The length of the well-formed byte sequence at the front of `b`, 0 when there is none (RFC 3629, section 4). */
  function CharLen(b: Bytes): (n: nat)
    ensures n <= |b|
  {
    if b == [] then 0
    else if b[0] < 0x80 then 1
    else if 0xC2 <= b[0] <= 0xDF && Continuation(b, 1) then 2
    else if b[0] == 0xE0 && Continuation(b, 1) && b[1] >= 0xA0 && Continuation(b, 2) then 3
    else if (0xE1 <= b[0] <= 0xEC || 0xEE <= b[0] <= 0xEF) && Continuation(b, 1) && Continuation(b, 2) then 3
    else if b[0] == 0xED && Continuation(b, 1) && b[1] <= 0x9F && Continuation(b, 2) then 3
    else if b[0] == 0xF0 && Continuation(b, 1) && b[1] >= 0x90 && Continuation(b, 2) && Continuation(b, 3) then 4
    else if 0xF1 <= b[0] <= 0xF3 && Continuation(b, 1) && Continuation(b, 2) && Continuation(b, 3) then 4
    else if b[0] == 0xF4 && Continuation(b, 1) && b[1] <= 0x8F && Continuation(b, 2) && Continuation(b, 3) then 4
    else 0
  }

  predicate ValidUtf8(b: Bytes) {
    b == [] || (CharLen(b) > 0 && ValidUtf8(b[CharLen(b)..]))
  }

  /** A multi-byte character contains no line break. */
  lemma CharHasNoBreak(b: Bytes)
    requires b != [] && b[0] != LF && b[0] != CR && CharLen(b) > 0
    ensures LF !in b[..CharLen(b)] && CR !in b[..CharLen(b)]
  {
    var n := CharLen(b);
    forall i | 0 < i < n
      ensures b[i] >= 0x80
    {
      assert Continuation(b, i);
    }
  }

  /** A character that fits in a prefix is the character of the whole. */
  lemma CharLenOfPrefix(p: Bytes, b: Bytes)
    requires p <= b && p != [] && (CharLen(p) > 0 || |b| == |p| || (|p| < |b| && !Continuation(b, |p|)))
    ensures CharLen(b) == CharLen(p)
  {
    forall i | 0 <= i < |p|
      ensures Continuation(p, i) == Continuation(b, i)
    {
    }
  }

  /** The first line is followed by the end of the text or by a line break. */
  lemma {:induction false} FirstLine(b: Bytes)
    ensures var l := UniversalLines(b)[0];
            l <= b && (|l| == |b| || b[|l|] == LF || b[|l|] == CR)
  {
    if b != [] && b[0] != LF && b[0] != CR {
      FirstLine(b[1..]);
      assert b == [b[0]] + b[1..];
    }
  }

  /** Being UTF-8 does not depend on how lines end: content is UTF-8 exactly when each of its lines is. */
  lemma {:induction false} Utf8ByLines(b: Bytes)
    ensures ValidUtf8(b) <==> forall l :: l in UniversalLines(b) ==> ValidUtf8(l)
  {
    hide CharLen;
    var lines := UniversalLines(b);
    if b == [] {
    } else if b[0] == CR || b[0] == LF {
      AfterBreak(b);
      if |b| >= 2 && b[0] == CR && b[1] == LF {
        AfterBreak(b[1..]);
        assert b[1..][1..] == b[2..];
        Utf8ByLines(b[2..]);
        OneMore([], UniversalLines(b[2..]));
      } else {
        Utf8ByLines(b[1..]);
        OneMore([], UniversalLines(b[1..]));
      }
    } else {
      FirstLine(b);
      var l := lines[0];
      assert l != [];
      CharOfFirstLine(b);
      var n := CharLen(b);
      if n == 0 {
        assert l in lines && !ValidUtf8(l);
      } else {
        Utf8ByLines(b[n..]);
        CharHasNoBreak(b);
        assert b == b[..n] + b[n..];
        BreakFreeHead(b[..n], b[n..]);
        var rest := UniversalLines(b[n..]);
        assert l == b[..n] + rest[0];
        assert l[n..] == rest[0];
        assert lines[1..] == rest[1..];
        OneMore(l, rest[1..]);
        OneMore(rest[0], rest[1..]);
        assert rest == [rest[0]] + rest[1..];
        assert lines == [l] + rest[1..];
      }
    }
  }

  lemma OneMore(l: Bytes, lines: seq<Bytes>)
    ensures (forall k :: k in [l] + lines ==> ValidUtf8(k)) <==> (ValidUtf8(l) && forall k :: k in lines ==> ValidUtf8(k))
  {
    hide ValidUtf8;
    assert l in [l] + lines;
    assert forall k :: k in lines ==> k in [l] + lines;
  }

  lemma AfterBreak(b: Bytes)
    requires b != [] && b[0] < 0x80
    ensures ValidUtf8(b) <==> ValidUtf8(b[1..])
  {
  }

  /** The first character of a text that does not start with a line break lies in its first line. */
  lemma CharOfFirstLine(b: Bytes)
    requires b != [] && b[0] != LF && b[0] != CR
    ensures UniversalLines(b)[0] != [] && CharLen(UniversalLines(b)[0]) == CharLen(b)
  {
    FirstLine(b);
    CharLenOfPrefix(UniversalLines(b)[0], b);
  }

  lemma SameLinesSameUtf8(a: Bytes, b: Bytes)
    requires UniversalLines(a) == UniversalLines(b)
    ensures ValidUtf8(a) <==> ValidUtf8(b)
  {
    Utf8ByLines(a);
    Utf8ByLines(b);
  }
}
