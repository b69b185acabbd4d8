/** Content identity of texts: which sequences of characters have one hash once they are encoded. */
module TextIdentity {
  import opened EolNormalize
  import opened FileHash
  import opened Utf8

  /** The lines of a text in which LF, CRLF and CR all end a line. */
  function TextLines(cs: Text): (lines: seq<Text>)
    ensures |lines| >= 1
  {
    if cs == [] then [[]]
    else if |cs| >= 2 && cs[0] == CR && cs[1] == LF then [[]] + TextLines(cs[2..])
    else if cs[0] == CR || cs[0] == LF then [[]] + TextLines(cs[1..])
    else
      var rest := TextLines(cs[1..]);
      [[cs[0]] + rest[0]] + rest[1..]
  }

  /** The lines with LF between them. */
  function WithLf(lines: seq<Text>): Text
    requires lines != []
  {
    if |lines| == 1 then lines[0] else lines[0] + [LF] + WithLf(lines[1..])
  }

  function EncodeLines(lines: seq<Text>): (r: seq<Bytes>)
    ensures |r| == |lines| && forall i :: 0 <= i < |r| ==> r[i] == EncodeAll(lines[i])
  {
    seq(|lines|, i requires 0 <= i < |lines| => EncodeAll(lines[i]))
  }

  lemma {:induction false} EncodeConcat(a: Text, b: Text)
    ensures EncodeAll(a + b) == EncodeAll(a) + EncodeAll(b)
  {
    if a == [] {
      assert a + b == b;
    } else {
      assert (a + b)[1..] == a[1..] + b;
      EncodeConcat(a[1..], b);
    }
  }

  lemma EncodedBreak(c: Scalar)
    requires c == CR || c == LF
    ensures Encode(c) == [c]
  {
  }

  /** No byte of another character is a line break. */
  lemma EncodedFree(c: Scalar)
    requires c != CR && c != LF
    ensures CR !in Encode(c) && LF !in Encode(c)
  {
  }

  lemma BreakLines(c: Byte, b: Bytes)
    requires c == CR || c == LF
    ensures !(c == CR && b != [] && b[0] == LF) ==> UniversalLines([c] + b) == [[]] + UniversalLines(b)
    ensures UniversalLines([CR] + ([LF] + b)) == [[]] + UniversalLines(b)
  {
    var crLf := [CR] + ([LF] + b);
    assert crLf[2..] == b && ([c] + b)[1..] == b;
  }

  lemma EncodeMoreLines(l: Text, lines: seq<Text>)
    ensures EncodeLines([l] + lines) == [EncodeAll(l)] + EncodeLines(lines)
  {
  }

  lemma EncodeLonger(c: Scalar, lines: seq<Text>)
    requires lines != []
    ensures EncodeLines([[c] + lines[0]] + lines[1..])
         == [Encode(c) + EncodeLines(lines)[0]] + EncodeLines(lines)[1..]
  {
    hide Encode;
    EncodeMoreLines([c] + lines[0], lines[1..]);
    assert ([c] + lines[0])[1..] == lines[0];
  }

  /** Encoding a text encodes its lines. */
  lemma {:induction false} LinesOfEncoding(cs: Text)
    ensures UniversalLines(EncodeAll(cs)) == EncodeLines(TextLines(cs))
    decreases |cs|
  {
    hide Encode, UniversalLines, EncodeLines;
    if cs == [] {
      NoLines();
    } else if cs[0] == CR || cs[0] == LF {
      EncodedBreak(cs[0]);
      if |cs| >= 2 && cs[0] == CR && cs[1] == LF {
        EncodedBreak(cs[1]);
        assert cs[1..][1..] == cs[2..];
        BreakLines(CR, EncodeAll(cs[2..]));
        LinesOfEncoding(cs[2..]);
        EncodeMoreLines([], TextLines(cs[2..]));
      } else {
        NotLf(cs[1..]);
        BreakLines(cs[0], EncodeAll(cs[1..]));
        LinesOfEncoding(cs[1..]);
        EncodeMoreLines([], TextLines(cs[1..]));
      }
    } else {
      EncodedFree(cs[0]);
      LinesOfEncoding(cs[1..]);
      BreakFreeHead(Encode(cs[0]), EncodeAll(cs[1..]));
      EncodeLonger(cs[0], TextLines(cs[1..]));
    }
  }

  lemma NoLines()
    ensures UniversalLines([]) == EncodeLines([[]])
  {
  }

  /** A text that does not start with LF has no encoding that does. */
  lemma NotLf(cs: Text)
    ensures EncodeAll(cs) != [] && EncodeAll(cs)[0] == LF ==> cs != [] && cs[0] == LF
  {
    hide Encode;
    if cs != [] && cs[0] != LF {
      FirstByte(cs[0]);
    }
  }

  lemma FirstByte(c: Scalar)
    ensures Encode(c)[0] == LF ==> c == LF
  {
  }

  lemma EncodeLinesInjective(a: seq<Text>, b: seq<Text>)
    requires EncodeLines(a) == EncodeLines(b)
    ensures a == b
  {
    forall i | 0 <= i < |a|
      ensures i < |b| && a[i] == b[i]
    {
      assert EncodeLines(a)[i] == EncodeLines(b)[i];
      EncodeAllInjective(a[i], b[i]);
    }
    assert |a| == |b|;
  }

  lemma {:induction false} EncodeOfJoined(lines: seq<Text>)
    requires lines != []
    ensures EncodeAll(WithLf(lines)) == JoinLf(EncodeLines(lines))
  {
    if |lines| > 1 {
      EncodeOfJoined(lines[1..]);
      assert EncodeLines(lines)[1..] == EncodeLines(lines[1..]);
      EncodeConcat(lines[0], [LF]);
      EncodeConcat(lines[0] + [LF], WithLf(lines[1..]));
      assert EncodeAll([LF]) == [LF];
    }
  }

  /** Under the cap the digest of a text is taken of its lines joined by LF, in UTF-8. */
  lemma TextHash<S, D>(h: Hasher<S, D>, cs: Text)
    requires |EncodeAll(cs)| <= MAX_NORMALIZE_BYTES
    ensures ComputeBytesHash(h, EncodeAll(cs)) == h.Digest(EncodeAll(WithLf(TextLines(cs))))
  {
    EncodingIsValid(cs);
    NormalizeJoinsLines(EncodeAll(cs));
    LinesOfEncoding(cs);
    EncodeOfJoined(TextLines(cs));
  }

  /** Two texts under the cap share a hash exactly when they have the same lines, character by character. */
  lemma TextsHashEqualIff<S, D>(h: Hasher<S, D>, cs: Text, ds: Text)
    requires CollisionFree(h)
    requires |EncodeAll(cs)| <= MAX_NORMALIZE_BYTES && |EncodeAll(ds)| <= MAX_NORMALIZE_BYTES
    ensures ComputeBytesHash(h, EncodeAll(cs)) == ComputeBytesHash(h, EncodeAll(ds)) <==> TextLines(cs) == TextLines(ds)
  {
    EncodingIsValid(cs);
    SmallTextsHashEqualIff(h, EncodeAll(cs), EncodeAll(ds));
    LinesOfEncoding(cs);
    LinesOfEncoding(ds);
    if EncodeLines(TextLines(cs)) == EncodeLines(TextLines(ds)) {
      EncodeLinesInjective(TextLines(cs), TextLines(ds));
    }
  }

  /** Content that is no text in UTF-8 shares its hash with nothing but itself. */
  lemma NoTextHashEqualIff<S, D>(h: Hasher<S, D>, a: Bytes, b: Bytes)
    requires CollisionFree(h) && forall cs :: a != EncodeAll(cs)
    ensures ComputeBytesHash(h, a) == ComputeBytesHash(h, b) <==> a == b
  {
    ValidIffEncoding(a);
    BinaryHashEqualIff(h, a, b);
  }

  /** `copy` is `text` with each LF written as LF or as CRLF, independently. */
  predicate TextCopy(text: Text, copy: Text) {
    if text == [] then copy == []
    else if text[0] == LF then
      || (copy != [] && copy[0] == LF && TextCopy(text[1..], copy[1..]))
      || (|copy| >= 2 && copy[0] == CR && copy[1] == LF && TextCopy(text[1..], copy[2..]))
    else copy != [] && copy[0] == text[0] && TextCopy(text[1..], copy[1..])
  }

  lemma {:induction false} SamePrefixCopies(p: Bytes, text: Bytes, copy: Bytes)
    requires LF !in p && EolCopy(text, copy)
    ensures EolCopy(p + text, p + copy)
  {
    if p == [] {
      assert p + text == text && p + copy == copy;
    } else {
      SamePrefixCopies(p[1..], text, copy);
      assert (p + text)[1..] == p[1..] + text && (p + copy)[1..] == p[1..] + copy;
    }
  }

  lemma {:induction false} EncodedCopies(text: Text, copy: Text)
    requires CR !in text && TextCopy(text, copy)
    ensures EolCopy(EncodeAll(text), EncodeAll(copy))
  {
    hide Encode;
    if text != [] {
      var b, d := EncodeAll(text), EncodeAll(copy);
      if text[0] == LF {
        EncodedBreak(LF);
        EncodedBreak(CR);
        assert b[1..] == EncodeAll(text[1..]);
        if copy[0] == LF {
          assert d[1..] == EncodeAll(copy[1..]);
          EncodedCopies(text[1..], copy[1..]);
        } else {
          assert copy[1..][1..] == copy[2..];
          assert d[1..] == EncodeAll(copy[1..]);
          assert d[2..] == EncodeAll(copy[2..]);
          EncodedCopies(text[1..], copy[2..]);
        }
      } else {
        EncodedFree(text[0]);
        EncodedCopies(text[1..], copy[1..]);
        SamePrefixCopies(Encode(text[0]), EncodeAll(text[1..]), EncodeAll(copy[1..]));
      }
    }
  }

  lemma {:induction false} CrFreeEncoding(cs: Text)
    requires CR !in cs
    ensures CR !in EncodeAll(cs)
  {
    hide Encode;
    if cs != [] {
      CrFreeEncoding(cs[1..]);
      FreeOfCr(cs[0]);
    }
  }

  lemma FreeOfCr(c: Scalar)
    requires c != CR
    ensures CR !in Encode(c)
  {
  }

  /** A text without CR and its copy with some newlines written as CRLF have one identity exactly when the copy fits
      under the cap. */
  lemma TextCopyHashEqualIff<S, D>(h: Hasher<S, D>, text: Text, copy: Text)
    requires CollisionFree(h) && CR !in text && TextCopy(text, copy)
    ensures ComputeBytesHash(h, EncodeAll(text)) == ComputeBytesHash(h, EncodeAll(copy))
        <==> (|EncodeAll(copy)| <= MAX_NORMALIZE_BYTES || copy == text)
  {
    EncodingIsValid(text);
    CrFreeEncoding(text);
    EncodedCopies(text, copy);
    EolCopyHashEqualIff(h, EncodeAll(text), EncodeAll(copy));
    if EncodeAll(copy) == EncodeAll(text) {
      EncodeAllInjective(copy, text);
    }
  }
}
