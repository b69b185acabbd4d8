/** Canonical paths: the syntactic normalization and the normal form it reaches.

    Paths are sequences of characters; `$HOME` is a parameter. A canonical path is a root (`/` or a drive such as `C:/`)
    followed by at least one proper component, and is identified with its `/`-separated pieces. */
module PathNormalize {
  import opened Wrappers
  import opened Text

  datatype PathError =
    | EmptyPath
    | InvalidNormalization
    | RelativeInput(input: string)
    | ContainsParentDir(input: string)
    | DuplicateHost(host: string)
    | DuplicateContainer(container: string)
    | NoMountCoverage(path: string)

  /** The home directory; an environment value never contains NUL. */
  type Home = h: Option<string> | h.Some? ==> '\0' !in h.value witness None

  predicate Alphabetic(c: char) {
    'a' <= c <= 'z' || 'A' <= c <= 'Z'
  }

  function ExpandTilde(input: string, home: Home): string {
    if home.Some? && input != "" && input[0] == '~' && (|input| == 1 || input[1] == '/') then home.value + input[1..]
    else input
  }

  function ToPosix(s: string): (p: string)
    ensures |p| == |s| && '\\' !in p
    ensures forall i :: 0 <= i < |s| ==> p[i] == if s[i] == '\\' then '/' else s[i]
  {
    seq(|s|, i requires 0 <= i < |s| => if s[i] == '\\' then '/' else s[i])
  }

  predicate HasDrive(s: string) {
    |s| >= 3 && Alphabetic(s[0]) && s[1] == ':' && s[2] == '/'
  }

  datatype Rooted = Rooted(prefix: string, rest: string)

  function StripRoot(posix: string): Option<Rooted> {
    if HasDrive(posix) then Some(Rooted(posix[..2], posix[3..]))
    else if posix != "" && posix[0] == '/' then Some(Rooted("", posix[1..]))
    else None
  }

  /** The components that normalization keeps. */
  function Kept(components: seq<string>): (kept: seq<string>)
    ensures forall c :: c in kept <==> c in components && c != "" && c != "."
    ensures forall i :: 0 <= i < |kept| ==> kept[i] in components && kept[i] != "" && kept[i] != "."
  {
    if components == [] then []
    else
      var init, last := Kept(components[..|components| - 1]), components[|components| - 1];
      assert forall c :: c in components <==> c in components[..|components| - 1] || c == last;
      if last == "" || last == "." then init else init + [last]
  }

  function Normalize(input: string, home: Home): Result<string, PathError> {
    if input == "" then Err(EmptyPath)
    else if '\0' in input then Err(InvalidNormalization)
    else
      var rooted := StripRoot(ToPosix(ExpandTilde(input, home)));
      if rooted.None? then Err(RelativeInput(input))
      else
        var components := Split(rooted.value.rest, '/');
        if ".." in components then Err(ContainsParentDir(input))
        else if Kept(components) == [] then Err(EmptyPath)
        else Ok(rooted.value.prefix + "/" + Join(Kept(components), '/'))
  }

  method NormalizePath(input: string, home: Home) returns (r: Result<string, PathError>)
    ensures r == Normalize(input, home)
  {
    if input == "" { return Err(EmptyPath); }
    if '\0' in input { return Err(InvalidNormalization); }
    var rooted := StripRoot(ToPosix(ExpandTilde(input, home)));
    if rooted.None? { return Err(RelativeInput(input)); }
    var components := Split(rooted.value.rest, '/');
    var parts := [];
    for i := 0 to |components|
      invariant parts == Kept(components[..i])
      invariant ".." !in components[..i]
    {
      assert components[..i + 1][..i] == components[..i];
      var component := components[i];
      if component == "" || component == "." { continue; }
      if component == ".." { return Err(ContainsParentDir(input)); }
      parts := parts + [component];
    }
    assert components[..|components|] == components;
    if parts == [] { return Err(EmptyPath); }
    if rooted.value.prefix == "" {
      assert "" + "/" + Join(parts, '/') == "/" + Join(parts, '/');
      r := Ok("/" + Join(parts, '/'));
    } else {
      r := Ok(rooted.value.prefix + "/" + Join(parts, '/'));
    }
  }

  // ---- The normal form -------------------------------------------------------------------------------------

  predicate DriveName(c: string) {
    |c| == 2 && Alphabetic(c[0]) && c[1] == ':'
  }

  predicate ProperComponent(c: string) {
    c != "" && c != "." && c != ".." && '/' !in c && '\\' !in c && '\0' !in c
  }

  function Pieces(s: string): seq<string> {
    Split(s, '/')
  }

  predicate CanonicalPieces(pieces: seq<string>) {
    && |pieces| >= 2
    && (pieces[0] == "" || DriveName(pieces[0]))
    && forall i :: 1 <= i < |pieces| ==> ProperComponent(pieces[i])
  }

  predicate IsCanonical(s: string) {
    CanonicalPieces(Pieces(s))
  }

  lemma {:induction false} CharsOfPieces(s: string, c: char)
    requires c != '/' && forall i :: 0 <= i < |Pieces(s)| ==> c !in Pieces(s)[i]
    ensures c !in s
  {
    if s != "" {
      var rest := Pieces(s[1..]);
      assert Pieces(s) == if s[0] == '/' then [""] + rest else [[s[0]] + rest[0]] + rest[1..];
      assert forall i :: 0 <= i < |rest| ==> c !in rest[i] by {
        forall i | 0 <= i < |rest| ensures c !in rest[i] {
          assert i > 0 ==> rest[i] == Pieces(s)[if s[0] == '/' then i + 1 else i];
          assert i == 0 && s[0] == '/' ==> rest[0] == Pieces(s)[1];
          assert i == 0 && s[0] != '/' ==> Pieces(s)[0] == [s[0]] + rest[0];
        }
      }
      CharsOfPieces(s[1..], c);
      assert s[0] != c by {
        assert s[0] != '/' ==> s[0] in Pieces(s)[0];
      }
      assert s == [s[0]] + s[1..];
    }
  }

  lemma {:induction false} PiecesKeepChars(s: string, i: nat, c: char)
    requires i < |Pieces(s)| && c in Pieces(s)[i]
    ensures c in s
  {
    if s != "" {
      var rest := Pieces(s[1..]);
      if s[0] == '/' {
        assert i > 0;
        PiecesKeepChars(s[1..], i - 1, c);
      } else if i > 0 {
        PiecesKeepChars(s[1..], i, c);
      } else if c != s[0] {
        assert c in rest[0];
        PiecesKeepChars(s[1..], 0, c);
      }
    }
  }

  /** Stripping a root is splitting off the first piece. */
  lemma RootPieces(s: string, rooted: Rooted)
    requires StripRoot(s) == Some(rooted)
    ensures s == rooted.prefix + "/" + rooted.rest
    ensures Pieces(s) == [rooted.prefix] + Pieces(rooted.rest)
    ensures rooted.prefix == "" || DriveName(rooted.prefix)
  {
    assert s == rooted.prefix + "/" + rooted.rest;
    assert '/' !in rooted.prefix;
    SplitOfFree(rooted.prefix, '/');
    SplitConcat(rooted.prefix, rooted.rest, '/');
  }

  /** A canonical string is its root piece, a slash and the rest. */
  lemma CanonicalRoot(s: string)
    requires IsCanonical(s)
    ensures var pieces := Pieces(s);
            && StripRoot(s) == Some(Rooted(pieces[0], Join(pieces[1..], '/')))
            && Pieces(Join(pieces[1..], '/')) == pieces[1..]
            && '\\' !in s && '\0' !in s
  {
    var pieces := Pieces(s);
    JoinOfSplit(s, '/');
    SplitOfJoin(pieces[1..], '/');
    var rest := Join(pieces[1..], '/');
    assert s == pieces[0] + "/" + rest;
    if pieces[0] == "" {
      assert s[1..] == rest;
    } else {
      assert s[..2] == pieces[0] && s[3..] == rest;
    }
    forall i | 0 <= i < |pieces| ensures '\\' !in pieces[i] && '\0' !in pieces[i] {}
    CharsOfPieces(s, '\\');
    CharsOfPieces(s, '\0');
  }

  lemma {:induction false} KeptOfProper(pieces: seq<string>)
    requires forall i :: 0 <= i < |pieces| ==> ProperComponent(pieces[i])
    ensures Kept(pieces) == pieces
  {
    if pieces != [] {
      KeptOfProper(pieces[..|pieces| - 1]);
      assert pieces == pieces[..|pieces| - 1] + [pieces[|pieces| - 1]];
    }
  }

  /** The pieces of a rendered path are the root and the components it was rendered from. */
  lemma RenderedPieces(root: string, parts: seq<string>)
    requires '/' !in root && parts != [] && AllFree(parts, '/')
    ensures Pieces(root + "/" + Join(parts, '/')) == [root] + parts
  {
    SplitOfFree(root, '/');
    SplitConcat(root, Join(parts, '/'), '/');
    SplitOfJoin(parts, '/');
  }

  /** The components that normalization keeps of a text without backslash and NUL. */
  lemma KeptAreProper(rest: string)
    requires '\\' !in rest && '\0' !in rest && ".." !in Pieces(rest)
    ensures forall i :: 0 <= i < |Kept(Pieces(rest))| ==> ProperComponent(Kept(Pieces(rest))[i])
  {
    hide Kept, Split;
    var components, parts := Pieces(rest), Kept(Pieces(rest));
    forall i | 0 <= i < |parts|
      ensures ProperComponent(parts[i])
    {
      assert parts[i] in components;
      var j :| 0 <= j < |components| && components[j] == parts[i];
      if '\\' in parts[i] { PiecesKeepChars(rest, j, '\\'); }
      if '\0' in parts[i] { PiecesKeepChars(rest, j, '\0'); }
    }
  }

  /** Every accepted input is brought into normal form. */
  lemma NormalizeIsCanonical(input: string, home: Home)
    requires Normalize(input, home).Ok?
    ensures IsCanonical(Normalize(input, home).value)
    ensures var rooted := StripRoot(ToPosix(ExpandTilde(input, home))).value;
            Pieces(Normalize(input, home).value) == [rooted.prefix] + Kept(Pieces(rooted.rest))
  {
    hide Kept, Split, ProperComponent;
    var posix := ToPosix(ExpandTilde(input, home));
    var rooted := StripRoot(posix).value;
    RootPieces(posix, rooted);
    ExpandedHasNoNul(input, home);
    RestKeepsOut(posix, rooted);
    KeptAreProper(rooted.rest);
    RenderedPieces(rooted.prefix, Kept(Pieces(rooted.rest)));
  }

  lemma ExpandedHasNoNul(input: string, home: Home)
    requires '\0' !in input
    ensures '\0' !in ToPosix(ExpandTilde(input, home))
  {
    var expanded := ExpandTilde(input, home);
    assert '\0' !in expanded;
    forall i | 0 <= i < |expanded|
      ensures ToPosix(expanded)[i] != '\0'
    {
      assert expanded[i] in expanded;
    }
  }

  lemma RestKeepsOut(posix: string, rooted: Rooted)
    requires posix == rooted.prefix + "/" + rooted.rest && '\\' !in posix && '\0' !in posix
    ensures '\\' !in rooted.rest && '\0' !in rooted.rest
  {
    assert forall c :: c in rooted.rest ==> c in posix;
  }

  lemma CanonicalIsExpanded(s: string, home: Home)
    requires IsCanonical(s)
    ensures s != "" && '\0' !in s && ToPosix(ExpandTilde(s, home)) == s
  {
    hide Split, ProperComponent;
    CanonicalRoot(s);
    assert s[0] == '/' || Alphabetic(s[0]);
  }

  lemma CanonicalIsFixed(s: string, home: Home)
    requires IsCanonical(s)
    ensures Normalize(s, home) == Ok(s)
  {
    hide Split, Kept, Join, StripRoot, ExpandTilde;
    var pieces := Pieces(s);
    CanonicalIsExpanded(s, home);
    CanonicalRoot(s);
    KeptOfProper(pieces[1..]);
    RootPieces(s, Rooted(pieces[0], Join(pieces[1..], '/')));
    assert ".." !in pieces[1..];
  }

  /** The fixed points of the normalization are exactly the canonical strings. */
  lemma FixedPointIffCanonical(s: string, home: Home)
    ensures Normalize(s, home) == Ok(s) <==> IsCanonical(s)
  {
    hide Normalize, IsCanonical;
    if Normalize(s, home) == Ok(s) {
      NormalizeIsCanonical(s, home);
    }
    if IsCanonical(s) {
      CanonicalIsFixed(s, home);
    }
  }

  /** Normalizing twice is normalizing once, whatever the home directory is the second time. */
  lemma NormalizeIdempotent(input: string, home: Home, home': Home)
    requires Normalize(input, home).Ok?
    ensures Normalize(Normalize(input, home).value, home') == Normalize(input, home)
  {
    NormalizeIsCanonical(input, home);
    FixedPointIffCanonical(Normalize(input, home).value, home');
  }

  lemma PiecesInjective(s: string, t: string)
    requires Pieces(s) == Pieces(t)
    ensures s == t
  {
    JoinOfSplit(s, '/');
    JoinOfSplit(t, '/');
  }

  /** Two accepted inputs are the same path exactly when they have the same root and, after dropping `.` and empty
      components, the same components. */
  lemma SamePathIff(a: string, b: string, home: Home)
    requires Normalize(a, home).Ok? && Normalize(b, home).Ok?
    ensures var ra, rb := StripRoot(ToPosix(ExpandTilde(a, home))).value, StripRoot(ToPosix(ExpandTilde(b, home))).value;
            (Normalize(a, home) == Normalize(b, home)) ==
            (ra.prefix == rb.prefix && Kept(Pieces(ra.rest)) == Kept(Pieces(rb.rest)))
  {
    NormalizeIsCanonical(a, home);
    NormalizeIsCanonical(b, home);
    var ra, rb := StripRoot(ToPosix(ExpandTilde(a, home))).value, StripRoot(ToPosix(ExpandTilde(b, home))).value;
    var ka, kb := Kept(Pieces(ra.rest)), Kept(Pieces(rb.rest));
    if Normalize(a, home) == Normalize(b, home) {
      assert ([ra.prefix] + ka)[0] == ([rb.prefix] + kb)[0];
      assert ([ra.prefix] + ka)[1..] == ka && ([rb.prefix] + kb)[1..] == kb;
    }
  }

  // ---- The type --------------------------------------------------------------------------------------------

  function SampleCanonical(): (s: string)
    ensures IsCanonical(s)
  {
    assert Split("a", '/') == ["a"] by { SplitOfFree("a", '/'); }
    "/a"
  }

  type CanonicalPath = s: string | IsCanonical(s) witness SampleCanonical()

  function FromUserInput(s: string, home: Home): Result<CanonicalPath, PathError> {
    if Normalize(s, home).Ok? then
      NormalizeIsCanonical(s, home);
      Ok(Normalize(s, home).value)
    else Err(Normalize(s, home).error)
  }
}
