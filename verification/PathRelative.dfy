/** Paths relative to a root: normalization, joining to the root, and stripping the root again. */
module PathRelative {
  import opened Wrappers
  import opened Text
  import opened PathNormalize

  datatype RelativePathError =
    | Absolute(input: string)
    | ParentTraversal(input: string)
    | Empty
    | NotNormalized(input: string)
    | NotUnderRoot(path: string, root: string)

  // ---- std::path on a POSIX host ---------------------------------------------------------------------------

  datatype Component = RootDir | CurDir | ParentDir | Normal(name: string)

  function Named(pieces: seq<string>): seq<Component> {
    if pieces == [] then []
    else if pieces[0] == "" || pieces[0] == "." then Named(pieces[1..])
    else [if pieces[0] == ".." then ParentDir else Normal(pieces[0])] + Named(pieces[1..])
  }

  /** `Path::components`: repeated separators and inner `.` vanish, a leading `/` or `.` is a component. */
  function StdComponents(s: string): seq<Component> {
    if s == "" then []
    else if s[0] == '/' then [RootDir] + Named(Split(s[1..], '/'))
    else if Split(s, '/')[0] == "." then [CurDir] + Named(Split(s, '/')[1..])
    else Named(Split(s, '/'))
  }

  function OsStr(c: Component): string {
    match c
    case RootDir => "/"
    case CurDir => "."
    case ParentDir => ".."
    case Normal(name) => name
  }

  function OsStrs(cs: seq<Component>): (names: seq<string>)
    ensures |names| == |cs| && forall i :: 0 <= i < |cs| ==> names[i] == OsStr(cs[i])
  {
    seq(|cs|, i requires 0 <= i < |cs| => OsStr(cs[i]))
  }

  /** `Path::strip_prefix`: component-wise, the remainder joined again. */
  function StripPrefix(path: string, root: string): Option<string> {
    var p, r := StdComponents(path), StdComponents(root);
    if r <= p then Some(Join(OsStrs(p[|r|..]), '/')) else None
  }

  // ---- Normalization of relative input ---------------------------------------------------------------------

  predicate LooksLikeDrive(s: string) {
    |s| >= 2 && s[1] == ':' && Alphabetic(s[0])
  }

  function NormalizeRelative(input: string): Result<string, RelativePathError> {
    if input == "" then Err(Empty)
    else if '\0' in input then Err(NotNormalized(input))
    else if input[0] == '/' || LooksLikeDrive(input) then Err(Absolute(input))
    else
      var segments := Split(input, '/');
      if ".." in segments then Err(ParentTraversal(input))
      else if Kept(segments) == [] then Err(Empty)
      else Ok(Join(Kept(segments), '/'))
  }

  lemma {:induction false} JoinEmptyIff(parts: seq<string>)
    requires forall i :: 0 <= i < |parts| ==> parts[i] != ""
    ensures Join(parts, '/') == "" <==> parts == []
  {
  }

  method NormalizeRelativePath(input: string) returns (r: Result<string, RelativePathError>)
    ensures r == NormalizeRelative(input)
  {
    if input == "" { return Err(Empty); }
    if '\0' in input { return Err(NotNormalized(input)); }
    if input[0] == '/' { return Err(Absolute(input)); }
    if LooksLikeDrive(input) { return Err(Absolute(input)); }
    var segments := Split(input, '/');
    var out := "";
    for i := 0 to |segments|
      invariant out == Join(Kept(segments[..i]), '/')
      invariant ".." !in segments[..i]
    {
      assert segments[..i + 1][..i] == segments[..i];
      var segment := segments[i];
      if segment == "" { continue; }
      if segment == "." { continue; }
      if segment == ".." { return Err(ParentTraversal(input)); }
      var kept := Kept(segments[..i]);
      JoinEmptyIff(kept);
      if kept != [] { JoinConcat(kept, [segment], '/'); }
      if out != "" {
        out := out + "/";
      }
      out := out + segment;
    }
    assert segments[..|segments|] == segments;
    JoinEmptyIff(Kept(segments));
    if out == "" { return Err(Empty); }
    r := Ok(out);
  }

  predicate ValidRelativePieces(pieces: seq<string>) {
    forall i :: 0 <= i < |pieces| ==>
      pieces[i] != "" && pieces[i] != "." && pieces[i] != ".." && '/' !in pieces[i] && '\0' !in pieces[i]
  }

  /** What a `RelativePath` can hold. */
  predicate IsRelative(s: string) {
    ValidRelativePieces(Pieces(s))
  }

  lemma {:induction false} KeptOfValid(pieces: seq<string>)
    requires ValidRelativePieces(pieces)
    ensures Kept(pieces) == pieces
  {
    if pieces != [] {
      KeptOfValid(pieces[..|pieces| - 1]);
      assert pieces == pieces[..|pieces| - 1] + [pieces[|pieces| - 1]];
    }
  }

  lemma NormalizeRelativeIsRelative(input: string)
    requires NormalizeRelative(input).Ok?
    ensures IsRelative(NormalizeRelative(input).value)
    ensures Pieces(NormalizeRelative(input).value) == Kept(Pieces(input))
  {
    var parts := Kept(Pieces(input));
    forall i | 0 <= i < |parts| ensures '/' !in parts[i] && '\0' !in parts[i] {
      assert parts[i] in Pieces(input);
      var j :| 0 <= j < |Pieces(input)| && Pieces(input)[j] == parts[i];
      if '\0' in parts[i] { PiecesKeepChars(input, j, '\0'); }
    }
    SplitOfJoin(parts, '/');
  }

  lemma RelativeHasNoNul(s: string)
    requires IsRelative(s)
    ensures s != "" && s[0] != '/' && '\0' !in s
  {
    CharsOfPieces(s, '\0');
    assert Pieces(s)[0] != "";
  }

  /** A valid relative path is its own normal form exactly when it does not look like a drive. Normalization can itself
      produce one that does, from an input such as `./C:x`, and that one is then rejected. */
  lemma RelativeFixedPointIff(s: string)
    requires IsRelative(s)
    ensures NormalizeRelative(s) == Ok(s) <==> !LooksLikeDrive(s)
    ensures NormalizeRelative("./" + s) == Ok(s)
  {
    RelativeHasNoNul(s);
    KeptOfValid(Pieces(s));
    JoinOfSplit(s, '/');
    DottedNormalizes(s);
    assert ".." !in Pieces(s);
  }

  lemma DottedNormalizes(s: string)
    requires IsRelative(s)
    ensures NormalizeRelative("./" + s) == Ok(s)
  {
    var dotted, pieces := "./" + s, Pieces(s);
    assert Split(dotted, '/') == ["."] + pieces by {
      assert dotted == "." + ['/'] + s;
      SplitConcat(".", s, '/');
      SplitOfFree(".", '/');
    }
    assert '\0' !in dotted by { RelativeHasNoNul(s); }
    assert ".." !in ["."] + pieces;
    KeptAfterDot(pieces);
    KeptOfValid(pieces);
    JoinOfSplit(s, '/');
    hide Split, Kept, Join;
  }

  lemma {:induction false} KeptAfterDot(pieces: seq<string>)
    ensures Kept(["."] + pieces) == Kept(pieces)
  {
    if pieces != [] {
      var n := |pieces| - 1;
      assert (["."] + pieces)[..n + 1] == ["."] + pieces[..n];
      KeptAfterDot(pieces[..n]);
    }
  }

  // ---- Join and strip --------------------------------------------------------------------------------------

  /** The join goes through `from_validated`, which normalizes again. A canonical root never ends in a slash and no
      home directory matters, since the joined string is rooted. */
  function ToAbsolute(r: string, root: string): Result<string, PathError> {
    Normalize((if root != "" && root[|root| - 1] == '/' then root else root + "/") + r, None)
  }

  method JoinToRoot(r: string, root: string) returns (p: Result<string, PathError>)
    ensures p == ToAbsolute(r, root)
  {
    var joined := root;
    if joined == "" || joined[|joined| - 1] != '/' {
      joined := joined + "/";
    }
    joined := joined + r;
    p := NormalizePath(joined, None);
  }

  function FromAbsoluteAndRoot(path: string, root: string): Result<string, RelativePathError> {
    var suffix := StripPrefix(path, root);
    if suffix.None? then Err(NotUnderRoot(path, root)) else NormalizeRelative(suffix.value)
  }

  lemma {:induction false} NamedOfProper(pieces: seq<string>)
    requires forall i :: 0 <= i < |pieces| ==> pieces[i] != "" && pieces[i] != "." && pieces[i] != ".."
    ensures Named(pieces) == seq(|pieces|, i requires 0 <= i < |pieces| => Normal(pieces[i]))
  {
    if pieces != [] {
      NamedOfProper(pieces[1..]);
    }
  }

  lemma RootedComponents(s: string)
    requires s != "" && s[0] == '/'
    ensures Split(s, '/')[0] == "" && Split(s, '/')[1..] == Split(s[1..], '/')
    ensures StdComponents(s) == [RootDir] + Named(Split(s, '/')[1..])
  {
    hide Named;
  }

  lemma UnrootedComponents(s: string)
    requires s != "" && s[0] != '/' && Split(s, '/')[0] != "."
    ensures StdComponents(s) == Named(Split(s, '/'))
  {
    hide Named, Split;
  }

  /** The library's components of a canonical path are its pieces, the empty root piece read as the root directory. */
  lemma CanonicalComponents(s: string)
    requires IsCanonical(s)
    ensures var pieces := Pieces(s);
            && |StdComponents(s)| == |pieces|
            && StdComponents(s)[0] == (if pieces[0] == "" then RootDir else Normal(pieces[0]))
            && forall i :: 1 <= i < |pieces| ==> StdComponents(s)[i] == Normal(pieces[i])
  {
    hide Named, Split, StdComponents;
    var pieces := Pieces(s);
    CanonicalRoot(s);
    if s[0] == '/' {
      RootedComponents(s);
      NamedOfProper(pieces[1..]);
    } else {
      UnrootedComponents(s);
      NamedOfProper(pieces);
    }
  }

  /** Stripping a canonical root from a canonical path is dropping its pieces. */
  lemma StripPrefixPieces(path: CanonicalPath, root: CanonicalPath)
    ensures StripPrefix(path, root).Some? <==> Pieces(root) <= Pieces(path)
    ensures Pieces(root) <= Pieces(path) ==> StripPrefix(path, root).value == Join(Pieces(path)[|Pieces(root)|..], '/')
  {
    CanonicalComponents(path);
    CanonicalComponents(root);
    var pp, rp, p, r := Pieces(path), Pieces(root), StdComponents(path), StdComponents(root);
    if r <= p {
      forall i | 0 <= i < |rp| ensures rp[i] == pp[i] { assert r[i] == p[i]; }
      assert rp <= pp;
    }
    if rp <= pp {
      forall i | 0 <= i < |r| ensures r[i] == p[i] { assert rp[i] == pp[i]; }
      assert OsStrs(p[|r|..]) == pp[|rp|..];
    }
  }

  /** Exactly when a path can be anchored to a root, and the error when it cannot. */
  lemma AnchorIff(path: CanonicalPath, root: CanonicalPath)
    ensures var pp, n := Pieces(path), |Pieces(root)|;
            && (FromAbsoluteAndRoot(path, root).Ok? <==> Pieces(root) < pp && !LooksLikeDrive(Join(pp[n..], '/')))
            && (!(Pieces(root) <= pp) ==> FromAbsoluteAndRoot(path, root) == Err(NotUnderRoot(path, root)))
            && (Pieces(root) == pp ==> FromAbsoluteAndRoot(path, root) == Err(Empty))
            && (FromAbsoluteAndRoot(path, root).Ok? ==> FromAbsoluteAndRoot(path, root) == Ok(Join(pp[n..], '/')))
  {
    StripPrefixPieces(path, root);
    var pp, n := Pieces(path), |Pieces(root)|;
    if Pieces(root) < pp {
      var rest := Join(pp[n..], '/');
      SplitOfJoin(pp[n..], '/');
      assert ValidRelativePieces(Pieces(rest));
      RelativeFixedPointIff(rest);
      RelativeHasNoNul(rest);
    } else if Pieces(root) == pp {
      assert pp[n..] == [];
    }
  }

  /** The first remaining piece decides whether the suffix looks like a drive. */
  lemma DriveSuffixIsFirstPiece(pieces: seq<string>)
    requires pieces != [] && forall i :: 0 <= i < |pieces| ==> ProperComponent(pieces[i])
    ensures LooksLikeDrive(Join(pieces, '/')) <==> LooksLikeDrive(pieces[0])
  {
    if |pieces| > 1 {
      assert Join(pieces, '/') == pieces[0] + "/" + Join(pieces[1..], '/');
    }
  }

  lemma StripRootOf(s: string, first: string, tail: string)
    requires s == first + "/" + tail && (first == "" || DriveName(first))
    ensures StripRoot(s) == Some(Rooted(first, tail))
  {
    assert s[|first|] == '/' && s[|first| + 1..] == tail && s[..|first|] == first;
  }

  lemma JoinedPosix(r: string, root: CanonicalPath)
    ensures var pieces := Pieces(root);
            && ToPosix(root + "/" + r) == root + "/" + ToPosix(r)
            && root == pieces[0] + "/" + Join(pieces[1..], '/')
            && (pieces[0] == "" || DriveName(pieces[0]))
  {
    hide StripRoot, DriveName, ProperComponent, Split;
    CanonicalRoot(root);
    JoinOfSplit(root, '/');
    assert ToPosix(root + "/" + r) == root + "/" + ToPosix(r);
  }

  /** The joined string, separators unified, keeps the root's first piece as its root. */
  lemma JoinedRoot(r: string, root: CanonicalPath)
    ensures var pieces, posix := Pieces(root), ToPosix(root + "/" + r);
            && StripRoot(posix).Some? && StripRoot(posix).value.prefix == pieces[0]
            && Pieces(StripRoot(posix).value.rest) == pieces[1..] + Pieces(ToPosix(r))
  {
    hide *;
    RootPartsKept(root);
    var pieces, posix, tail := Pieces(root), ToPosix(r), Join(Pieces(root)[1..], '/');
    JoinedPosix(r, root);
    CanonicalRoot(root);
    assert root + "/" + posix == pieces[0] + "/" + (tail + "/" + posix);
    StripRootOf(root + "/" + posix, pieces[0], tail + "/" + posix);
    PiecesOfJoined(tail, posix);
  }

  /** Joining a relative path to a canonical root, piece by piece: backslashes split like slashes. */
  lemma JoinedPieces(r: string, root: CanonicalPath)
    requires IsRelative(r)
    ensures var inner := Pieces(ToPosix(r));
            && (ToAbsolute(r, root).Ok? <==> ".." !in inner)
            && (ToAbsolute(r, root).Ok? ==>
                  IsCanonical(ToAbsolute(r, root).value) && Pieces(ToAbsolute(r, root).value) == Pieces(root) + Kept(inner))
  {
    var pieces, inner, joined := Pieces(root), Pieces(ToPosix(r)), root + "/" + r;
    hide Kept, Pieces, StripRoot, ToPosix, IsCanonical, Normalize, ToAbsolute, IsRelative;
    JoinedForm(r, root);
    JoinedRoot(r, root);
    RootPartsKept(root);
    KeptConcat(pieces[1..], inner);
    NormalizeRooted(joined);
    if ToAbsolute(r, root).Ok? {
      NormalizeIsCanonical(joined, None);
      assert ExpandTilde(joined, None) == joined;
      assert [pieces[0]] + (pieces[1..] + Kept(inner)) == pieces + Kept(inner);
    }
  }

  lemma JoinedForm(r: string, root: CanonicalPath)
    requires IsRelative(r)
    ensures ToAbsolute(r, root) == Normalize(root + "/" + r, None)
    ensures root != "" && '\0' !in root + "/" + r && |Pieces(root)| >= 2
  {
    RootIsNotSlashed(root);
    CanonicalRoot(root);
    RelativeHasNoNul(r);
  }

  lemma RootPartsKept(root: CanonicalPath)
    ensures |Pieces(root)| >= 2 && ".." !in Pieces(root)[1..] && Kept(Pieces(root)[1..]) == Pieces(root)[1..]
  {
    KeptOfProper(Pieces(root)[1..]);
  }

  /** A rooted string without NUL is refused exactly for a parent directory or for having no component. */
  lemma NormalizeRooted(s: string)
    requires s != "" && '\0' !in s && StripRoot(ToPosix(s)).Some?
    ensures var components := Pieces(StripRoot(ToPosix(s)).value.rest);
            Normalize(s, None).Ok? <==> ".." !in components && Kept(components) != []
  {
    assert ExpandTilde(s, None) == s;
  }

  lemma RootIsNotSlashed(root: CanonicalPath)
    ensures root != "" && root[|root| - 1] != '/'
  {
    var pieces := Pieces(root);
    JoinOfSplit(root, '/');
    JoinEndsLikeLast(pieces);
  }

  lemma {:induction false} JoinEndsLikeLast(pieces: seq<string>)
    requires pieces != [] && pieces[|pieces| - 1] != ""
    ensures var s, last := Join(pieces, '/'), pieces[|pieces| - 1];
            s != "" && s[|s| - 1] == last[|last| - 1]
  {
    if |pieces| > 1 {
      JoinEndsLikeLast(pieces[1..]);
    }
  }

  lemma {:induction false} KeptConcat(a: seq<string>, b: seq<string>)
    ensures Kept(a + b) == Kept(a) + Kept(b)
  {
    if b == [] {
      assert a + b == a;
    } else {
      var n := |b| - 1;
      assert (a + b)[..|a| + n] == a + b[..n];
      KeptConcat(a, b[..n]);
    }
  }

  /** Strip undoes join exactly for relative paths without a backslash that do not look like a drive. */
  lemma StripUndoesJoinIff(r: string, root: CanonicalPath)
    requires IsRelative(r)
    ensures '\\' !in r ==> ToAbsolute(r, root) == Ok(root + "/" + r)
    ensures ToAbsolute(r, root).Ok? && FromAbsoluteAndRoot(ToAbsolute(r, root).value, root) == Ok(r)
       <==> '\\' !in r && !LooksLikeDrive(r)
  {
    JoinedPieces(r, root);
    JoinOfSplit(r, '/');
    if '\\' !in r {
      assert ToPosix(r) == r;
      KeptOfValid(Pieces(r));
      SplitConcat(root, r, '/');
      PiecesInjective(ToAbsolute(r, root).value, root + ['/'] + r);
    }
    if ToAbsolute(r, root).Ok? {
      var p := ToAbsolute(r, root).value;
      AnchorIff(p, root);
      assert Pieces(p)[|Pieces(root)|..] == Kept(Pieces(ToPosix(r)));
      if '\\' in r && FromAbsoluteAndRoot(p, root) == Ok(r) {
        BackslashFreeSuffix(p, root, r);
      }
    }
  }

  /** Nothing stripped from a canonical path contains a backslash. */
  lemma BackslashFreeSuffix(p: CanonicalPath, root: CanonicalPath, r: string)
    requires FromAbsoluteAndRoot(p, root) == Ok(r)
    ensures '\\' !in r
  {
    AnchorIff(p, root);
    var rest := Pieces(p)[|Pieces(root)|..];
    SplitOfJoin(rest, '/');
    CharsOfPieces(r, '\\');
  }

  lemma AnchoredSuffix(path: CanonicalPath, root: CanonicalPath)
    requires FromAbsoluteAndRoot(path, root).Ok?
    ensures Pieces(root) < Pieces(path)
    ensures var r := FromAbsoluteAndRoot(path, root).value;
            IsRelative(r) && Pieces(r) == Pieces(path)[|Pieces(root)|..]
  {
    AnchorIff(path, root);
    hide FromAbsoluteAndRoot, LooksLikeDrive;
    SplitOfJoin(Pieces(path)[|Pieces(root)|..], '/');
  }

  lemma PiecesOfJoined(root: string, r: string)
    ensures Pieces(root + "/" + r) == Pieces(root) + Pieces(r)
  {
    hide Split;
    SplitConcat(root, r, '/');
  }

  /** Join undoes strip on every path that can be anchored. */
  lemma JoinUndoesStrip(path: CanonicalPath, root: CanonicalPath)
    requires FromAbsoluteAndRoot(path, root).Ok?
    ensures IsRelative(FromAbsoluteAndRoot(path, root).value)
    ensures ToAbsolute(FromAbsoluteAndRoot(path, root).value, root) == Ok(path)
  {
    hide *;
    AnchoredSuffix(path, root);
    var r := FromAbsoluteAndRoot(path, root).value;
    BackslashFreeSuffix(path, root, r);
    StripUndoesJoinIff(r, root);
    PiecesOfJoined(root, r);
    assert Pieces(path) == Pieces(root) + Pieces(path)[|Pieces(root)|..];
    PiecesInjective(root + "/" + r, path);
  }

  /** A relative path with a backslash is valid, yet the join rejects it when it hides a parent directory. */
  lemma BackslashJoinFails(root: CanonicalPath)
    ensures IsRelative("a\\..") && ToAbsolute("a\\..", root).Err?
  {
    SplitOfFree("a\\..", '/');
    assert ToPosix("a\\..") == "a" + ['/'] + "..";
    SplitConcat("a", "..", '/');
    SplitOfFree("a", '/');
    SplitOfFree("..", '/');
    assert Pieces(ToPosix("a\\.."))[1] == "..";
    JoinedPieces("a\\..", root);
  }
}
