/** Telling the clones of one repository apart by the directories below their common ancestor. */
module Disambiguation {
  import opened Text
  import opened PathRelative

  /** How many leading components two paths share. */
  function CommonLength(a: seq<Component>, b: seq<Component>): (n: nat)
    ensures n <= |a| && n <= |b| && a[..n] == b[..n]
    ensures n < |a| && n < |b| ==> a[n] != b[n]
  {
    if a == [] || b == [] || a[0] != b[0] then 0
    else
      var n := 1 + CommonLength(a[1..], b[1..]);
      assert a[..n] == [a[0]] + a[1..][..n - 1] && b[..n] == [b[0]] + b[1..][..n - 1];
      n
  }

  lemma SharedComponent(a: seq<Component>, b: seq<Component>, n: nat, i: nat)
    requires i < n <= |a| && n <= |b| && a[..n] == b[..n]
    ensures a[i] == b[i]
  {
    assert a[..n][i] == b[..n][i];
  }

  lemma CommonLengthIs(a: seq<Component>, b: seq<Component>, n: nat)
    requires n <= |a| && n <= |b| && a[..n] == b[..n] && (n < |a| && n < |b| ==> a[n] != b[n])
    ensures CommonLength(a, b) == n
  {
    var m := CommonLength(a, b);
    if m < n { SharedComponent(a, b, n, m); }
    if n < m { SharedComponent(a, b, m, n); }
  }

  function MinCommon(own: seq<Component>, others: seq<string>): (n: nat)
    ensures n <= |own|
  {
    if others == [] then |own|
    else
      var m, n := MinCommon(own, others[..|others| - 1]), CommonLength(own, StdComponents(others[|others| - 1]));
      if n < m then n else m
  }

  /** The disambiguation string of a new clone beside existing ones. */
  function Computed(path: string, existing: seq<string>): string {
    if existing == [] then ""
    else
      var own := StdComponents(path);
      var n := MinCommon(own, existing);
      if n < |own| then Join(OsStrs(own[n..]), '/') else path
  }

  /** The inner loop: walks both component lists until they differ. */
  method CountCommon(own: seq<Component>, other: seq<Component>) returns (common: nat)
    ensures common == CommonLength(own, other)
  {
    common := 0;
    var i := 0;
    while i < |own| && i < |other|
      invariant common == i <= |own| && i <= |other| && own[..i] == other[..i]
    {
      if own[i] != other[i] {
        common := i;
        break;
      }
      i := i + 1;
      common := i;
    }
    CommonLengthIs(own, other, common);
  }

  method Compute(path: string, existing: seq<string>) returns (r: string)
    ensures r == Computed(path, existing)
  {
    if existing == [] { return ""; }
    hide StdComponents, CommonLength, Join, OsStrs;
    var own := StdComponents(path);
    var minCommon := |own|;
    for e := 0 to |existing|
      invariant minCommon == MinCommon(own, existing[..e])
    {
      assert existing[..e + 1][..e] == existing[..e];
      var common := CountCommon(own, StdComponents(existing[e]));
      minCommon := if common < minCommon then common else minCommon;
    }
    assert existing[..|existing|] == existing;
    if minCommon < |own| {
      r := Join(OsStrs(own[minCommon..]), '/');
    } else {
      r := path;
    }
  }

  /** Two path buffers are equal when their components are; spelling does not count. */
  predicate SamePath(p: string, q: string) {
    StdComponents(p) == StdComponents(q)
  }

  function Others(paths: seq<string>, p: string): (others: seq<string>)
    ensures forall q :: q in others <==> q in paths && !SamePath(q, p)
  {
    if paths == [] then []
    else
      var init, last := Others(paths[..|paths| - 1], p), paths[|paths| - 1];
      assert forall q :: q in paths <==> q in paths[..|paths| - 1] || q == last;
      if SamePath(last, p) then init else init + [last]
  }

  /** A single clone needs no disambiguation. */
  function Answer(paths: seq<string>, p: string): string {
    if |paths| <= 1 then "" else Computed(p, Others(paths, p))
  }

  /** The keys are the paths in `done`, up to path equality, each with the answer of one of its spellings. */
  ghost predicate Tabulates(result: map<seq<Component>, string>, done: seq<string>, paths: seq<string>) {
    && (forall p :: p in done ==> StdComponents(p) in result)
    && (forall k :: k in result ==> exists p :: p in done && StdComponents(p) == k && result[k] == Answer(paths, p))
  }

  lemma TabulateOne(result: map<seq<Component>, string>, done: seq<string>, paths: seq<string>, p: string)
    requires Tabulates(result, done, paths)
    ensures Tabulates(result[StdComponents(p) := Answer(paths, p)], done + [p], paths)
  {
    hide StdComponents, Answer;
    var updated := result[StdComponents(p) := Answer(paths, p)];
    forall k | k in updated
      ensures exists q :: q in done + [p] && StdComponents(q) == k && updated[k] == Answer(paths, q)
    {
      if k == StdComponents(p) {
        assert p in done + [p];
      } else {
        var q :| q in done && StdComponents(q) == k && result[k] == Answer(paths, q);
        assert q in done + [p];
      }
    }
  }

  method CollectOthers(paths: seq<string>, path: string) returns (others: seq<string>)
    ensures others == Others(paths, path)
  {
    hide StdComponents;
    others := [];
    for j := 0 to |paths|
      invariant others == Others(paths[..j], path)
    {
      assert paths[..j + 1][..j] == paths[..j];
      if !SamePath(paths[j], path) {
        others := others + [paths[j]];
      }
    }
    assert paths[..|paths|] == paths;
  }

  /** The result map, its keys up to path equality; a later spelling of the same path overwrites an earlier one. */
  method RecomputeAll(paths: seq<string>) returns (result: map<seq<Component>, string>)
    ensures Tabulates(result, paths, paths)
  {
    hide StdComponents, Computed, Others, Tabulates;
    result := map[];
    NothingTabulated(paths);
    if |paths| <= 1 {
      for i := 0 to |paths|
        invariant Tabulates(result, paths[..i], paths)
      {
        assert paths[..i + 1] == paths[..i] + [paths[i]];
        TabulateOne(result, paths[..i], paths, paths[i]);
        result := result[StdComponents(paths[i]) := ""];
      }
      assert paths[..|paths|] == paths;
      return;
    }
    for i := 0 to |paths|
      invariant Tabulates(result, paths[..i], paths)
    {
      assert paths[..i + 1] == paths[..i] + [paths[i]];
      TabulateOne(result, paths[..i], paths, paths[i]);
      var path := paths[i];
      var others := CollectOthers(paths, path);
      var disambig := Compute(path, others);
      result := result[StdComponents(path) := disambig];
    }
    assert paths[..|paths|] == paths;
  }

  lemma NothingTabulated(paths: seq<string>)
    ensures Tabulates(map[], paths[..0], paths)
  {
  }

  // ---- One index for all clones ----------------------------------------------------------------------------

  /** All paths share their first `n` components. */
  ghost predicate SharedByAll(paths: seq<string>, n: nat) {
    forall p, q :: p in paths && q in paths ==>
      n <= |StdComponents(p)| && n <= |StdComponents(q)| && StdComponents(p)[..n] == StdComponents(q)[..n]
  }

  lemma {:induction false} MinCommonIsMin(own: seq<Component>, others: seq<string>)
    ensures forall q :: q in others ==> MinCommon(own, others) <= CommonLength(own, StdComponents(q))
    ensures MinCommon(own, others) < |own| ==>
              exists q :: q in others && MinCommon(own, others) == CommonLength(own, StdComponents(q))
  {
    if others != [] {
      var init, last := others[..|others| - 1], others[|others| - 1];
      MinCommonIsMin(own, init);
      assert forall q :: q in others <==> q in init || q == last;
    }
  }

  lemma CutSharedWith(own: seq<Component>, other: seq<Component>, n: nat)
    requires n <= CommonLength(own, other)
    ensures n <= |own| && n <= |other| && own[..n] == other[..n]
  {
    var m := CommonLength(own, other);
    assert own[..n] == own[..m][..n] && other[..n] == other[..m][..n];
  }

  lemma CutNotLonger(own: seq<Component>, other: seq<Component>)
    requires CommonLength(own, other) < |own| && CommonLength(own, other) < |other|
    ensures own[..CommonLength(own, other) + 1] != other[..CommonLength(own, other) + 1]
  {
    var n := CommonLength(own, other);
    assert own[..n + 1][n] != other[..n + 1][n];
  }

  /** Although each clone takes the minimum over its own pairs, it cuts at the common prefix of all paths. */
  lemma CutIsCommonPrefix(paths: seq<string>, p: string)
    requires p in paths && Others(paths, p) != []
    ensures var n := MinCommon(StdComponents(p), Others(paths, p)); SharedByAll(paths, n) && !SharedByAll(paths, n + 1)
  {
    var own, others := StdComponents(p), Others(paths, p);
    var n := MinCommon(own, others);
    hide StdComponents, MinCommon, CommonLength, Others;
    MinCommonIsMin(own, others);
    forall q | q in paths ensures n <= |StdComponents(q)| && StdComponents(q)[..n] == own[..n] {
      if q in others {
        CutSharedWith(own, StdComponents(q), n);
      } else {
        assert SamePath(q, p);
      }
    }
    if n < |own| {
      var q :| q in others && n == CommonLength(own, StdComponents(q));
      if n < |StdComponents(q)| { CutNotLonger(own, StdComponents(q)); }
    }
  }

  lemma SharedIsDownward(paths: seq<string>, m: nat, n: nat)
    requires SharedByAll(paths, n) && m <= n
    ensures SharedByAll(paths, m)
  {
    forall p, q | p in paths && q in paths ensures m <= |StdComponents(p)| && StdComponents(p)[..m] == StdComponents(q)[..m] {
      var a, b := StdComponents(p), StdComponents(q);
      assert a[..n] == b[..n] && a[..m] == a[..n][..m] && b[..m] == b[..n][..m];
    }
  }

  /** So every `compute` call inside `recompute_all` uses the same index. */
  lemma SameCutForAll(paths: seq<string>, p: string, q: string)
    requires p in paths && q in paths && Others(paths, p) != [] && Others(paths, q) != []
    ensures MinCommon(StdComponents(p), Others(paths, p)) == MinCommon(StdComponents(q), Others(paths, q))
  {
    hide StdComponents, SharedByAll, MinCommon, Others;
    var m, n := MinCommon(StdComponents(p), Others(paths, p)), MinCommon(StdComponents(q), Others(paths, q));
    CutIsCommonPrefix(paths, p);
    CutIsCommonPrefix(paths, q);
    if m < n { SharedIsDownward(paths, m + 1, n); }
    if n < m { SharedIsDownward(paths, n + 1, m); }
  }

  // ---- Distinct clones, distinct strings -------------------------------------------------------------------

  predicate IsAbsolute(p: string) {
    p != "" && p[0] == '/'
  }

  /** A component below a root: a parent step or a proper name. */
  predicate InnerComponent(c: Component) {
    c == ParentDir || (c.Normal? && c.name != "" && c.name != "." && c.name != ".." && '/' !in c.name)
  }

  lemma {:induction false} NamedAreInner(pieces: seq<string>)
    requires AllFree(pieces, '/')
    ensures forall i :: 0 <= i < |Named(pieces)| ==> InnerComponent(Named(pieces)[i])
  {
    if pieces != [] {
      NamedAreInner(pieces[1..]);
    }
  }

  lemma AbsoluteComponents(p: string)
    requires IsAbsolute(p)
    ensures var c := StdComponents(p);
            c != [] && c[0] == RootDir && forall i :: 1 <= i < |c| ==> InnerComponent(c[i])
  {
    NamedAreInner(Split(p[1..], '/'));
  }

  /** A suffix of inner components joins to a non-empty string that does not start like an absolute path. */
  lemma InnerJoinIsRelative(a: seq<Component>)
    requires a != [] && forall i :: 0 <= i < |a| ==> InnerComponent(a[i])
    ensures Join(OsStrs(a), '/') != "" && Join(OsStrs(a), '/')[0] != '/'
  {
    assert OsStrs(a)[0] == OsStr(a[0]);
  }

  lemma OtherIsPresent(paths: seq<string>, p: string, q: string)
    requires q in paths && !SamePath(p, q)
    ensures q in Others(paths, p)
  {
  }

  // ---- Exactly when two clones collide -------------------------------------------------------------------------

  /** What `components` yields: only the first may be the root or a leading dot. */
  ghost predicate ComponentList(c: seq<Component>) {
    forall i :: 0 <= i < |c| ==> InnerComponent(c[i]) || (i == 0 && (c[0] == RootDir || c[0] == CurDir))
  }

  lemma StdComponentList(p: string)
    ensures ComponentList(StdComponents(p))
  {
    hide Split, Named;
    if p != "" {
      if p[0] == '/' {
        NamedAreInner(Split(p[1..], '/'));
      } else if Split(p, '/')[0] == "." {
        NamedAreInner(Split(p, '/')[1..]);
      } else {
        NamedAreInner(Split(p, '/'));
      }
    }
  }

  /** The `/`-separated pieces of a joined component list; the root contributes an empty piece before and after. */
  function PiecesOf(c: seq<Component>): seq<string>
    requires c != []
  {
    if c[0] == RootDir then (if |c| == 1 then ["", ""] else ["", ""] + OsStrs(c[1..])) else OsStrs(c)
  }

  lemma SplitOfRoot()
    ensures Split("/", '/') == ["", ""]
  {
    assert "/" == "" + ['/'] + "";
    SplitConcat("", "", '/');
    SplitOfFree("", '/');
  }

  /** Below the root the names follow two separators. */
  lemma SplitOfRooted(rest: seq<string>)
    requires rest != [] && AllFree(rest, '/')
    ensures Split(Join(["/"] + rest, '/'), '/') == ["", ""] + rest
  {
    hide Split, Join;
    var below := Join(rest, '/');
    RootJoined(rest);
    SplitConcat("/", below, '/');
    SplitOfRoot();
    SplitOfJoin(rest, '/');
  }

  lemma RootJoined(rest: seq<string>)
    requires rest != []
    ensures Join(["/"] + rest, '/') == "/" + ['/'] + Join(rest, '/')
  {
    assert (["/"] + rest)[1..] == rest;
  }

  lemma NamesAreFree(c: seq<Component>)
    requires ComponentList(c) && (c != [] ==> c[0] != RootDir)
    ensures AllFree(OsStrs(c), '/')
  {
  }

  lemma SplitOfComponents(c: seq<Component>)
    requires c != [] && ComponentList(c)
    ensures Split(Join(OsStrs(c), '/'), '/') == PiecesOf(c)
  {
    hide Split, Join, ComponentList, InnerComponent;
    if c[0] != RootDir {
      NamesAreFree(c);
      SplitOfJoin(OsStrs(c), '/');
    } else if |c| == 1 {
      SplitOfRoot();
      assert OsStrs(c) == ["/"];
      JoinOfOne("/");
    } else {
      var rest := OsStrs(c[1..]);
      TailOfComponents(c);
      NamesAreFree(c[1..]);
      assert OsStrs(c) == ["/"] + rest;
      SplitOfRooted(rest);
    }
  }

  lemma JoinOfOne(s: string)
    ensures Join([s], '/') == s
  {
  }

  lemma TailOfComponents(c: seq<Component>)
    requires |c| > 1 && ComponentList(c)
    ensures ComponentList(c[1..]) && c[1] != RootDir
  {
  }

  /** Joining components loses nothing: the joined string tells the list. */
  lemma JoinedComponentsInjective(a: seq<Component>, b: seq<Component>)
    requires a != [] && b != [] && ComponentList(a) && ComponentList(b)
    requires Join(OsStrs(a), '/') == Join(OsStrs(b), '/')
    ensures a == b
  {
    SplitOfComponents(a);
    SplitOfComponents(b);
    hide Join, Split;
    assert PiecesOf(a) == PiecesOf(b);
    FirstPieceTellsRoot(a);
    FirstPieceTellsRoot(b);
    if a[0] == RootDir {
      if |a| > 1 && |b| > 1 {
        assert (["", ""] + OsStrs(a[1..]))[2..] == (["", ""] + OsStrs(b[1..]))[2..];
        SameOsStrs(a[1..], b[1..]);
        assert a == [RootDir] + a[1..] && b == [RootDir] + b[1..];
      }
    } else {
      SameOsStrs(a, b);
    }
  }

  lemma FirstPieceTellsRoot(c: seq<Component>)
    requires c != [] && ComponentList(c)
    ensures PiecesOf(c)[0] == "" <==> c[0] == RootDir
  {
    assert c[0] != RootDir ==> OsStrs(c)[0] == OsStr(c[0]) != "";
  }

  lemma SameOsStrs(a: seq<Component>, b: seq<Component>)
    requires OsStrs(a) == OsStrs(b) && ComponentList(a) && ComponentList(b)
    requires (a != [] ==> a[0] != RootDir) && (b != [] ==> b[0] != RootDir)
    ensures a == b
  {
    assert |a| == |OsStrs(a)| == |OsStrs(b)| == |b|;
    forall i | 0 <= i < |a| ensures a[i] == b[i] {
      assert OsStrs(a)[i] == OsStrs(b)[i];
    }
  }

  lemma SuffixIsComponentList(c: seq<Component>, n: nat)
    requires ComponentList(c) && n <= |c|
    ensures ComponentList(c[n..])
  {
  }

  /** `p` is the common ancestor of all the paths, spelled like what is left of `q` below it. */
  ghost predicate AncestorSpelledLike(paths: seq<string>, p: string, q: string) {
    var n := MinCommon(StdComponents(p), Others(paths, p));
    && n == |StdComponents(p)| < |StdComponents(q)|
    && p == Join(OsStrs(StdComponents(q)[n..]), '/')
  }

  /** Two different clones get one string exactly when one of them is the common ancestor of all and is spelled like
      the other one's remainder below it. */
  lemma ClonesCollideIff(paths: seq<string>, p: string, q: string)
    requires p in paths && q in paths && !SamePath(p, q)
    ensures Computed(p, Others(paths, p)) == Computed(q, Others(paths, q))
       <==> AncestorSpelledLike(paths, p, q) || AncestorSpelledLike(paths, q, p)
  {
    OtherIsPresent(paths, p, q);
    OtherIsPresent(paths, q, p);
    SameCutForAll(paths, p, q);
    CutIsCommonPrefix(paths, p);
    var a, b := StdComponents(p), StdComponents(q);
    var n := MinCommon(a, Others(paths, p));
    assert n <= |a| && n <= |b| && a[..n] == b[..n];
    StdComponentList(p);
    StdComponentList(q);
    SuffixIsComponentList(a, n);
    SuffixIsComponentList(b, n);
    hide StdComponents, MinCommon, Others, SharedByAll, Join, OsStrs, ComponentList;
    if n < |a| && n < |b| {
      if Join(OsStrs(a[n..]), '/') == Join(OsStrs(b[n..]), '/') {
        JoinedComponentsInjective(a[n..], b[n..]);
        SuffixDecides(a, b, n);
      }
    } else if n == |a| && n == |b| {
      SuffixDecides(a, b, n);
    }
  }

  lemma SuffixDecides(a: seq<Component>, b: seq<Component>, n: nat)
    requires n <= |a| && n <= |b| && a[..n] == b[..n] && a[n..] == b[n..]
    ensures a == b
  {
    assert a == a[..n] + a[n..] && b == b[..n] + b[n..];
  }

  lemma SharedAtLeastRoot(paths: seq<string>, n: nat)
    requires !SharedByAll(paths, n + 1) && forall x :: x in paths ==> IsAbsolute(x)
    ensures n >= 1
  {
    forall p, q | p in paths && q in paths ensures StdComponents(p)[..1] == StdComponents(q)[..1] {
      AbsoluteComponents(p);
      AbsoluteComponents(q);
    }
  }

  /** Distinct clones under absolute paths get distinct, non-empty strings, the common ancestor itself included: an
      absolute path is spelled like no remainder. */
  lemma DisambiguationInjective(paths: seq<string>, p: string, q: string)
    requires p in paths && q in paths && !SamePath(p, q)
    requires forall x :: x in paths ==> IsAbsolute(x)
    ensures Computed(p, Others(paths, p)) != Computed(q, Others(paths, q))
    ensures Computed(p, Others(paths, p)) != ""
  {
    OtherIsPresent(paths, p, q);
    OtherIsPresent(paths, q, p);
    ClonesCollideIff(paths, p, q);
    AncestorIsRelative(paths, p, q);
    AncestorIsRelative(paths, q, p);
    NonEmptyString(paths, p);
  }

  /** Absolute paths share their root, so the cut leaves only proper components. */
  lemma AbsoluteCut(paths: seq<string>, p: string, q: string)
    requires p in paths && q in paths && Others(paths, p) != [] && forall x :: x in paths ==> IsAbsolute(x)
    ensures MinCommon(StdComponents(p), Others(paths, p)) >= 1
    ensures forall i :: 1 <= i < |StdComponents(q)| ==> InnerComponent(StdComponents(q)[i])
  {
    hide StdComponents, MinCommon, Others, SharedByAll, InnerComponent, IsAbsolute;
    CutIsCommonPrefix(paths, p);
    SharedAtLeastRoot(paths, MinCommon(StdComponents(p), Others(paths, p)));
    AbsoluteComponents(q);
  }

  /** What is left of an absolute path below the cut is not spelled like an absolute path. */
  lemma RemainderIsRelative(paths: seq<string>, p: string, q: string)
    requires p in paths && q in paths && Others(paths, p) != [] && forall x :: x in paths ==> IsAbsolute(x)
    ensures var n := MinCommon(StdComponents(p), Others(paths, p));
            n < |StdComponents(q)| ==> var rest := Join(OsStrs(StdComponents(q)[n..]), '/'); rest != "" && rest[0] != '/'
  {
    hide StdComponents, MinCommon, Others, InnerComponent, IsAbsolute, Join, OsStrs;
    var n, b := MinCommon(StdComponents(p), Others(paths, p)), StdComponents(q);
    AbsoluteCut(paths, p, q);
    if n < |b| { InnerJoinIsRelative(b[n..]); }
  }

  lemma AncestorIsRelative(paths: seq<string>, p: string, q: string)
    requires p in paths && q in paths && Others(paths, p) != [] && forall x :: x in paths ==> IsAbsolute(x)
    ensures !AncestorSpelledLike(paths, p, q)
  {
    hide StdComponents, MinCommon, Others, Join, OsStrs;
    RemainderIsRelative(paths, p, q);
  }

  lemma NonEmptyString(paths: seq<string>, p: string)
    requires p in paths && Others(paths, p) != [] && forall x :: x in paths ==> IsAbsolute(x)
    ensures Computed(p, Others(paths, p)) != ""
  {
    hide StdComponents, MinCommon, Others, Join, OsStrs;
    RemainderIsRelative(paths, p, p);
  }

  /** A clone gets the empty string exactly when it has no other clone beside it, however often it is listed. */
  lemma EmptyIffAlone(paths: seq<string>, p: string)
    requires p in paths && forall x :: x in paths ==> IsAbsolute(x)
    ensures Answer(paths, p) == "" <==> forall q :: q in paths ==> SamePath(q, p)
  {
    hide StdComponents, MinCommon, Join, OsStrs, IsAbsolute;
    var others := Others(paths, p);
    if others == [] {
      assert forall q :: q in paths ==> q !in others ==> SamePath(q, p);
    } else {
      assert others[0] in others;
      OnlyOne(paths, p, others[0]);
      NonEmptyString(paths, p);
    }
  }

  lemma OnlyOne(paths: seq<string>, p: string, q: string)
    requires p in paths && q in paths && !SamePath(q, p)
    ensures |paths| > 1
  {
    hide StdComponents;
  }

  /** The string hashed for a clone of one remote; an empty disambiguation leaves the remote alone. */
  function HashInput(normalizedRemote: string, disambiguation: string): string {
    if disambiguation == "" then normalizedRemote else normalizedRemote + "|" + disambiguation
  }

  /** The remote alone is hashed exactly for a clone with no other beside it. */
  lemma LoneCloneKeepsRemote(paths: seq<string>, p: string, remote: string)
    requires p in paths && forall x :: x in paths ==> IsAbsolute(x)
    ensures HashInput(remote, Answer(paths, p)) == remote <==> forall q :: q in paths ==> SamePath(q, p)
  {
    EmptyIffAlone(paths, p);
    hide Answer, StdComponents, IsAbsolute;
    assert |remote + "|" + Answer(paths, p)| > |remote|;
  }

  /** Hence distinct clones of one remote never hash the same input. */
  lemma ClonesHashDifferently(paths: seq<string>, p: string, q: string, remote: string)
    requires p in paths && q in paths && !SamePath(p, q)
    requires forall x :: x in paths ==> IsAbsolute(x)
    ensures HashInput(remote, Computed(p, Others(paths, p))) != HashInput(remote, Computed(q, Others(paths, q)))
  {
    DisambiguationInjective(paths, p, q);
    DisambiguationInjective(paths, q, p);
    var d, e := Computed(p, Others(paths, p)), Computed(q, Others(paths, q));
    hide Computed, Others;
    var n := |remote| + 1;
    assert (remote + "|" + d)[n..] == d && (remote + "|" + e)[n..] == e;
  }

  lemma ComponentsOfTwo()
    ensures StdComponents("a") == [Normal("a")] && StdComponents("a/a") == [Normal("a"), Normal("a")]
  {
    SplitOfFree("a", '/');
    assert "a/a" == "a" + ['/'] + "a";
    SplitConcat("a", "a", '/');
    hide Split;
    assert Named(["a"]) == [Normal("a")];
    assert ["a", "a"][1..] == ["a"];
    assert Named(["a", "a"]) == [Normal("a")] + Named(["a"]);
  }

  lemma OthersOfTwo()
    ensures var paths := ["a", "a/a"]; Others(paths, "a") == ["a/a"] && Others(paths, "a/a") == ["a"]
  {
    hide StdComponents;
    ComponentsOfTwo();
    var paths := ["a", "a/a"];
    assert paths[..1] == ["a"] && paths[..1][..0] == [];
    assert Others(["a"], "a") == [] && Others(["a"], "a/a") == ["a"];
  }

  lemma ComputedBesideOne(path: string, other: string)
    ensures var own, n := StdComponents(path), CommonLength(StdComponents(path), StdComponents(other));
            Computed(path, [other]) == if n < |own| then Join(OsStrs(own[n..]), '/') else path
  {
    hide StdComponents, CommonLength, Join;
    assert [other][..0] == [];
    assert MinCommon(StdComponents(path), []) == |StdComponents(path)|;
  }

  /** For relative paths the claim is false: a repository and a directory of the same name inside it get one string. */
  lemma RelativeClonesCollide()
    ensures var paths := ["a", "a/a"];
            !SamePath("a", "a/a") && Computed("a", Others(paths, "a")) == Computed("a/a", Others(paths, "a/a")) == "a"
  {
    hide StdComponents, Others, Computed, MinCommon, CommonLength;
    var one, two := [Normal("a")], [Normal("a"), Normal("a")];
    ComponentsOfTwo();
    OthersOfTwo();
    ComputedBesideOne("a", "a/a");
    ComputedBesideOne("a/a", "a");
    CommonLengthIs(one, two, 1);
    CommonLengthIs(two, one, 1);
    assert OsStrs(two[1..]) == ["a"];
  }
}
