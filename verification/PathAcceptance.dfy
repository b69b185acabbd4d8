/** Which inputs are accepted as paths, and with which error the others are refused, read off the pieces of the input. */
module PathAcceptance {
  import opened Wrappers
  import opened Text
  import opened PathNormalize
  import opened PathRelative
  import opened MountMap
  import opened MountRoundTrip
  import DockerAlias

  /** A drive letter is one of the fifty-two letters, and lowering takes the upper ones to their partners. */
  lemma LettersExactly(c: char)
    ensures Alphabetic(c) <==> c in UPPER || c in LOWER
    ensures c in UPPER ==> DockerAlias.Lower(c) == LOWER[c as int - 65]
    ensures c !in UPPER ==> DockerAlias.Lower(c) == c
  {
    LetterAt(c);
    if c in UPPER {
      LetterAt(DockerAlias.Lower(c));
    }
  }

  // ---- The home directory --------------------------------------------------------------------------------------

  /** Two outcomes that differ at most in the text an error quotes. */
  predicate SameOutcome(r: Result<string, PathError>, s: Result<string, PathError>) {
    r.Ok? == s.Ok? && (r.Ok? ==> r.value == s.value)
  }

  /** `~` and `~/...` stand for the home directory; every other input is read the same with and without one. */
  lemma TildeMeansHome(input: string, home: Home)
    requires home.Some?
    ensures input == "~" ==> SameOutcome(Normalize(input, home), Normalize(home.value, None))
    ensures "~/" <= input ==> SameOutcome(Normalize(input, home), Normalize(home.value + input[1..], None))
    ensures input != "~" && !("~/" <= input) ==> Normalize(input, home) == Normalize(input, None)
  {
    hide StripRoot, ToPosix, Split, Kept, Join;
    StartsWithTilde(input);
    if "~/" <= input {
      assert '\0' in input <==> '\0' in home.value + input[1..] by {
        assert input == ['~'] + input[1..];
      }
    } else if input == "~" {
      assert home.value + input[1..] == home.value;
      NothingToStrip();
    }
  }

  lemma StartsWithTilde(input: string)
    ensures "~/" <= input <==> |input| >= 2 && input[0] == '~' && input[1] == '/'
  {
  }

  lemma NothingToStrip()
    ensures StripRoot(ToPosix("")) == None
  {
  }

  // ---- Canonical paths -----------------------------------------------------------------------------------------

  /** The pieces start with a root: nothing or a drive, and a slash behind it. */
  predicate RootedPieces(ps: seq<string>) {
    |ps| >= 2 && (ps[0] == "" || (|ps[0]| == 2 && Alphabetic(ps[0][0]) && ps[0][1] == ':'))
  }

  lemma RootedIff(s: string)
    ensures RootedPieces(Pieces(s)) <==> StripRoot(s).Some?
    ensures StripRoot(s).Some? ==> Pieces(s) == [StripRoot(s).value.prefix] + Pieces(StripRoot(s).value.rest)
  {
    var rooted := StripRoot(s);
    if rooted.Some? {
      RootPieces(s, rooted.value);
    }
    if RootedPieces(Pieces(s)) {
      JoinOfSplit(s, '/');
      var ps := Pieces(s);
      assert s == ps[0] + ['/'] + Join(ps[1..], '/');
    }
  }

  /** The outcome for every input without a home directory: the pieces, cut at either slash, decide. */
  lemma NormalizeOnPieces(input: string)
    ensures var r, ps := Normalize(input, None), Pieces(ToPosix(input));
            if input == "" then r == Err(EmptyPath)
            else if '\0' in input then r == Err(InvalidNormalization)
            else if !RootedPieces(ps) then r == Err(RelativeInput(input))
            else if ".." in ps[1..] then r == Err(ContainsParentDir(input))
            else if forall c :: c in ps[1..] ==> c == "" || c == "." then r == Err(EmptyPath)
            else r.Ok? && Pieces(r.value) == [ps[0]] + Kept(ps[1..])
  {
    hide StripRoot, ToPosix, Split, Join;
    var posix := ToPosix(input);
    RootedIff(posix);
    if input != "" && '\0' !in input && StripRoot(posix).Some? {
      var rest := StripRoot(posix).value.rest;
      assert Pieces(posix)[1..] == Pieces(rest);
      KeepsNoneIff(Pieces(rest));
      if Normalize(input, None).Ok? {
        NormalizeIsCanonical(input, None);
      }
    }
  }

  lemma KeepsNoneIff(components: seq<string>)
    ensures Kept(components) == [] <==> forall c :: c in components ==> c == "" || c == "."
  {
    if Kept(components) != [] {
      assert Kept(components)[0] in components;
    }
  }

  // ---- Relative paths ------------------------------------------------------------------------------------------

  /** The outcome for every relative input. */
  lemma NormalizeRelativeOnPieces(input: string)
    ensures var r, ps := NormalizeRelative(input), Pieces(input);
            if input == "" then r == Err(Empty)
            else if '\0' in input then r == Err(NotNormalized(input))
            else if (|ps| >= 2 && ps[0] == "") || (|input| >= 2 && Alphabetic(input[0]) && input[1] == ':')
              then r == Err(Absolute(input))
            else if ".." in ps then r == Err(ParentTraversal(input))
            else if forall c :: c in ps ==> c == "" || c == "." then r == Err(Empty)
            else r.Ok? && Pieces(r.value) == Kept(ps)
  {
    hide Join, Split;
    KeepsNoneIff(Pieces(input));
    LeadingSlashIff(input);
    if NormalizeRelative(input).Ok? {
      NormalizeRelativeIsRelative(input);
    }
  }

  lemma LeadingSlashIff(s: string)
    ensures |Pieces(s)| >= 2 && Pieces(s)[0] == "" <==> s != "" && s[0] == '/'
  {
  }

  // ---- Mounts --------------------------------------------------------------------------------------------------

  /** The pair at `i` is the first that cannot be declared, and `e` says why: its host or its container is no path, or
      an earlier pair has its host, or else its container. */
  ghost predicate FirstFault(raw: seq<(string, string)>, i: nat, home: Home, e: PathError)
    requires i < |raw|
  {
    var host, container := Normalize(raw[i].0, home), Normalize(raw[i].1, home);
    if host.Err? then e == host.error
    else if container.Err? then e == container.error
    else if exists j :: 0 <= j < i && Normalize(raw[j].0, home) == host then e == DuplicateHost(host.value)
    else (exists j :: 0 <= j < i && Normalize(raw[j].1, home) == container) && e == DuplicateContainer(container.value)
  }

  lemma HostSeen(raw: seq<(string, string)>, i: nat, entries: seq<MountEntry>, home: Home, host: CanonicalPath)
    requires i <= |raw| && |entries| == i && forall j :: 0 <= j < i ==> Normalize(raw[j].0, home) == Ok(entries[j].host)
    ensures (exists e :: e in entries && e.host == host) <==> (exists j :: 0 <= j < i && Normalize(raw[j].0, home) == Ok(host))
  {
    hide Normalize, IsCanonical;
    if e :| e in entries && e.host == host {
      var j :| 0 <= j < i && entries[j] == e;
      assert Normalize(raw[j].0, home) == Ok(host);
    }
    if j :| 0 <= j < i && Normalize(raw[j].0, home) == Ok(host) {
      assert entries[j] in entries && entries[j].host == host;
    }
  }

  lemma ContainerSeen(raw: seq<(string, string)>, i: nat, entries: seq<MountEntry>, home: Home, container: CanonicalPath)
    requires i <= |raw| && |entries| == i
    requires forall j :: 0 <= j < i ==> Normalize(raw[j].1, home) == Ok(entries[j].container)
    ensures (exists e :: e in entries && e.container == container)
       <==> (exists j :: 0 <= j < i && Normalize(raw[j].1, home) == Ok(container))
  {
    hide Normalize, IsCanonical;
    if e :| e in entries && e.container == container {
      var j :| 0 <= j < i && entries[j] == e;
      assert Normalize(raw[j].1, home) == Ok(container);
    }
    if j :| 0 <= j < i && Normalize(raw[j].1, home) == Ok(container) {
      assert entries[j] in entries && entries[j].container == container;
    }
  }

  lemma UserInputIs(s: string, home: Home)
    ensures var r, n := FromUserInput(s, home), Normalize(s, home);
            r.Ok? == n.Ok? && (r.Ok? ==> r.value == n.value) && (r.Err? ==> r.error == n.error)
  {
  }

  lemma FaultOfPair(raw: seq<(string, string)>, i: nat, entries: seq<MountEntry>, home: Home, e: PathError)
    requires i < |raw| && NewMounts(raw[..i], home) == Ok(entries)
    ensures CheckEntry(entries, raw[i], home) == Err(e) <==> FirstFault(raw, i, home, e)
  {
    hide Normalize, NewMounts, IsCanonical, FromUserInput;
    UserInputIs(raw[i].0, home);
    UserInputIs(raw[i].1, home);
    if Normalize(raw[i].0, home).Ok? && Normalize(raw[i].1, home).Ok? {
      hide FirstFault, CheckEntry;
      FaultOfPaths(raw, i, entries, home, e);
    }
  }

  lemma FaultOfPaths(raw: seq<(string, string)>, i: nat, entries: seq<MountEntry>, home: Home, e: PathError)
    requires i < |raw| && NewMounts(raw[..i], home) == Ok(entries)
    requires FromUserInput(raw[i].0, home).Ok? && FromUserInput(raw[i].1, home).Ok?
    ensures CheckEntry(entries, raw[i], home) == Err(e) <==> FirstFault(raw, i, home, e)
  {
    hide Normalize, NewMounts, IsCanonical, FromUserInput;
    var host, container := FromUserInput(raw[i].0, home).value, FromUserInput(raw[i].1, home).value;
    UserInputIs(raw[i].0, home);
    UserInputIs(raw[i].1, home);
    EntriesOf(raw, i, entries, home);
    HostSeen(raw, i, entries, home, host);
    ContainerSeen(raw, i, entries, home, container);
    assert Normalize(raw[i].0, home) == Ok(host) && Normalize(raw[i].1, home) == Ok(container);
  }

  lemma EntriesOf(raw: seq<(string, string)>, i: nat, entries: seq<MountEntry>, home: Home)
    requires i < |raw| && NewMounts(raw[..i], home) == Ok(entries)
    ensures |entries| == i
    ensures forall j :: 0 <= j < i ==> Normalize(raw[j].0, home) == Ok(entries[j].host)
                                       && Normalize(raw[j].1, home) == Ok(entries[j].container)
  {
    NewMountsIff(raw[..i], home, entries);
    hide Normalize, NewMounts, DistinctKeys;
    assert forall j :: 0 <= j < i ==> raw[..i][j] == raw[j];
  }

  /** The error of a mount table is that of its first faulty pair. */
  lemma {:induction false} NewMountsErrIff(raw: seq<(string, string)>, home: Home, e: PathError)
    ensures NewMounts(raw, home) == Err(e)
       <==> exists i :: 0 <= i < |raw| && NewMounts(raw[..i], home).Ok? && FirstFault(raw, i, home, e)
    decreases |raw|
  {
    hide CheckEntry, FirstFault;
    if raw != [] {
      var n := |raw| - 1;
      NewMountsErrIff(raw[..n], home, e);
      assert forall i :: 0 <= i < n ==> raw[..n][..i] == raw[..i];
      forall i | 0 <= i < n
        ensures FirstFault(raw[..n], i, home, e) <==> FirstFault(raw, i, home, e)
      {
        FaultInPrefix(raw, n, i, home, e);
      }
      if NewMounts(raw[..n], home).Ok? {
        FaultOfPair(raw, n, NewMounts(raw[..n], home).value, home, e);
        assert raw == raw[..n + 1];
        forall i | 0 <= i < n
          ensures !(NewMounts(raw[..i], home).Ok? && FirstFault(raw, i, home, e))
        {
          if NewMounts(raw[..i], home).Ok? {
            NoEarlierFault(raw, i, home, e);
          }
        }
      }
    }
  }

  lemma FaultInPrefix(raw: seq<(string, string)>, n: nat, i: nat, home: Home, e: PathError)
    requires i < n <= |raw|
    ensures FirstFault(raw[..n], i, home, e) <==> FirstFault(raw, i, home, e)
  {
    hide Normalize;
    assert forall j :: 0 <= j < n ==> raw[..n][j] == raw[j];
  }

  lemma NoEarlierFault(raw: seq<(string, string)>, i: nat, home: Home, e: PathError)
    requires i < |raw| - 1 && NewMounts(raw[..i], home).Ok? && NewMounts(raw[..|raw| - 1], home).Ok?
    ensures !FirstFault(raw, i, home, e)
  {
    hide CheckEntry, FirstFault;
    var n := |raw| - 1;
    var entries := NewMounts(raw[..i], home).value;
    FaultOfPair(raw, i, entries, home, e);
    assert raw[..n][..i] == raw[..i];
    NextPair(raw[..n], i, entries, home);
  }

  /** Whatever a container path looks like, what comes back is canonical. */
  lemma ReturnedIsCanonical(local: string, entries: seq<MountEntry>, home: Home)
    ensures ToCanonical(local, entries, home).Ok? ==> IsCanonical(ToCanonical(local, entries, home).value)
  {
    hide Normalize, IsCanonical;
    if entries == [] {
      if Normalize(local, home).Ok? { NormalizeIsCanonical(local, home); }
    } else if FindMount(entries, Container, local).Some? {
      var f := FindMount(entries, Container, local).value;
      CoverFits(entries, Container, local);
      var swapped := SwapPrefix(local, f.container, f.host);
      if Normalize(swapped, home).Ok? { NormalizeIsCanonical(swapped, home); }
    }
  }

  lemma PosixConcat(s: string, t: string)
    ensures ToPosix(s + t) == ToPosix(s) + ToPosix(t)
  {
  }

  lemma PosixFixed(s: string)
    requires '\\' !in s
    ensures ToPosix(s) == s
  {
  }

  lemma PiecesBehind(p: CanonicalPath, t: string)
    ensures Pieces(ToPosix(p + "/" + t)) == Pieces(p) + Pieces(ToPosix(t))
    ensures '\0' in p + "/" + t <==> '\0' in t
  {
    hide ToPosix, Split;
    CanonicalRoot(p);
    PosixConcat(p + "/", t);
    PosixFixed(p + "/");
    SplitConcat(p, ToPosix(t), '/');
    assert p + "/" + ToPosix(t) == p + ['/'] + ToPosix(t);
  }

  lemma RootOfConcat(a: seq<string>, b: seq<string>)
    requires CanonicalPieces(a)
    ensures RootedPieces(a + b) && (a + b)[0] == a[0] && (a + b)[1..] == a[1..] + b
    ensures ".." in (a + b)[1..] <==> ".." in b
    ensures !(forall c :: c in (a + b)[1..] ==> c == "" || c == ".")
    ensures [a[0]] + Kept((a + b)[1..]) == a + Kept(b)
  {
    hide Kept, ProperComponent;
    assert (a + b)[1..] == a[1..] + b;
    InnerAreProper(a);
    assert a[1] in a[1..] + b;
    KeptOfProper(a[1..]);
    KeptConcat(a[1..], b);
    assert [a[0]] + (a[1..] + Kept(b)) == a + Kept(b);
  }

  lemma InnerAreProper(a: seq<string>)
    requires CanonicalPieces(a)
    ensures ".." !in a[1..] && a[1] in a[1..] && a[1] != "" && a[1] != "."
    ensures forall i :: 0 <= i < |a[1..]| ==> ProperComponent(a[1..][i])
  {
    assert a[1..][0] == a[1];
  }

  /** Normalizing what stands behind a canonical path. */
  lemma NormalizeBehind(p: CanonicalPath, t: string)
    ensures var r, ps := Normalize(p + "/" + t, None), Pieces(ToPosix(t));
            && (r.Ok? <==> '\0' !in t && ".." !in ps)
            && (r.Ok? ==> Pieces(r.value) == Pieces(p) + Kept(ps))
  {
    hide Kept, Normalize, ToPosix, Split, RootedPieces, CanonicalPieces;
    PiecesBehind(p, t);
    RootOfConcat(Pieces(p), Pieces(ToPosix(t)));
    NormalizeOnPieces(p + "/" + t);
  }

  /** Leading slashes name no component. */
  lemma {:induction false} TrimStartKeeps(s: string)
    ensures var t := TrimStart(s);
            && Kept(Pieces(ToPosix(t))) == Kept(Pieces(ToPosix(s)))
            && (".." in Pieces(ToPosix(t)) <==> ".." in Pieces(ToPosix(s))) && ('\0' in t <==> '\0' in s)
  {
    hide Kept;
    if s != "" && s[0] == '/' {
      var rest := s[1..];
      TrimStartKeeps(rest);
      assert s == "/" + rest && "" + ['/'] + ToPosix(rest) == "/" + ToPosix(rest);
      PosixConcat("/", rest);
      PosixFixed("/");
      SplitConcat("", ToPosix(rest), '/');
      SplitOfFree("", '/');
      KeptConcat([""], Pieces(ToPosix(rest)));
      OnlyEmptyKept();
    }
  }

  lemma OnlyEmptyKept()
    ensures Kept([""]) == []
  {
    assert [""][..0] == [];
  }

  /** The text that prefix swapping writes. */
  lemma SwappedBehind(local: string, from: CanonicalPath, to: CanonicalPath)
    requires |from| <= |local|
    ensures var suffix := TrimStart(local[|from|..]);
            SwapPrefix(local, from, to) == if suffix == "" then to else to + "/" + suffix
  {
    hide TrimStart;
    CanonicalDoesNotEndInSlash(to);
    TrimsNothing(to);
  }

  /** What a covered container path comes back as, whatever it looks like: its mount's host, followed by the components
      that the rest names; it is refused for a parent directory or a NUL in the rest. */
  lemma ReturnedOnPieces(entries: seq<MountEntry>, local: string, home: Home)
    requires entries != [] && Covered(entries, Container, local)
    ensures FindMount(entries, Container, local).Some?
    ensures var f := FindMount(entries, Container, local).value;
            && |f.container| <= |local|
            && var rest, r := local[|f.container|..], ToCanonical(local, entries, home);
            && (r.Ok? <==> '\0' !in rest && ".." !in Pieces(ToPosix(rest)))
            && (r.Ok? ==> Pieces(r.value) == Pieces(f.host) + Kept(Pieces(ToPosix(rest))))
  {
    hide TrimStart, Kept, SwapPrefix, FindMount, Covered, Normalize, ToPosix, Split;
    CoveredIsFound(entries, Container, local);
    CoverFits(entries, Container, local);
    var f := FindMount(entries, Container, local).value;
    FitsContainer(f, local);
    var rest := local[|f.container|..];
    TrimStartKeeps(rest);
    SwappedBehind(local, f.container, f.host);
    var suffix := TrimStart(rest);
    HomeDoesNotMatter(f.host, suffix, home);
    if suffix == "" {
      CanonicalIsFixed(f.host, home);
      NothingKept();
      assert Pieces(f.host) + [] == Pieces(f.host);
    } else {
      NormalizeBehind(f.host, suffix);
    }
  }

  lemma FitsContainer(f: MountEntry, local: string)
    requires |Key(f, Container)| <= |local|
    ensures |f.container| <= |local|
  {
  }

  lemma NothingKept()
    ensures Kept(Pieces(ToPosix(""))) == [] && ".." !in Pieces(ToPosix("")) && '\0' !in ""
  {
    OnlyEmptyKept();
    assert ToPosix("") == "";
  }

  lemma HomeDoesNotMatter(p: CanonicalPath, t: string, home: Home)
    ensures Normalize(p + "/" + t, home) == Normalize(p + "/" + t, None)
  {
    hide Normalize;
    CanonicalRoot(p);
    assert p != "" && p[0] != '~';
    if home.Some? {
      TildeMeansHome(p + "/" + t, home);
      StartsWithTilde(p + "/" + t);
    }
  }

  /** Without mounts both directions only normalize. */
  lemma NoMountsNormalize(text: string, home: Home)
    ensures FromCanonical(text, []) == Ok(text) && ToCanonical(text, [], home) == Normalize(text, home)
  {
  }

  // ---- Docker aliases ------------------------------------------------------------------------------------------

  /** Slashes behind a rewritten path do not count. */
  lemma TrailingSlashIgnored(input: string)
    requires DockerAlias.Canonicalize(input).Some?
    ensures DockerAlias.Canonicalize(input + "/") == DockerAlias.Canonicalize(input)
  {
    hide DockerAlias.RewriteRest;
    var first, second := DockerAlias.ALIAS_PREFIXES[0], DockerAlias.ALIAS_PREFIXES[1];
    OnePrefix(input);
    if first <= input {
      BehindPrefix(first, input);
      RestWithSlash(input[|first|..]);
    } else {
      BehindPrefix(second, input);
      RestWithSlash(input[|second|..]);
    }
  }

  lemma BehindPrefix(prefix: string, input: string)
    requires prefix <= input
    ensures prefix <= input + "/" && (input + "/")[|prefix|..] == input[|prefix|..] + "/"
  {
  }

  /** The two alias roots differ in their second character. */
  lemma OnePrefix(input: string)
    ensures DockerAlias.ALIAS_PREFIXES[1] <= input ==> !(DockerAlias.ALIAS_PREFIXES[0] <= input + "/")
  {
    var first, second := DockerAlias.ALIAS_PREFIXES[0], DockerAlias.ALIAS_PREFIXES[1];
    assert first[1] != second[1];
    if second <= input {
      assert input[1] == second[1] && (input + "/")[1] == input[1];
    }
  }

  lemma RestWithSlash(rest: string)
    requires DockerAlias.RewriteRest(rest).Some?
    ensures DockerAlias.RewriteRest(rest + "/") == DockerAlias.RewriteRest(rest)
  {
    hide TrimEnd, DockerAlias.IsDriveLetter;
    var i := DockerAlias.Find(rest, '/');
    FindBefore(rest, "/", '/');
    if i < |rest| {
      assert (rest + "/")[i + 1..] == rest[i + 1..] + "/";
      TrimMore(rest[i + 1..]);
    } else {
      assert (rest + "/")[i + 1..] == "";
    }
    assert (rest + "/")[..i] == rest[..i];
  }

  lemma {:induction false} FindBefore(s: string, t: string, c: char)
    requires t != "" && t[0] == c
    ensures DockerAlias.Find(s + t, c) == DockerAlias.Find(s, c)
  {
    if s != "" && s[0] != c {
      assert (s + t)[1..] == s[1..] + t;
      FindBefore(s[1..], t, c);
    }
  }

  lemma TrimMore(s: string)
    ensures TrimEnd(s + "/", '/') == TrimEnd(s, '/')
  {
    assert (s + "/")[..|s|] == s;
  }
}
