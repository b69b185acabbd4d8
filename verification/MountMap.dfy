/** Host and container mounts: longest-prefix resolution, prefix swapping, and when translation round-trips. */
module MountMap {
  import opened Wrappers
  import opened Text
  import opened PathNormalize

  datatype MountEntry = MountEntry(host: CanonicalPath, container: CanonicalPath)

  datatype Side = Host | Container

  function Key(e: MountEntry, side: Side): CanonicalPath {
    if side == Host then e.host else e.container
  }

  // ---- Construction ----------------------------------------------------------------------------------------

  function CheckEntry(earlier: seq<MountEntry>, raw: (string, string), home: Home): Result<MountEntry, PathError> {
    var host, container := FromUserInput(raw.0, home), FromUserInput(raw.1, home);
    if host.Err? then Err(host.error)
    else if container.Err? then Err(container.error)
    else if exists e :: e in earlier && e.host == host.value then Err(DuplicateHost(host.value))
    else if exists e :: e in earlier && e.container == container.value then Err(DuplicateContainer(container.value))
    else Ok(MountEntry(host.value, container.value))
  }

  /** The declared pairs in order, or the error of the first pair that has one. */
  function NewMounts(raw: seq<(string, string)>, home: Home): Result<seq<MountEntry>, PathError> {
    if raw == [] then Ok([])
    else
      var init := NewMounts(raw[..|raw| - 1], home);
      if init.Err? then init
      else
        var entry := CheckEntry(init.value, raw[|raw| - 1], home);
        if entry.Err? then Err(entry.error) else Ok(init.value + [entry.value])
  }

  lemma {:induction false} ErrorPersists(raw: seq<(string, string)>, i: nat, home: Home)
    requires i <= |raw| && NewMounts(raw[..i], home).Err?
    ensures NewMounts(raw, home) == NewMounts(raw[..i], home)
    decreases |raw| - i
  {
    if i < |raw| {
      assert raw[..i + 1][..i] == raw[..i];
      ErrorPersists(raw, i + 1, home);
    } else {
      assert raw[..i] == raw;
    }
  }

  /** The next pair decides: its entry is appended, or its error is final. */
  lemma NextPair(raw: seq<(string, string)>, i: nat, entries: seq<MountEntry>, home: Home)
    requires i < |raw| && NewMounts(raw[..i], home) == Ok(entries)
    ensures var entry := CheckEntry(entries, raw[i], home);
            if entry.Ok? then NewMounts(raw[..i + 1], home) == Ok(entries + [entry.value])
            else NewMounts(raw, home) == Err(entry.error)
  {
    hide CheckEntry;
    assert raw[..i + 1][..i] == raw[..i];
    if CheckEntry(entries, raw[i], home).Err? { ErrorPersists(raw, i + 1, home); }
  }

  /** The hosts, or the containers, of the entries. */
  function KeySet(entries: seq<MountEntry>, side: Side): (keys: set<string>)
    ensures forall k :: k in keys <==> exists e :: e in entries && Key(e, side) == k
  {
    set e | e in entries :: Key(e, side)
  }

  lemma KeySetExtends(entries: seq<MountEntry>, e: MountEntry, side: Side)
    ensures KeySet(entries + [e], side) == KeySet(entries, side) + {Key(e, side)}
  {
    hide Key;
  }

  lemma KeysOfEntry(e: MountEntry)
    ensures Key(e, Host) == e.host && Key(e, Container) == e.container
  {
  }

  /** The duplicate checks are membership tests on the keys seen so far. */
  lemma CheckEntryBySets(entries: seq<MountEntry>, raw: (string, string), home: Home)
    ensures var host, container := FromUserInput(raw.0, home), FromUserInput(raw.1, home);
            CheckEntry(entries, raw, home) ==
            if host.Err? then Err(host.error)
            else if container.Err? then Err(container.error)
            else if host.value in KeySet(entries, Host) then Err(DuplicateHost(host.value))
            else if container.value in KeySet(entries, Container) then Err(DuplicateContainer(container.value))
            else Ok(MountEntry(host.value, container.value))
  {
    hide FromUserInput;
    assert forall h :: h in KeySet(entries, Host) <==> exists e :: e in entries && e.host == h by {
      assert forall e :: e in entries ==> Key(e, Host) == e.host;
    }
    assert forall c :: c in KeySet(entries, Container) <==> exists e :: e in entries && e.container == c by {
      assert forall e :: e in entries ==> Key(e, Container) == e.container;
    }
  }

  method New(raw: seq<(string, string)>, home: Home) returns (r: Result<seq<MountEntry>, PathError>)
    ensures r == NewMounts(raw, home)
  {
    var entries: seq<MountEntry> := [];
    var seenHosts: set<string>, seenContainers: set<string> := {}, {};
    for i := 0 to |raw|
      invariant NewMounts(raw[..i], home) == Ok(entries)
      invariant seenHosts == KeySet(entries, Host) && seenContainers == KeySet(entries, Container)
    {
      NextPair(raw, i, entries, home);
      CheckEntryBySets(entries, raw[i], home);
      hide NewMounts, FromUserInput, KeySet, CheckEntry, Key;
      var host := FromUserInput(raw[i].0, home);
      if host.Err? { return Err(host.error); }
      var container := FromUserInput(raw[i].1, home);
      if container.Err? { return Err(container.error); }
      if host.value in seenHosts { return Err(DuplicateHost(host.value)); }
      if container.value in seenContainers { return Err(DuplicateContainer(container.value)); }
      seenHosts, seenContainers := seenHosts + {host.value}, seenContainers + {container.value};
      var entry := MountEntry(host.value, container.value);
      KeysOfEntry(entry);
      KeySetExtends(entries, entry, Host);
      KeySetExtends(entries, entry, Container);
      entries := entries + [entry];
    }
    assert raw[..|raw|] == raw;
    r := Ok(entries);
  }

  ghost predicate DistinctKeys(entries: seq<MountEntry>, side: Side) {
    forall i, j :: 0 <= i < j < |entries| ==> Key(entries[i], side) != Key(entries[j], side)
  }

  /** The entries are the normal forms of the pairs. */
  ghost predicate Canonicalizes(raw: seq<(string, string)>, home: Home, entries: seq<MountEntry>) {
    && |entries| == |raw|
    && forall i :: 0 <= i < |raw| ==> Normalize(raw[i].0, home) == Ok(entries[i].host)
                                      && Normalize(raw[i].1, home) == Ok(entries[i].container)
  }

  lemma {:induction false} NewMountsLength(raw: seq<(string, string)>, home: Home)
    ensures NewMounts(raw, home).Ok? ==> |NewMounts(raw, home).value| == |raw|
  {
    hide CheckEntry;
    if raw != [] { NewMountsLength(raw[..|raw| - 1], home); }
  }

  /** A mount map exists exactly for pairs that all have normal forms, distinct on either side. */
  lemma {:induction false} NewMountsIff(raw: seq<(string, string)>, home: Home, entries: seq<MountEntry>)
    ensures NewMounts(raw, home) == Ok(entries)
       <==> Canonicalizes(raw, home, entries) && DistinctKeys(entries, Host) && DistinctKeys(entries, Container)
    decreases |raw|
  {
    hide Normalize;
    NewMountsLength(raw, home);
    if raw != [] && |entries| == |raw| {
      hide DistinctKeys, CheckEntry, Canonicalizes, NewMounts;
      var n := |raw| - 1;
      NewMountsIff(raw[..n], home, entries[..n]);
      CheckEntryIff(entries[..n], raw[n], home, entries[n]);
      DistinctExtends(entries, Host);
      DistinctExtends(entries, Container);
      CanonicalizesExtends(raw, home, entries);
      LastPair(raw, home, entries);
    }
  }

  lemma CanonicalizesExtends(raw: seq<(string, string)>, home: Home, entries: seq<MountEntry>)
    requires raw != [] && |entries| == |raw|
    ensures var n := |raw| - 1;
            (Canonicalizes(raw, home, entries)
             <==> && Canonicalizes(raw[..n], home, entries[..n])
                  && Normalize(raw[n].0, home) == Ok(entries[n].host)
                  && Normalize(raw[n].1, home) == Ok(entries[n].container))
  {
    hide Normalize;
    var n := |raw| - 1;
    assert forall i :: 0 <= i < n ==> raw[..n][i] == raw[i] && entries[..n][i] == entries[i];
  }

  lemma LastPair(raw: seq<(string, string)>, home: Home, entries: seq<MountEntry>)
    requires raw != [] && |entries| == |raw|
    ensures NewMounts(raw, home) == Ok(entries)
       <==> && NewMounts(raw[..|raw| - 1], home) == Ok(entries[..|raw| - 1])
            && CheckEntry(entries[..|raw| - 1], raw[|raw| - 1], home) == Ok(entries[|raw| - 1])
  {
    hide CheckEntry;
    var n := |raw| - 1;
    NewMountsLength(raw[..n], home);
    assert entries == entries[..n] + [entries[n]];
    var init := NewMounts(raw[..n], home);
    if init.Ok? && CheckEntry(init.value, raw[n], home).Ok? {
      var all := init.value + [CheckEntry(init.value, raw[n], home).value];
      assert all[..n] == init.value && all[n] == CheckEntry(init.value, raw[n], home).value;
    }
  }

  lemma CheckEntryIff(earlier: seq<MountEntry>, raw: (string, string), home: Home, e: MountEntry)
    ensures CheckEntry(earlier, raw, home) == Ok(e)
       <==> && Normalize(raw.0, home) == Ok(e.host) && Normalize(raw.1, home) == Ok(e.container)
            && forall o :: o in earlier ==> o.host != e.host && o.container != e.container
  {
    hide Normalize;
  }

  lemma DistinctExtends(entries: seq<MountEntry>, side: Side)
    requires entries != []
    ensures DistinctKeys(entries, side)
       <==> && DistinctKeys(entries[..|entries| - 1], side)
            && forall o :: o in entries[..|entries| - 1] ==> Key(o, side) != Key(entries[|entries| - 1], side)
  {
    hide Key, IsCanonical;
    var n := |entries| - 1;
    var init := entries[..n];
    assert forall i :: 0 <= i < n ==> init[i] == entries[i];
    if DistinctKeys(init, side) && forall o :: o in init ==> Key(o, side) != Key(entries[n], side) {
      forall i, j | 0 <= i < j < |entries| ensures Key(entries[i], side) != Key(entries[j], side) {
        assert init[i] in init;
      }
    }
    if DistinctKeys(entries, side) {
      forall o | o in init ensures Key(o, side) != Key(entries[n], side) {
        var i :| 0 <= i < n && init[i] == o;
      }
    }
  }

  // ---- Resolution ------------------------------------------------------------------------------------------

  predicate ComponentAwarePrefix(path: string, prefix: string) {
    path == prefix
    || (&& prefix <= path
        && ((prefix != "" && prefix[|prefix| - 1] == '/') || (|path| > |prefix| && path[|prefix|] == '/')))
  }

  /** The last of the longest covering entries, as `max_by_key` returns it. */
  function FindMount(entries: seq<MountEntry>, side: Side, path: string): Option<MountEntry> {
    if entries == [] then None
    else
      var best, last := FindMount(entries[..|entries| - 1], side, path), entries[|entries| - 1];
      if ComponentAwarePrefix(path, Key(last, side)) && (best.None? || |Key(last, side)| >= |Key(best.value, side)|)
      then Some(last) else best
  }

  ghost predicate IsLongest(entries: seq<MountEntry>, side: Side, path: string, e: MountEntry) {
    && e in entries && ComponentAwarePrefix(path, Key(e, side))
    && forall o :: o in entries && ComponentAwarePrefix(path, Key(o, side)) ==> |Key(o, side)| <= |Key(e, side)|
  }

  /** `best` is the answer for the entries: a longest covering one, or none. */
  ghost predicate IsBest(entries: seq<MountEntry>, side: Side, path: string, best: Option<MountEntry>) {
    match best
    case Some(e) => IsLongest(entries, side, path, e)
    case None => forall e :: e in entries ==> !ComponentAwarePrefix(path, Key(e, side))
  }

  lemma BestExtends(init: seq<MountEntry>, last: MountEntry, side: Side, path: string, best: Option<MountEntry>)
    requires IsBest(init, side, path, best)
    ensures var better := ComponentAwarePrefix(path, Key(last, side))
                          && (best.None? || |Key(last, side)| >= |Key(best.value, side)|);
            IsBest(init + [last], side, path, if better then Some(last) else best)
  {
    hide ComponentAwarePrefix, Key, IsCanonical;
    assert forall e :: e in init + [last] <==> e in init || e == last;
  }

  lemma {:induction false} FindMountIsLongest(entries: seq<MountEntry>, side: Side, path: string)
    ensures IsBest(entries, side, path, FindMount(entries, side, path))
  {
    hide ComponentAwarePrefix, Key;
    if entries != [] {
      hide IsBest;
      var n := |entries| - 1;
      FindMountIsLongest(entries[..n], side, path);
      BestExtends(entries[..n], entries[n], side, path, FindMount(entries[..n], side, path));
      assert entries == entries[..n] + [entries[n]];
    }
  }

  /** Two covering prefixes of one length are the same string, so the longest match is one entry. */
  lemma LongestIsUnique(entries: seq<MountEntry>, side: Side, path: string, e: MountEntry, o: MountEntry)
    requires DistinctKeys(entries, side) && IsLongest(entries, side, path, e) && IsLongest(entries, side, path, o)
    ensures e == o
  {
    assert Key(e, side) == path[..|Key(e, side)|] && Key(o, side) == path[..|Key(o, side)|];
  }

  /** The order of declaration does not matter. */
  lemma ResolutionIgnoresOrder(a: seq<MountEntry>, b: seq<MountEntry>, side: Side, path: string)
    requires DistinctKeys(a, side) && forall e :: e in a <==> e in b
    ensures FindMount(a, side, path) == FindMount(b, side, path)
  {
    FindMountIsLongest(a, side, path);
    FindMountIsLongest(b, side, path);
    if FindMount(a, side, path).Some? && FindMount(b, side, path).Some? {
      LongestIsUnique(a, side, path, FindMount(a, side, path).value, FindMount(b, side, path).value);
    }
  }

  lemma CanonicalDoesNotEndInSlash(s: CanonicalPath)
    ensures s != "" && s[|s| - 1] != '/'
  {
    JoinOfSplit(s, '/');
    LastCharOfJoin(Pieces(s));
  }

  lemma {:induction false} LastCharOfJoin(pieces: seq<string>)
    requires pieces != [] && pieces[|pieces| - 1] != "" && '/' !in pieces[|pieces| - 1]
    ensures var s := Join(pieces, '/'); s != "" && s[|s| - 1] != '/'
  {
    if |pieces| > 1 {
      LastCharOfJoin(pieces[1..]);
    }
  }

  /** The string test at a `/` boundary is the prefix relation on pieces. */
  lemma PrefixIffPieces(path: string, prefix: CanonicalPath)
    ensures ComponentAwarePrefix(path, prefix) <==> Pieces(prefix) <= Pieces(path)
  {
    CanonicalDoesNotEndInSlash(prefix);
    if path != prefix && ComponentAwarePrefix(path, prefix) {
      assert path == prefix + ['/'] + path[|prefix| + 1..];
      SplitConcat(prefix, path[|prefix| + 1..], '/');
    }
    if Pieces(prefix) < Pieces(path) {
      var rest := Pieces(path)[|Pieces(prefix)|..];
      JoinOfSplit(path, '/');
      JoinOfSplit(prefix, '/');
      assert Pieces(path) == Pieces(prefix) + rest;
      JoinConcat(Pieces(prefix), rest, '/');
    } else if Pieces(prefix) == Pieces(path) {
      PiecesInjective(prefix, path);
    }
  }

  // ---- Translation -----------------------------------------------------------------------------------------

  function TrimStart(s: string): string {
    if s != "" && s[0] == '/' then TrimStart(s[1..]) else s
  }

  function SwapPrefix(path: string, from: string, to: string): string
    requires |from| <= |path|
  {
    var suffix := TrimStart(path[|from|..]);
    var trimmed := TrimEnd(to, '/');
    if suffix == "" then to
    else if trimmed == "" then "/" + suffix
    else trimmed + "/" + suffix
  }

  lemma {:induction false} CoverFits(entries: seq<MountEntry>, side: Side, path: string)
    ensures FindMount(entries, side, path).Some? ==> |Key(FindMount(entries, side, path).value, side)| <= |path|
  {
    if entries != [] {
      CoverFits(entries[..|entries| - 1], side, path);
    }
  }

  function FromCanonical(c: string, entries: seq<MountEntry>): Result<string, PathError> {
    if entries == [] then Ok(c)
    else
      var entry := FindMount(entries, Host, c);
      if entry.None? then Err(NoMountCoverage(c))
      else
        CoverFits(entries, Host, c);
        Ok(SwapPrefix(c, entry.value.host, entry.value.container))
  }

  function ToCanonical(local: string, entries: seq<MountEntry>, home: Home): Result<string, PathError> {
    if entries == [] then Normalize(local, home)
    else
      var entry := FindMount(entries, Container, local);
      if entry.None? then Err(NoMountCoverage(local))
      else
        CoverFits(entries, Container, local);
        Normalize(SwapPrefix(local, entry.value.container, entry.value.host), home)
  }

  /** What follows a canonical prefix of a canonical path. */
  lemma SuffixPieces(path: CanonicalPath, from: CanonicalPath)
    requires Pieces(from) <= Pieces(path)
    ensures var rest := Pieces(path)[|Pieces(from)|..];
            && |from| <= |path|
            && path[|from|..] == (if rest == [] then "" else "/" + Join(rest, '/'))
  {
    hide Split, Join, ProperComponent;
    var rest := Pieces(path)[|Pieces(from)|..];
    PrefixIffPieces(path, from);
    JoinOfSplit(path, '/');
    JoinOfSplit(from, '/');
    assert Pieces(path) == Pieces(from) + rest;
    if rest == [] {
      assert Pieces(path) == Pieces(from);
    } else {
      JoinConcat(Pieces(from), rest, '/');
    }
  }

  lemma SwappedText(path: string, from: string, to: string, suffix: string)
    requires |from| <= |path| && to != "" && to[|to| - 1] != '/'
    requires suffix != "" && suffix[0] != '/' && path[|from|..] == "/" + suffix
    ensures SwapPrefix(path, from, to) == to + "/" + suffix
  {
    TrimsNothing(to);
    TrimsOne(suffix);
  }

  /** Swapping a canonical prefix for another replaces its pieces and keeps the rest. */
  lemma SwapPieces(path: CanonicalPath, from: CanonicalPath, to: CanonicalPath)
    requires Pieces(from) <= Pieces(path)
    ensures |from| <= |path| && IsCanonical(SwapPrefix(path, from, to))
    ensures Pieces(SwapPrefix(path, from, to)) == Pieces(to) + Pieces(path)[|Pieces(from)|..]
  {
    SuffixPieces(path, from);
    CanonicalDoesNotEndInSlash(to);
    var rest := Pieces(path)[|Pieces(from)|..];
    if rest == [] {
      assert Pieces(to) + rest == Pieces(to);
    } else {
      var suffix := Join(rest, '/');
      SuffixStart(rest);
      SwappedText(path, from, to, suffix);
      SplitOfJoin(rest, '/');
      SplitConcat(to, suffix, '/');
      assert CanonicalPieces(Pieces(to) + rest);
    }
  }

  lemma TrimsNothing(s: string)
    requires s != "" && s[|s| - 1] != '/'
    ensures TrimEnd(s, '/') == s
  {
  }

  lemma TrimsOne(s: string)
    requires s != "" && s[0] != '/'
    ensures TrimStart("/" + s) == s
  {
    assert ("/" + s)[1..] == s;
  }

  lemma SuffixStart(rest: seq<string>)
    requires rest != [] && rest[0] != "" && '/' !in rest[0]
    ensures Join(rest, '/') != "" && Join(rest, '/')[0] != '/'
  {
  }

  // ---- Round trip ------------------------------------------------------------------------------------------

  ghost predicate Covered(entries: seq<MountEntry>, side: Side, path: string) {
    exists e :: e in entries && ComponentAwarePrefix(path, Key(e, side))
  }

  ghost predicate RoundTrips(entries: seq<MountEntry>, p: string, home: Home) {
    && FromCanonical(p, entries).Ok?
    && ToCanonical(FromCanonical(p, entries).value, entries, home) == Ok(p)
  }

  /** No mount's container lies strictly between this one's and the translated path. */
  ghost predicate NotShadowed(entries: seq<MountEntry>, e: MountEntry, local: string) {
    forall f :: f in entries ==> !(Pieces(e.container) < Pieces(f.container) <= Pieces(local))
  }

  lemma FoundIsLongestPieces(entries: seq<MountEntry>, side: Side, path: string)
    requires FindMount(entries, side, path).Some?
    ensures var e := FindMount(entries, side, path).value;
            && e in entries && Pieces(Key(e, side)) <= Pieces(path)
            && forall o :: o in entries && Pieces(Key(o, side)) <= Pieces(path) ==> Pieces(Key(o, side)) <= Pieces(Key(e, side))
  {
    FindMountIsLongest(entries, side, path);
    var e := FindMount(entries, side, path).value;
    PrefixIffPieces(path, Key(e, side));
    forall o | o in entries && Pieces(Key(o, side)) <= Pieces(path)
      ensures Pieces(Key(o, side)) <= Pieces(Key(e, side))
    {
      PrefixIffPieces(path, Key(o, side));
      if |Pieces(Key(e, side))| < |Pieces(Key(o, side))| {
        LongerPiecesLongerString(Key(o, side), Key(e, side));
      }
    }
  }

  lemma LongerPiecesLongerString(longer: CanonicalPath, shorter: CanonicalPath)
    requires Pieces(shorter) < Pieces(longer)
    ensures |shorter| < |longer|
  {
    PrefixIffPieces(longer, shorter);
    assert longer != shorter;
  }
}
