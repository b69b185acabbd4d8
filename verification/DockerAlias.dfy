/** Docker Desktop mount aliases and their rewrite to the host form `/mnt/<drive>/...`. */
module DockerAlias {
  import opened Wrappers
  import opened Text
  import opened PathNormalize
  import opened MountMap

  const ALIAS_PREFIXES: seq<string> := ["/run/desktop/mnt/host/", "/host_mnt/"]

  predicate IsDriveLetter(s: string) {
    |s| == 1 && Alphabetic(s[0])
  }

  function Lower(c: char): char {
    if 'A' <= c <= 'Z' then c + 32 as char else c
  }

  function Find(s: string, c: char): (i: nat)
    ensures i <= |s| && c !in s[..i] && (i < |s| ==> s[i] == c)
  {
    if s == "" || s[0] == c then 0
    else
      var i := 1 + Find(s[1..], c);
      assert s[..i] == [s[0]] + s[1..][..i - 1];
      i
  }

  /** What follows the prefix: a drive component, and the rest without trailing slashes. */
  function RewriteRest(rest: string): Option<string> {
    var i := Find(rest, '/');
    var drive, suffix := rest[..i], if i < |rest| then rest[i + 1..] else "";
    if !IsDriveLetter(drive) then None
    else
      var trimmed := TrimEnd(suffix, '/');
      var mount := "/mnt/" + [Lower(drive[0])];
      Some(if trimmed == "" then mount else mount + "/" + trimmed)
  }

  /** The first matching prefix decides, even when its drive component is none. */
  function Canonicalize(input: string): Option<string> {
    if ALIAS_PREFIXES[0] <= input then RewriteRest(input[|ALIAS_PREFIXES[0]|..])
    else if ALIAS_PREFIXES[1] <= input then RewriteRest(input[|ALIAS_PREFIXES[1]|..])
    else None
  }

  /** The rewrite as a total map: callers leave an unmatched path alone. */
  function Rewrite(input: string): string {
    if Canonicalize(input).Some? then Canonicalize(input).value else input
  }

  const DESKTOP: seq<string> := ["", "run", "desktop", "mnt", "host"]
  const HOST_MNT: seq<string> := ["", "host_mnt"]

  lemma JoinOfCons(first: string, rest: seq<string>)
    requires rest != []
    ensures Join([first] + rest, '/') == first + "/" + Join(rest, '/')
  {
    assert ([first] + rest)[1..] == rest;
  }

  lemma InnerDesktopJoined()
    ensures Join(["desktop", "mnt", "host"], '/') == "desktop/mnt/host"
  {
    JoinOfCons("mnt", ["host"]);
    JoinOfCons("desktop", ["mnt", "host"]);
    assert ["mnt"] + ["host"] == ["mnt", "host"];
    assert ["desktop"] + ["mnt", "host"] == ["desktop", "mnt", "host"];
    assert Join(["host"], '/') == "host";
  }

  lemma DesktopJoined()
    ensures Join(DESKTOP, '/') == "/run/desktop/mnt/host"
  {
    hide Join;
    InnerDesktopJoined();
    var inner := ["desktop", "mnt", "host"];
    JoinOfCons("run", inner);
    JoinOfCons("", ["run"] + inner);
    assert [""] + (["run"] + inner) == DESKTOP;
    assert "run" + "/" + "desktop/mnt/host" == "run/desktop/mnt/host";
  }

  lemma DesktopPieces()
    ensures Pieces("/run/desktop/mnt/host") == DESKTOP
  {
    hide Join, Split;
    DesktopJoined();
    SplitOfJoin(DESKTOP, '/');
  }

  lemma HostMntPieces()
    ensures Pieces("/host_mnt") == HOST_MNT
  {
    assert Join(HOST_MNT[1..], '/') == "host_mnt";
    assert Join(HOST_MNT, '/') == "" + ['/'] + "host_mnt" == "/host_mnt";
    SplitOfJoin(HOST_MNT, '/');
  }

  lemma AliasRoots()
    ensures Pieces("/run/desktop/mnt/host") == DESKTOP && Pieces("/host_mnt") == HOST_MNT
    ensures ALIAS_PREFIXES[0] == "/run/desktop/mnt/host" + "/" && ALIAS_PREFIXES[1] == "/host_mnt" + "/"
    ensures CanonicalPieces(DESKTOP) && CanonicalPieces(HOST_MNT)
  {
    DesktopPieces();
    HostMntPieces();
    hide Pieces;
  }

  /** A canonical path carries the alias prefix exactly when its pieces go on below the alias root. */
  lemma PrefixMeansPieces(s: CanonicalPath, root: CanonicalPath)
    ensures root + "/" <= s <==> Pieces(root) < Pieces(s)
    ensures Pieces(root) < Pieces(s) ==> Pieces(s[|root| + 1..]) == Pieces(s)[|Pieces(root)|..]
  {
    PrefixIffPieces(s, root);
    CanonicalDoesNotEndInSlash(root);
    if Pieces(root) < Pieces(s) {
      assert s != root;
    }
    if root + "/" <= s {
      assert s == root + ['/'] + s[|root| + 1..];
      SplitConcat(root, s[|root| + 1..], '/');
    }
  }

  /** Below the alias root the first piece must be a drive; it is lowered and the rest is kept. */
  lemma RewritePieces(rest: string)
    requires forall i :: 0 <= i < |Pieces(rest)| ==> ProperComponent(Pieces(rest)[i])
    ensures RewriteRest(rest).Some? <==> IsDriveLetter(Pieces(rest)[0])
    ensures RewriteRest(rest).Some? ==>
              && IsCanonical(RewriteRest(rest).value)
              && Pieces(RewriteRest(rest).value) == ["", "mnt", [Lower(Pieces(rest)[0][0])]] + Pieces(rest)[1..]
  {
    var i := Find(rest, '/');
    var pieces := Pieces(rest);
    if i < |rest| {
      SplitHead(rest, '/', i);
    } else {
      assert rest[..i] == rest;
      SplitOfFree(rest, '/');
    }
    if IsDriveLetter(pieces[0]) {
      var d := [Lower(pieces[0][0])];
      MountPieces(d);
      if i < |rest| {
        var suffix := rest[i + 1..];
        JoinOfSplit(suffix, '/');
        LastCharOfJoin(Pieces(suffix));
        TrimsNothing(suffix);
        assert "/mnt/" + d + "/" + suffix == ("/mnt/" + d) + ['/'] + suffix;
        SplitConcat("/mnt/" + d, suffix, '/');
      }
      assert CanonicalPieces(["", "mnt", d] + pieces[1..]);
    }
  }

  lemma MountPieces(d: string)
    requires |d| == 1 && d[0] != '/'
    ensures Pieces("/mnt/" + d) == ["", "mnt", d]
  {
    var parts := ["", "mnt", d];
    assert Join(parts[1..][1..], '/') == d;
    assert Join(parts[1..], '/') == "mnt" + ['/'] + d == "mnt/" + d;
    assert Join(parts, '/') == "" + ['/'] + ("mnt/" + d) == "/mnt/" + d;
    SplitOfJoin(parts, '/');
  }

  ghost predicate BelowAlias(pieces: seq<string>, root: seq<string>) {
    root < pieces && IsDriveLetter(pieces[|root|])
  }

  ghost predicate RewrittenBelow(s: string, root: seq<string>) {
    && Canonicalize(s).Some? && IsCanonical(Canonicalize(s).value)
    && |root| < |Pieces(s)| && |Pieces(s)[|root|]| == 1
    && Pieces(Canonicalize(s).value) == ["", "mnt", [Lower(Pieces(s)[|root|][0])]] + Pieces(s)[|root| + 1..]
  }

  /** Which of the two prefixes matches, in pieces. */
  lemma MatchedPrefix(s: CanonicalPath)
    ensures DESKTOP < Pieces(s) ==>
              "/run/desktop/mnt/host/" <= s && Canonicalize(s) == RewriteRest(s[|"/run/desktop/mnt/host"| + 1..])
    ensures HOST_MNT < Pieces(s) ==> "/host_mnt/" <= s && Canonicalize(s) == RewriteRest(s[|"/host_mnt"| + 1..])
    ensures !(DESKTOP < Pieces(s)) && !(HOST_MNT < Pieces(s)) ==> Canonicalize(s).None?
  {
    hide Pieces, RewriteRest, IsCanonical;
    AliasRoots();
    RootsCanonical();
    PrefixMeansPieces(s, "/run/desktop/mnt/host");
    PrefixMeansPieces(s, "/host_mnt");
    AliasFamiliesDisjoint(Pieces(s));
  }

  lemma RootsCanonical()
    ensures IsCanonical("/run/desktop/mnt/host") && IsCanonical("/host_mnt")
  {
    AliasRoots();
  }

  /** On canonical paths: which are rewritten, and to what. Both alias families meet in one host form. */
  lemma RewriteOnPieces(s: CanonicalPath)
    ensures BelowAlias(Pieces(s), DESKTOP) ==> RewrittenBelow(s, DESKTOP)
    ensures BelowAlias(Pieces(s), HOST_MNT) ==> RewrittenBelow(s, HOST_MNT)
    ensures !BelowAlias(Pieces(s), DESKTOP) && !BelowAlias(Pieces(s), HOST_MNT) ==> Canonicalize(s).None?
    ensures IsCanonical(Rewrite(s))
  {
    MatchedPrefix(s);
    AliasFamiliesDisjoint(Pieces(s));
    AliasRoots();
    RootsCanonical();
    hide Pieces, Canonicalize, RewriteRest, IsCanonical;
    if DESKTOP < Pieces(s) {
      RewriteBelow(s, "/run/desktop/mnt/host");
    } else if HOST_MNT < Pieces(s) {
      RewriteBelow(s, "/host_mnt");
    }
  }

  lemma AliasFamiliesDisjoint(pieces: seq<string>)
    ensures !(DESKTOP <= pieces && HOST_MNT <= pieces)
  {
    if DESKTOP <= pieces { assert pieces[1] == "run"; }
  }

  lemma RewriteBelow(s: CanonicalPath, root: CanonicalPath)
    requires root + "/" <= s
    ensures Pieces(root) < Pieces(s)
    ensures var rest, n := s[|root| + 1..], |Pieces(root)|;
            && (RewriteRest(rest).Some? <==> IsDriveLetter(Pieces(s)[n]))
            && (RewriteRest(rest).Some? ==>
                  && IsCanonical(RewriteRest(rest).value)
                  && Pieces(RewriteRest(rest).value) == ["", "mnt", [Lower(Pieces(s)[n][0])]] + Pieces(s)[n + 1..])
  {
    PrefixMeansPieces(s, root);
    var n := |Pieces(root)|;
    assert Pieces(s)[n..][1..] == Pieces(s)[n + 1..];
    RewritePieces(s[|root| + 1..]);
  }

  /** Rewriting a canonical path twice is rewriting it once: a host form is never an alias. */
  lemma RewriteIdempotent(s: CanonicalPath)
    ensures Rewrite(Rewrite(s)) == Rewrite(s)
  {
    RewriteOnPieces(s);
    if Canonicalize(s).Some? {
      var t := Canonicalize(s).value;
      assert Pieces(t)[1] == "mnt";
      NotAnAlias(t);
    }
  }

  lemma NotAnAlias(t: CanonicalPath)
    requires |Pieces(t)| > 1 && Pieces(t)[1] == "mnt"
    ensures Canonicalize(t).None?
  {
    assert !(DESKTOP <= Pieces(t)) by { assert DESKTOP[1] == "run"; }
    assert !(HOST_MNT <= Pieces(t)) by { assert HOST_MNT[1] == "host_mnt"; }
    RewriteOnPieces(t);
  }
}
