/** When a path survives the trip from host to container and back: the exact condition on the mount table. */
module MountRoundTrip {
  import opened Wrappers
  import opened PathNormalize
  import opened MountMap

  ghost predicate WellFormed(entries: seq<MountEntry>) {
    entries != [] && DistinctKeys(entries, Host) && DistinctKeys(entries, Container)
  }

  lemma CoveredIsFound(entries: seq<MountEntry>, side: Side, path: string)
    ensures Covered(entries, side, path) <==> FindMount(entries, side, path).Some?
  {
    FindMountIsLongest(entries, side, path);
  }

  /** With mounts declared, a host path translates exactly when a host covers it; the error names the path. */
  lemma TranslatesIffCovered(entries: seq<MountEntry>, c: string)
    requires entries != []
    ensures FromCanonical(c, entries).Ok? <==> Covered(entries, Host, c)
    ensures !Covered(entries, Host, c) ==> FromCanonical(c, entries) == Err(NoMountCoverage(c))
  {
    CoveredIsFound(entries, Host, c);
  }

  /** A container path that no container covers is refused; a covered canonical one translates. */
  lemma ReturnsIffCovered(entries: seq<MountEntry>, local: string, home: Home)
    requires entries != []
    ensures !Covered(entries, Container, local) ==> ToCanonical(local, entries, home) == Err(NoMountCoverage(local))
    ensures IsCanonical(local) ==> (ToCanonical(local, entries, home).Ok? <==> Covered(entries, Container, local))
  {
    CoveredIsFound(entries, Container, local);
    if IsCanonical(local) && Covered(entries, Container, local) {
      ReturnedPieces(entries, local, home);
    }
  }

  /** The local path of a covered canonical path, in pieces. */
  lemma TranslatedPieces(entries: seq<MountEntry>, p: CanonicalPath)
    requires entries != [] && FindMount(entries, Host, p).Some?
    ensures var e := FindMount(entries, Host, p).value;
            && FromCanonical(p, entries).Ok?
            && var local := FromCanonical(p, entries).value;
            && Pieces(e.host) <= Pieces(p) && IsCanonical(local)
            && Pieces(local) == Pieces(e.container) + Pieces(p)[|Pieces(e.host)|..]
  {
    FoundIsLongestPieces(entries, Host, p);
    SwapPieces(p, FindMount(entries, Host, p).value.host, FindMount(entries, Host, p).value.container);
  }

  lemma ReturnedPieces(entries: seq<MountEntry>, local: CanonicalPath, home: Home)
    requires entries != [] && FindMount(entries, Container, local).Some?
    ensures var f := FindMount(entries, Container, local).value;
            && Pieces(f.container) <= Pieces(local) && ToCanonical(local, entries, home).Ok?
            && var back := ToCanonical(local, entries, home).value;
            && IsCanonical(back) && Pieces(back) == Pieces(f.host) + Pieces(local)[|Pieces(f.container)|..]
  {
    FoundIsLongestPieces(entries, Container, local);
    var f := FindMount(entries, Container, local).value;
    SwapPieces(local, f.container, f.host);
    FixedPointIffCanonical(SwapPrefix(local, f.container, f.host), home);
  }

  /** For one path: it comes back exactly when no mount's container shadows its own on the way. */
  lemma RoundTripAt(entries: seq<MountEntry>, p: CanonicalPath, home: Home)
    requires WellFormed(entries) && FindMount(entries, Host, p).Some?
    ensures FromCanonical(p, entries).Ok?
    ensures RoundTrips(entries, p, home)
       <==> NotShadowed(entries, FindMount(entries, Host, p).value, FromCanonical(p, entries).value)
  {
    var e := FindMount(entries, Host, p).value;
    TranslatedPieces(entries, p);
    FoundIsLongestPieces(entries, Host, p);
    var local := FromCanonical(p, entries).value;
    PrefixIffPieces(local, e.container);
    assert Covered(entries, Container, local);
    CoveredIsFound(entries, Container, local);
    ReturnedPieces(entries, local, home);
    FoundIsLongestPieces(entries, Container, local);
    hide FromCanonical, ToCanonical, FindMount, IsCanonical, Pieces, Normalize, ComponentAwarePrefix;
    var f := FindMount(entries, Container, local).value;
    var back := ToCanonical(local, entries, home).value;
    ComeBackIff(entries, p, e, local, f, back);
  }

  lemma ComeBackIff(entries: seq<MountEntry>, p: CanonicalPath, e: MountEntry, local: CanonicalPath, f: MountEntry, back: CanonicalPath)
    requires WellFormed(entries) && e in entries && f in entries
    requires Pieces(e.host) <= Pieces(p) && Pieces(local) == Pieces(e.container) + Pieces(p)[|Pieces(e.host)|..]
    requires forall o :: o in entries && Pieces(o.host) <= Pieces(p) ==> Pieces(o.host) <= Pieces(e.host)
    requires Pieces(f.container) <= Pieces(local)
    requires forall o :: o in entries && Pieces(o.container) <= Pieces(local) ==> Pieces(o.container) <= Pieces(f.container)
    requires Pieces(back) == Pieces(f.host) + Pieces(local)[|Pieces(f.container)|..]
    ensures back == p <==> NotShadowed(entries, e, local)
  {
    var eh, ec, fh, fc := Pieces(e.host), Pieces(e.container), Pieces(f.host), Pieces(f.container);
    assert ec <= Pieces(local);
    if fc == ec {
      SameContainer(entries, e, f);
      assert Pieces(back) == Pieces(p);
      PiecesInjective(back, p);
    } else {
      assert ec < fc;
      assert !NotShadowed(entries, e, local);
      assert fh <= Pieces(back) && |Pieces(back)| == |fh| + |Pieces(local)| - |fc|;
    }
  }

  lemma SameContainer(entries: seq<MountEntry>, e: MountEntry, f: MountEntry)
    requires WellFormed(entries) && e in entries && f in entries && Pieces(e.container) == Pieces(f.container)
    ensures e == f
  {
    PiecesInjective(e.container, f.container);
    var i :| 0 <= i < |entries| && entries[i] == e;
    var j :| 0 <= j < |entries| && entries[j] == f;
    assert Key(entries[i], Container) == Key(entries[j], Container);
  }

  lemma SameHost(entries: seq<MountEntry>, e: MountEntry, f: MountEntry)
    requires WellFormed(entries) && e in entries && f in entries && Pieces(e.host) == Pieces(f.host)
    ensures e == f
  {
    PiecesInjective(e.host, f.host);
    var i :| 0 <= i < |entries| && entries[i] == e;
    var j :| 0 <= j < |entries| && entries[j] == f;
    assert Key(entries[i], Host) == Key(entries[j], Host);
  }

  /** Some mount's host lies inside the first host by a non-empty part of the way the second container goes down. */
  ghost predicate Answered(entries: seq<MountEntry>, e: MountEntry, f: MountEntry)
    requires Pieces(e.container) <= Pieces(f.container)
  {
    exists g :: g in entries && Pieces(e.host) < Pieces(g.host)
                && Pieces(g.host) <= Pieces(e.host) + Pieces(f.container)[|Pieces(e.container)|..]
  }

  /** Every container nested in another is answered by a host nested the same way. */
  ghost predicate NestingAnswered(entries: seq<MountEntry>) {
    forall e, f :: e in entries && f in entries && Pieces(e.container) < Pieces(f.container) ==> Answered(entries, e, f)
  }

  ghost predicate AllRoundTrip(entries: seq<MountEntry>, home: Home) {
    forall p: CanonicalPath :: Covered(entries, Host, p) ==> RoundTrips(entries, p, home)
  }

  /** If a nested container shadows the way of `p`, its answer is a longer host covering `p`. */
  lemma AnswerCovers(entries: seq<MountEntry>, p: CanonicalPath, e: MountEntry, f: MountEntry, local: CanonicalPath)
    requires Pieces(e.host) <= Pieces(p) && Pieces(local) == Pieces(e.container) + Pieces(p)[|Pieces(e.host)|..]
    requires Pieces(e.container) < Pieces(f.container) <= Pieces(local) && Answered(entries, e, f)
    ensures exists g :: g in entries && Pieces(e.host) < Pieces(g.host) && Pieces(g.host) <= Pieces(p)
  {
    var rest, u := Pieces(p)[|Pieces(e.host)|..], Pieces(f.container)[|Pieces(e.container)|..];
    assert rest == Pieces(local)[|Pieces(e.container)|..];
    assert u <= rest && Pieces(p) == Pieces(e.host) + rest;
  }

  lemma AnsweredPathRoundTrips(entries: seq<MountEntry>, p: CanonicalPath, home: Home)
    requires WellFormed(entries) && NestingAnswered(entries) && Covered(entries, Host, p)
    ensures RoundTrips(entries, p, home)
  {
    CoveredIsFound(entries, Host, p);
    RoundTripAt(entries, p, home);
    TranslatedPieces(entries, p);
    FoundIsLongestPieces(entries, Host, p);
    var e, local := FindMount(entries, Host, p).value, FromCanonical(p, entries).value;
    hide FromCanonical, ToCanonical, FindMount, IsCanonical, Pieces, RoundTrips;
    forall f | f in entries ensures !(Pieces(e.container) < Pieces(f.container) <= Pieces(local)) {
      if Pieces(e.container) < Pieces(f.container) <= Pieces(local) {
        AnswerCovers(entries, p, e, f, local);
      }
    }
  }

  lemma LongerHostAnswers(entries: seq<MountEntry>, e: MountEntry, f: MountEntry, g: MountEntry)
    requires g in entries && Pieces(e.container) <= Pieces(f.container) && Pieces(e.host) < Pieces(g.host)
    requires Pieces(g.host) <= Pieces(e.host) + Pieces(f.container)[|Pieces(e.container)|..]
    ensures Answered(entries, e, f)
  {
  }

  /** The host path that would reach the nested container through the outer mount. */
  lemma UnansweredPathFails(entries: seq<MountEntry>, e: MountEntry, f: MountEntry, home: Home) returns (p: CanonicalPath)
    requires WellFormed(entries) && e in entries && f in entries && Pieces(e.container) < Pieces(f.container)
    requires !Answered(entries, e, f)
    ensures Covered(entries, Host, p) && !RoundTrips(entries, p, home)
  {
    SwapPieces(f.container, e.container, e.host);
    p := SwapPrefix(f.container, e.container, e.host);
    PrefixIffPieces(p, e.host);
    assert Covered(entries, Host, p);
    CoveredIsFound(entries, Host, p);
    FoundIsLongestPieces(entries, Host, p);
    RoundTripAt(entries, p, home);
    TranslatedPieces(entries, p);
    var found, local := FindMount(entries, Host, p).value, FromCanonical(p, entries).value;
    hide FromCanonical, ToCanonical, FindMount, IsCanonical, Pieces, RoundTrips, SwapPrefix, ComponentAwarePrefix;
    assert Pieces(e.host) <= Pieces(found.host);
    if Pieces(found.host) == Pieces(e.host) {
      SameHost(entries, found, e);
      assert Pieces(local) == Pieces(f.container);
      assert !NotShadowed(entries, e, local);
    } else {
      LongerHostAnswers(entries, e, f, found);
    }
  }

  /** Translation to the container and back is the identity on every covered path exactly when, for every two mounts
      one of whose containers lies inside the other's, some mount's host lies inside the outer host on the same way. */
  lemma RoundTripIff(entries: seq<MountEntry>, home: Home)
    requires WellFormed(entries)
    ensures AllRoundTrip(entries, home) <==> NestingAnswered(entries)
  {
    if NestingAnswered(entries) {
      forall p: CanonicalPath | Covered(entries, Host, p) ensures RoundTrips(entries, p, home) {
        AnsweredPathRoundTrips(entries, p, home);
      }
    }
    if AllRoundTrip(entries, home) {
      hide RoundTrips, Covered;
      forall e, f | e in entries && f in entries && Pieces(e.container) < Pieces(f.container)
        ensures Answered(entries, e, f)
      {
        if !Answered(entries, e, f) {
          var p := UnansweredPathFails(entries, e, f, home);
        }
      }
    }
  }

  /** In particular always when no container lies inside another. */
  lemma UnnestedContainersRoundTrip(entries: seq<MountEntry>, home: Home)
    requires WellFormed(entries)
    requires forall e, f :: e in entries && f in entries ==> !(Pieces(e.container) < Pieces(f.container))
    ensures AllRoundTrip(entries, home)
  {
    RoundTripIff(entries, home);
  }

  /** An identity map passes every canonical path through and back. */
  lemma IdentityRoundTrips(p: CanonicalPath, home: Home)
    ensures RoundTrips([], p, home)
  {
    FixedPointIffCanonical(p, home);
  }
}
