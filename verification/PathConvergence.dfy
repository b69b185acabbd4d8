/** When a second run of PATH setup changes nothing. */
module PathConvergence {
  import opened Wrappers
  import opened Text
  import opened PathEnv
  import opened PathSetup
  import opened PathStability
  import PathNormalize

  lemma {:induction false} DedupPrefix(a: seq<string>, b: seq<string>)
    ensures Dedup(a) <= Dedup(a + b)
  {
    if b == [] {
      assert a + b == a;
    } else {
      DedupPrefix(a, b[..|b| - 1]);
      assert (a + b)[..|a + b| - 1] == a + b[..|b| - 1];
    }
  }

  /** What merging `b` after `a` adds. */
  function Fresh(a: seq<string>, b: seq<string>): seq<string> {
    DedupPrefix(a, b);
    Dedup(a + b)[|Dedup(a)|..]
  }

  lemma SameFreshIff(a: seq<string>, b: seq<string>, c: seq<string>)
    ensures Fresh(a, b) == Fresh(a, c) <==> Dedup(a + b) == Dedup(a + c)
  {
    hide Dedup;
    DedupPrefix(a, b);
    DedupPrefix(a, c);
    assert Dedup(a + b) == Dedup(a) + Fresh(a, b);
    assert Dedup(a + c) == Dedup(a) + Fresh(a, c);
  }

  function IndexOf(xs: seq<string>, x: string): (i: nat)
    requires x in xs
    ensures i < |xs| && xs[i] == x && x !in xs[..i]
  {
    if xs[0] == x then 0
    else
      var i := IndexOf(xs[1..], x) + 1;
      assert xs[..i] == [xs[0]] + xs[1..][..i - 1];
      i
  }

  /** Every entry of `tail` occurs in `xs`, and the first occurrences come in the order of `tail`. */
  ghost predicate InOrderOf(xs: seq<string>, tail: seq<string>) {
    && (forall k :: 0 <= k < |tail| ==> tail[k] in xs)
    && (forall j, k :: 0 <= j < k < |tail| ==> IndexOf(xs, tail[j]) < IndexOf(xs, tail[k]))
  }

  lemma IndexOfSnoc(xs: seq<string>, x: string, y: string)
    requires y in xs + [x]
    ensures IndexOf(xs + [x], y) == if y in xs then IndexOf(xs, y) else |xs|
  {
    hide IndexOf;
    var i := IndexOf(xs + [x], y);
    if y in xs {
      var j := IndexOf(xs, y);
      assert (xs + [x])[j] == y && (xs + [x])[..j] == xs[..j];
      FirstIsUnique(xs + [x], y, i, j);
    } else {
      assert x == y && (xs + [x])[|xs|] == y && (xs + [x])[..|xs|] == xs;
      FirstIsUnique(xs + [x], y, i, |xs|);
    }
  }

  lemma FirstIsUnique(xs: seq<string>, y: string, i: nat, j: nat)
    requires i < |xs| && xs[i] == y && y !in xs[..i]
    requires j < |xs| && xs[j] == y && y !in xs[..j]
    ensures i == j
  {
  }

  lemma InOrderSnoc(xs: seq<string>, x: string, f: seq<string>)
    requires InOrderOf(xs, f)
    ensures InOrderOf(xs + [x], f)
    ensures x !in xs ==> InOrderOf(xs + [x], f + [x])
  {
    hide IndexOf;
    forall y | y in xs + [x]
      ensures IndexOf(xs + [x], y) == if y in xs then IndexOf(xs, y) else |xs|
    {
      IndexOfSnoc(xs, x, y);
    }
  }

  lemma FreshMembers(a: seq<string>, b: seq<string>)
    ensures forall x :: x in Fresh(a, b) <==> x in b && x != "" && x !in a
  {
    DedupPrefix(a, b);
    assert Dedup(a + b) == Dedup(a) + Fresh(a, b);
    DisjointParts(Dedup(a), Fresh(a, b));
    forall x
      ensures x in Fresh(a, b) <==> x in b && x != "" && x !in a
    {
      assert x in Dedup(a + b) <==> x in Dedup(a) || x in Fresh(a, b);
    }
  }

  lemma DisjointParts(a: seq<string>, b: seq<string>)
    requires forall i, j :: 0 <= i < j < |a + b| ==> (a + b)[i] != (a + b)[j]
    ensures forall x :: x in b ==> x !in a
  {
    forall i, j | 0 <= i < |a| && 0 <= j < |b|
      ensures a[i] != b[j]
    {
      assert (a + b)[i] == a[i] && (a + b)[|a| + j] == b[j];
    }
  }

  lemma FreshSnoc(a: seq<string>, b: seq<string>, x: string)
    ensures Fresh(a, b + [x])
         == if x == "" || x in a || x in Fresh(a, b) then Fresh(a, b) else Fresh(a, b) + [x]
  {
    hide Dedup;
    assert a + (b + [x]) == a + b + [x];
    DedupSnoc(a + b, x);
    DedupPrefix(a, b);
    assert Dedup(a + b) == Dedup(a) + Fresh(a, b);
    assert x != "" ==> (x in Dedup(a) <==> x in a);
  }

  /** What merging adds: the new segments, in the order of their first occurrence. */
  lemma {:induction false} FreshInOrder(a: seq<string>, b: seq<string>)
    ensures forall x :: x in Fresh(a, b) <==> x in b && x != "" && x !in a
    ensures InOrderOf(b, Fresh(a, b))
  {
    hide Dedup, IndexOf;
    FreshMembers(a, b);
    if b == [] {
      assert a + b == a;
    } else {
      hide InOrderOf, Fresh;
      var init, x := b[..|b| - 1], b[|b| - 1];
      assert b == init + [x];
      FreshInOrder(a, init);
      FreshSnoc(a, init, x);
      InOrderSnoc(init, x, Fresh(a, init));
    }
  }

  lemma LastInOrder(xs: seq<string>, f: seq<string>)
    requires InOrderOf(xs, f) && f != []
    ensures var init, last := f[..|f| - 1], f[|f| - 1];
            && InOrderOf(xs, init) && last in xs && last !in init
            && (forall x :: x in f <==> x in init || x == last)
            && (forall x :: x in f ==> x in xs && IndexOf(xs, x) <= IndexOf(xs, last))
  {
    hide IndexOf;
    assert f == f[..|f| - 1] + [f[|f| - 1]];
  }

  lemma SameMembersEmpty(f: seq<string>, t: seq<string>)
    requires forall x :: x in f <==> x in t
    ensures f == [] <==> t == []
  {
    if f != [] { assert f[0] in f; }
    if t != [] { assert t[0] in t; }
  }

  /** Two lists of the same members, both in the order of `xs`, are the same list. */
  lemma {:induction false} SameOrder(xs: seq<string>, f: seq<string>, t: seq<string>)
    requires InOrderOf(xs, f) && InOrderOf(xs, t)
    requires forall x :: x in f <==> x in t
    ensures f == t
  {
    hide IndexOf, InOrderOf;
    SameMembersEmpty(f, t);
    if f != [] {
      var lf, lt := f[|f| - 1], t[|t| - 1];
      LastInOrder(xs, f);
      LastInOrder(xs, t);
      assert lf in f && lt in t;
      assert lf == xs[IndexOf(xs, lf)] && lt == xs[IndexOf(xs, lt)];
      SameOrder(xs, f[..|f| - 1], t[..|t| - 1]);
      assert f == f[..|f| - 1] + [lf] && t == t[..|t| - 1] + [lt];
    }
  }

  /** Exactly what a second list must be like for merging it to add the same segments. */
  lemma SameFreshInOrderIff(a: seq<string>, b: seq<string>, tail: seq<string>)
    requires forall k :: 0 <= k < |tail| ==> tail[k] != "" && tail[k] !in a
    ensures Fresh(a, b) == tail
        <==> && (forall i :: 0 <= i < |b| ==> b[i] == "" || b[i] in a || b[i] in tail)
             && InOrderOf(b, tail)
  {
    hide InOrderOf, Fresh;
    FreshInOrder(a, b);
    if Fresh(a, b) == tail {
      assert forall i :: 0 <= i < |b| ==> b[i] in b;
    }
    if (forall i :: 0 <= i < |b| ==> b[i] == "" || b[i] in a || b[i] in tail) && InOrderOf(b, tail) {
      InOrderOccurs(b, tail);
      assert forall x :: x in Fresh(a, b) <==> x in tail;
      SameOrder(b, Fresh(a, b), tail);
    }
  }

  lemma InOrderOccurs(xs: seq<string>, tail: seq<string>)
    requires InOrderOf(xs, tail)
    ensures forall x :: x in tail ==> x in xs
  {
  }

  lemma {:induction false} DedupAbsorbsPrefix(a: seq<string>, d: seq<string>, k: nat)
    requires Dedup(a) <= d && k <= |d|
    requires (forall i :: 0 <= i < |d| ==> d[i] != "") && (forall i, j :: 0 <= i < j < |d| ==> d[i] != d[j])
    ensures Dedup(a + d[..k]) == if k <= |Dedup(a)| then Dedup(a) else d[..k]
  {
    hide Dedup;
    var m := |Dedup(a)|;
    if k == 0 {
      assert a + d[..0] == a;
    } else {
      DedupAbsorbsPrefix(a, d, k - 1);
      assert a + d[..k] == a + d[..k - 1] + [d[k - 1]];
      DedupSnoc(a + d[..k - 1], d[k - 1]);
      if k - 1 < m {
        assert d[k - 1] == Dedup(a)[k - 1];
      } else {
        assert d[..m] == Dedup(a);
        assert d[..k] == d[..k - 1] + [d[k - 1]];
      }
    }
  }

  /** Merging a merged list again after the same segments adds nothing. */
  lemma DedupAbsorbs(a: seq<string>, b: seq<string>)
    ensures Dedup(a + Dedup(a + b)) == Dedup(a + b)
  {
    var d := Dedup(a + b);
    DedupPrefix(a, b);
    assert forall i :: 0 <= i < |d| ==> d[i] in d;
    DedupAbsorbsPrefix(a, d, |d|);
    assert d[..|d|] == d;
  }

  ghost predicate SeparatorFree(xs: seq<string>) {
    forall i :: 0 <= i < |xs| ==> PATH_SEPARATOR !in xs[i]
  }

  lemma {:induction false} NonEmptyFixed(xs: seq<string>)
    requires forall i :: 0 <= i < |xs| ==> xs[i] != ""
    ensures NonEmpty(xs) == xs
  {
    if xs != [] {
      NonEmptyFixed(xs[1..]);
    }
  }

  /** The saved path is read back as the segments that were merged. */
  lemma SegmentsOfJoin(merged: seq<string>)
    requires SeparatorFree(merged) && forall i :: 0 <= i < |merged| ==> merged[i] != ""
    ensures NonEmpty(Split(Join(merged, PATH_SEPARATOR), PATH_SEPARATOR)) == merged
  {
    if merged != [] {
      SplitOfJoin(merged, PATH_SEPARATOR);
      NonEmptyFixed(merged);
    }
  }

  lemma JoinOfSegmentsInjective(a: seq<string>, b: seq<string>)
    requires SeparatorFree(a) && forall i :: 0 <= i < |a| ==> a[i] != ""
    requires SeparatorFree(b) && forall i :: 0 <= i < |b| ==> b[i] != ""
    requires Join(a, PATH_SEPARATOR) == Join(b, PATH_SEPARATOR)
    ensures a == b
  {
    SegmentsOfJoin(a);
    SegmentsOfJoin(b);
  }

  lemma DedupNonEmpty(xs: seq<string>)
    ensures forall i :: 0 <= i < |Dedup(xs)| ==> Dedup(xs)[i] != ""
  {
    assert forall i :: 0 <= i < |Dedup(xs)| ==> Dedup(xs)[i] in Dedup(xs);
  }

  /** What a run saves reads as its merged segments, whether or not it had to write. */
  lemma SavedAfterRun(env: Env, home: PathNormalize.Home, path: string, saved: Option<string>)
    ensures var (after, _) := Setup(env, home, path, saved);
            (if after.Some? then after.value else "") == Join(Merged(env, home, path, saved), PATH_SEPARATOR)
  {
  }

  /** The pieces of a list of segments once it is written out and split again. */
  function Pieces(xs: seq<string>): seq<string> {
    if xs == [] then [] else Split(xs[0], PATH_SEPARATOR) + Pieces(xs[1..])
  }

  lemma {:induction false} PiecesConcat(a: seq<string>, b: seq<string>)
    ensures Pieces(a + b) == Pieces(a) + Pieces(b)
  {
    if a == [] {
      assert a + b == b;
    } else {
      assert (a + b)[1..] == a[1..] + b;
      PiecesConcat(a[1..], b);
    }
  }

  lemma {:induction false} PiecesOfFree(xs: seq<string>)
    requires SeparatorFree(xs)
    ensures Pieces(xs) == xs
  {
    if xs != [] {
      SplitOfFree(xs[0], PATH_SEPARATOR);
      PiecesOfFree(xs[1..]);
    }
  }

  lemma {:induction false} SplitOfJoinIsPieces(xs: seq<string>)
    requires xs != []
    ensures Split(Join(xs, PATH_SEPARATOR), PATH_SEPARATOR) == Pieces(xs)
  {
    if |xs| == 1 {
      assert Pieces(xs[1..]) == [];
    } else {
      SplitOfJoinIsPieces(xs[1..]);
      SplitConcat(xs[0], Join(xs[1..], PATH_SEPARATOR), PATH_SEPARATOR);
    }
  }

  /** What the saved path reads as. */
  lemma ReadBackIsPieces(xs: seq<string>)
    ensures NonEmpty(Split(Join(xs, PATH_SEPARATOR), PATH_SEPARATOR)) == NonEmpty(Pieces(xs))
  {
    if xs == [] {
      EmptyPathHasNoSegments();
    } else {
      SplitOfJoinIsPieces(xs);
    }
  }

  lemma SameJoinIffPieces(a: seq<string>, b: seq<string>)
    requires (forall i :: 0 <= i < |a| ==> a[i] != "") && (forall i :: 0 <= i < |b| ==> b[i] != "")
    ensures Join(a, PATH_SEPARATOR) == Join(b, PATH_SEPARATOR) <==> Pieces(a) == Pieces(b)
  {
    hide Join, Split;
    JoinEmptyIff(a);
    JoinEmptyIff(b);
    if a != [] {
      SplitOfJoinIsPieces(a);
      JoinOfSplit(Join(a, PATH_SEPARATOR), PATH_SEPARATOR);
    }
    if b != [] {
      SplitOfJoinIsPieces(b);
      JoinOfSplit(Join(b, PATH_SEPARATOR), PATH_SEPARATOR);
    }
  }

  lemma JoinEmptyIff(xs: seq<string>)
    requires forall i :: 0 <= i < |xs| ==> xs[i] != ""
    ensures Join(xs, PATH_SEPARATOR) == "" <==> xs == []
    ensures Pieces(xs) == [] <==> xs == []
  {
  }

  lemma SameAfterPrefix(a: seq<string>, b: seq<string>, c: seq<string>)
    ensures a + b == a + c <==> b == c
  {
    assert (a + b)[|a|..] == b && (a + c)[|a|..] == c;
  }

  lemma RunAgain(env: Env, home: PathNormalize.Home, path: string, saved: Option<string>)
    ensures var current, merged := ExpandPathSegments(env, home, path), Merged(env, home, path, saved);
            var images := ExpandAll(env, home, NonEmpty(Pieces(merged)));
            Setup(env, home, path, Setup(env, home, path, saved).0).1
            <==> Join(Dedup(current + images), PATH_SEPARATOR) != Join(merged, PATH_SEPARATOR)
  {
    hide ExpandAll, Dedup, Join, Split, Pieces, NonEmpty, Expand;
    var merged := Merged(env, home, path, saved);
    var after := Setup(env, home, path, saved).0;
    SavedAfterRun(env, home, path, saved);
    ReadBackIsPieces(merged);
    assert Merged(env, home, path, after)
        == Dedup(ExpandPathSegments(env, home, path) + ExpandPathSegments(env, home, Join(merged, PATH_SEPARATOR)));
  }

  /** A second run changes nothing exactly when the segments it finds new, written out, are the pieces that the first
      one had added after PATH's own. It reads the saved path piece by piece, so a separator inside a segment counts. */
  lemma SecondRunUnchangedPieces(env: Env, home: PathNormalize.Home, path: string, saved: Option<string>)
    ensures var current, merged := ExpandPathSegments(env, home, path), Merged(env, home, path, saved);
            var images := ExpandAll(env, home, NonEmpty(Pieces(merged)));
            && Dedup(current) <= merged
            && (!Setup(env, home, path, Setup(env, home, path, saved).0).1
                <==> Pieces(Fresh(current, images)) == Pieces(merged[|Dedup(current)|..]))
  {
    hide ExpandAll, Dedup, Join, Split, Pieces, NonEmpty, Expand, Setup;
    var current := ExpandPathSegments(env, home, path);
    var earlier := ExpandPathSegments(env, home, if saved.Some? then saved.value else "");
    var merged := Merged(env, home, path, saved);
    var images := ExpandAll(env, home, NonEmpty(Pieces(merged)));
    var own := Dedup(current);
    DedupPrefix(current, earlier);
    DedupPrefix(current, images);
    DedupNonEmpty(current + earlier);
    DedupNonEmpty(current + images);
    SameJoinIffPieces(Dedup(current + images), merged);
    RunAgain(env, home, path, saved);
    assert merged == own + merged[|own|..];
    assert Dedup(current + images) == own + Fresh(current, images);
    PiecesConcat(own, merged[|own|..]);
    PiecesConcat(own, Fresh(current, images));
    SameAfterPrefix(Pieces(own), Pieces(Fresh(current, images)), Pieces(merged[|own|..]));
  }

  /** With no separator inside a segment, a second run changes nothing exactly when every merged segment expands to
      nothing or to a merged segment, and the segments after PATH's own are among what the merged ones expand to, in
      the order in which they first appear there. */
  lemma SecondRunUnchangedIff(env: Env, home: PathNormalize.Home, path: string, saved: Option<string>)
    requires SeparatorFree(Merged(env, home, path, saved))
    requires SeparatorFree(ExpandAll(env, home, Merged(env, home, path, saved)))
    ensures var merged := Merged(env, home, path, saved);
            var images, m := ExpandAll(env, home, merged), |Dedup(ExpandPathSegments(env, home, path))|;
            && m <= |merged|
            && (!Setup(env, home, path, Setup(env, home, path, saved).0).1
                <==> && (forall i :: 0 <= i < |images| ==> images[i] == "" || images[i] in merged)
                     && InOrderOf(images, merged[m..]))
  {
    hide ExpandAll, Dedup, Setup, Pieces, NonEmpty, Fresh, InOrderOf, ExpandPathSegments, Expand;
    var current := ExpandPathSegments(env, home, path);
    var earlier := ExpandPathSegments(env, home, if saved.Some? then saved.value else "");
    var merged := Merged(env, home, path, saved);
    var images := ExpandAll(env, home, merged);
    DedupPrefix(current, earlier);
    var tail := merged[|Dedup(current)|..];
    SecondRunUnchangedPieces(env, home, path, saved);
    DedupNonEmpty(current + earlier);
    NonEmptyFixed(merged);
    PiecesOfFree(merged);
    TailIsNew(current, earlier);
    PiecesOfFree(tail);
    FreshInOrder(current, images);
    FreshSeparatorFree(current, images);
    PiecesOfFree(Fresh(current, images));
    SameFreshInOrderIff(current, images, tail);
    TailOrPrefix(current, earlier);
  }

  lemma TailIsNew(a: seq<string>, b: seq<string>)
    ensures Dedup(a) <= Dedup(a + b)
    ensures var tail := Dedup(a + b)[|Dedup(a)|..];
            forall k :: 0 <= k < |tail| ==> tail[k] != "" && tail[k] !in a
  {
    hide Dedup;
    DedupPrefix(a, b);
    FreshInOrder(a, b);
    assert forall k :: 0 <= k < |Fresh(a, b)| ==> Fresh(a, b)[k] in Fresh(a, b);
  }

  /** A non-empty segment is merged when it is one of the first list's or in the rest. */
  lemma TailOrPrefix(a: seq<string>, b: seq<string>)
    requires Dedup(a) <= Dedup(a + b)
    ensures forall x :: x != "" ==> (x in Dedup(a + b) <==> x in a || x in Dedup(a + b)[|Dedup(a)|..])
  {
    var d := Dedup(a + b);
    assert d == Dedup(a) + d[|Dedup(a)|..];
  }

  lemma FreshSeparatorFree(a: seq<string>, b: seq<string>)
    requires SeparatorFree(b)
    ensures SeparatorFree(Fresh(a, b))
  {
    hide Dedup;
    FreshInOrder(a, b);
    assert forall k :: 0 <= k < |Fresh(a, b)| ==> Fresh(a, b)[k] in Fresh(a, b);
  }

  /** PATH setup converges: when expansion leaves every merged segment alone and none contains the separator, a second
      run with the same PATH returns unchanged. */
  lemma FixedSegmentsConverge(env: Env, home: PathNormalize.Home, path: string, saved: Option<string>)
    requires var merged := Merged(env, home, path, saved); SeparatorFree(merged) && ExpandAll(env, home, merged) == merged
    ensures !Setup(env, home, path, Setup(env, home, path, saved).0).1
  {
    hide ExpandAll, Dedup, Pieces, NonEmpty, Setup, Expand;
    var current := ExpandPathSegments(env, home, path);
    var earlier := ExpandPathSegments(env, home, if saved.Some? then saved.value else "");
    DedupAbsorbs(current, earlier);
    SameFreshIff(current, Merged(env, home, path, saved), earlier);
    DedupNonEmpty(current + earlier);
    NonEmptyFixed(Merged(env, home, path, saved));
    PiecesOfFree(Merged(env, home, path, saved));
    SecondRunUnchangedPieces(env, home, path, saved);
  }

  /** A segment whose expansion ended before the depth limit and exposed nothing. */
  ghost predicate Settles(env: Env, home: PathNormalize.Home, segment: string) {
    var last := LastText(env, home, segment, 0);
    last.Some? && !Exposes(home, last.value)
  }

  /** So it does when every segment of PATH and of the saved path settles. */
  lemma SettledSegmentsConverge(env: Env, home: PathNormalize.Home, path: string, saved: Option<string>)
    requires OrdinaryHome(home) && SeparatorFree(Merged(env, home, path, saved))
    requires forall s :: s in NonEmpty(Split(path, PATH_SEPARATOR)) ==> Settles(env, home, s)
    requires saved.Some? ==>
               forall s :: s in NonEmpty(Split(saved.value, PATH_SEPARATOR)) ==> Settles(env, home, s)
    ensures !Setup(env, home, path, Setup(env, home, path, saved).0).1
  {
    hide Settles, Expand, Split, NonEmpty, Dedup, Setup;
    EmptyPathHasNoSegments();
    SettledImages(env, home, path);
    if saved.Some? { SettledImages(env, home, saved.value); }
    var merged := Merged(env, home, path, saved);
    assert forall i :: 0 <= i < |merged| ==> merged[i] in merged;
    FixedSegmentsConverge(env, home, path, saved);
  }

  lemma SettledImages(env: Env, home: PathNormalize.Home, path: string)
    requires OrdinaryHome(home)
    requires forall s :: s in NonEmpty(Split(path, PATH_SEPARATOR)) ==> Settles(env, home, s)
    ensures forall x :: x in ExpandPathSegments(env, home, path) ==> Expand(env, home, x, 0) == x
  {
    hide Expand, Split, NonEmpty, LastText, Exposes;
    var segments := NonEmpty(Split(path, PATH_SEPARATOR));
    forall i | 0 <= i < |segments|
      ensures var x := Expand(env, home, segments[i], 0); Expand(env, home, x, 0) == x
    {
      assert segments[i] in segments;
      MovesAgainOnlyIf(env, home, segments[i]);
    }
  }

  /** A merged segment that expands to something not yet merged makes the second run rewrite the saved path. */
  lemma EscapingSegmentRewrites(env: Env, home: PathNormalize.Home, path: string, saved: Option<string>, i: nat)
    requires var merged := Merged(env, home, path, saved); SeparatorFree(merged) && i < |merged|
    requires SeparatorFree(ExpandAll(env, home, Merged(env, home, path, saved)))
    requires var merged := Merged(env, home, path, saved);
             var x := Expand(env, home, merged[i], 0); x != "" && x !in merged
    ensures Setup(env, home, path, Setup(env, home, path, saved).0).1
  {
    hide Setup, Merged, Expand, InOrderOf;
    SecondRunUnchangedIff(env, home, path, saved);
    assert ExpandAll(env, home, Merged(env, home, path, saved))[i] !in Merged(env, home, path, saved);
  }
}
