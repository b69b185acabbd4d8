/** Environments in which a second run of PATH setup rewrites what the first one saved. */
module PathDivergence {
  import opened Wrappers
  import opened Text
  import opened PathConvergence
  import opened PathEnv
  import opened PathSetup
  import opened PathStability
  import PathNormalize

  /** `k` times `a`, then `$X`. */
  function SelfReference(k: nat): string {
    seq(k, i => 'a') + "$X"
  }

  const SELF_ENV: Env := map["X" := "a$X"]

  lemma {:induction false} ScanSelf(k: nat, i: nat)
    requires i <= k
    ensures Substitute(SELF_ENV, SelfReference(k), i) == Scanned(SelfReference(k + 1)[i..], true)
    decreases k - i
  {
    var s := SelfReference(k);
    if i < k {
      ScanSelf(k, i + 1);
      assert SelfReference(k + 1)[i..] == [s[i]] + SelfReference(k + 1)[i + 1..];
    } else {
      NameEndAt(s, k + 1, k + 2);
      assert s[k + 1..k + 2] == "X";
      assert SelfReference(k + 1)[k..] == "a$X" + "";
    }
  }

  /** A variable that refers to itself is substituted eleven times, then left as it is. */
  lemma {:induction false} SelfReferenceExpands(home: PathNormalize.Home, k: nat, depth: nat)
    requires depth <= 11
    ensures Expand(SELF_ENV, home, SelfReference(k), depth) == SelfReference(k + 11 - depth)
    decreases 11 - depth
  {
    if depth < 11 {
      hide Substitute;
      var s := SelfReference(k);
      assert s[0] != '~';
      ScanSelf(k, 0);
      assert SelfReference(k + 1)[0..] == SelfReference(k + 1);
      SelfReferenceExpands(home, k + 1, depth + 1);
    }
  }

  /** The saved path after `n` runs with `PATH=$X`, starting without one. */
  function SavedAfter(home: PathNormalize.Home, n: nat): Option<string> {
    if n == 0 then None else Setup(SELF_ENV, home, "$X", SavedAfter(home, n - 1)).0
  }

  ghost predicate IsSelf(x: string) {
    exists k: nat :: x == SelfReference(k)
  }

  ghost predicate AllSelf(xs: seq<string>) {
    forall i :: 0 <= i < |xs| ==> IsSelf(xs[i])
  }

  function Longest(xs: seq<string>): (i: nat)
    requires xs != []
    ensures i < |xs| && forall j :: 0 <= j < |xs| ==> |xs[j]| <= |xs[i]|
  {
    if |xs| == 1 then 0
    else
      var i := Longest(xs[..|xs| - 1]);
      if |xs[i]| < |xs[|xs| - 1]| then |xs| - 1 else i
  }

  lemma ExpandSelf(home: PathNormalize.Home, x: string)
    requires IsSelf(x)
    ensures IsSelf(Expand(SELF_ENV, home, x, 0)) && |Expand(SELF_ENV, home, x, 0)| == |x| + 11
  {
    hide Expand;
    var k: nat :| x == SelfReference(k);
    SelfReferenceExpands(home, k, 0);
  }

  lemma ExpandAllSelf(home: PathNormalize.Home, xs: seq<string>)
    requires AllSelf(xs)
    ensures AllSelf(ExpandAll(SELF_ENV, home, xs))
    ensures forall i :: 0 <= i < |xs| ==> |Expand(SELF_ENV, home, xs[i], 0)| == |xs[i]| + 11
  {
    hide Expand, IsSelf;
    forall i | 0 <= i < |xs|
      ensures IsSelf(Expand(SELF_ENV, home, xs[i], 0))
      ensures |Expand(SELF_ENV, home, xs[i], 0)| == |xs[i]| + 11
    {
      ExpandSelf(home, xs[i]);
    }
  }

  lemma DedupAllSelf(xs: seq<string>)
    requires AllSelf(xs)
    ensures AllSelf(Dedup(xs))
  {
    hide IsSelf;
    var r := Dedup(xs);
    forall i | 0 <= i < |r|
      ensures IsSelf(r[i])
    {
      assert r[i] in r;
    }
  }

  lemma SelfIsSegment(xs: seq<string>)
    requires AllSelf(xs)
    ensures SeparatorFree(xs) && forall i :: 0 <= i < |xs| ==> xs[i] != ""
  {
    forall i | 0 <= i < |xs|
      ensures PATH_SEPARATOR !in xs[i] && xs[i] != ""
    {
      assert IsSelf(xs[i]);
    }
  }

  /** The segments behind `SavedAfter`. */
  function SegmentsAfter(home: PathNormalize.Home, n: nat): seq<string> {
    if n == 0 then [] else Merged(SELF_ENV, home, "$X", SavedAfter(home, n - 1))
  }

  lemma {:induction false} SegmentsAfterRuns(home: PathNormalize.Home, n: nat)
    ensures var saved := SavedAfter(home, n);
            (if saved.Some? then saved.value else "") == Join(SegmentsAfter(home, n), PATH_SEPARATOR)
    ensures AllSelf(SegmentsAfter(home, n))
    ensures SegmentsAfter(home, n + 1)
            == Dedup([SelfReference(11)] + ExpandAll(SELF_ENV, home, SegmentsAfter(home, n)))
  {
    hide Expand, Dedup, Join, Split, ExpandAll;
    if n > 0 {
      SegmentsAfterRuns(home, n - 1);
      SavedAfterRun(SELF_ENV, home, "$X", SavedAfter(home, n - 1));
      var before := SegmentsAfter(home, n - 1);
      ExpandAllSelf(home, before);
      DedupAllSelf([SelfReference(11)] + ExpandAll(SELF_ENV, home, before));
    } else {
      EmptyJoin();
    }
    SelfIsSegment(SegmentsAfter(home, n));
    SegmentsOfJoin(SegmentsAfter(home, n));
    PathOfSelf(home);
  }

  lemma EmptyJoin()
    ensures Join([], PATH_SEPARATOR) == ""
  {
  }

  lemma PathOfSelf(home: PathNormalize.Home)
    ensures ExpandPathSegments(SELF_ENV, home, "$X") == [SelfReference(11)]
  {
    hide Expand, Split;
    SplitOfFree("$X", PATH_SEPARATOR);
    NonEmptyFixed(["$X"]);
    assert SelfReference(0) == "$X";
    SelfReferenceExpands(home, 0, 0);
  }

  /** Each run merges a segment that was not there before. */
  lemma NewSegment(home: PathNormalize.Home, segments: seq<string>)
    requires AllSelf(segments)
    ensures Dedup([SelfReference(11)] + ExpandAll(SELF_ENV, home, segments)) != segments
  {
    hide Expand, Dedup, SelfReference, AllSelf;
    var first, expanded := [SelfReference(11)], ExpandAll(SELF_ENV, home, segments);
    var updated := Dedup(first + expanded);
    if segments == [] {
      NonEmptySelf(11);
      assert (first + expanded)[0] in updated;
    } else {
      var i := Longest(segments);
      ExpandAllSelf(home, segments);
      assert (first + expanded)[i + 1] == expanded[i];
      assert expanded[i] in updated;
      assert expanded[i] !in segments;
    }
  }

  lemma NonEmptySelf(k: nat)
    ensures SelfReference(k) != ""
  {
  }

  /** With `X` set to `a$X` and `PATH=$X`, every run rewrites the saved path with something longer. */
  lemma SelfReferenceNeverSettles(home: PathNormalize.Home, n: nat)
    ensures Setup(SELF_ENV, home, "$X", SavedAfter(home, n)).1
  {
    hide *;
    var segments, updated := SegmentsAfter(home, n), SegmentsAfter(home, n + 1);
    SegmentsAfterRuns(home, n);
    SegmentsAfterRuns(home, n + 1);
    NewSegment(home, segments);
    SelfIsSegment(segments);
    SelfIsSegment(updated);
    if Join(updated, PATH_SEPARATOR) == Join(segments, PATH_SEPARATOR) {
      JoinOfSegmentsInjective(updated, segments);
    }
    RewritesWhenDifferent(home, n);
  }

  lemma RewritesWhenDifferent(home: PathNormalize.Home, n: nat)
    requires Join(SegmentsAfter(home, n + 1), PATH_SEPARATOR)
          != (if SavedAfter(home, n).Some? then SavedAfter(home, n).value else "")
    ensures Setup(SELF_ENV, home, "$X", SavedAfter(home, n)).1
  {
    hide Join, Merged, SavedAfter;
  }

  const SPLIT_ENV: Env := map["X" := "a:b"]

  lemma SeparatorInValueExpands(home: PathNormalize.Home)
    ensures ExpandPathSegments(SPLIT_ENV, home, "$X") == ["a:b"]
    ensures ExpandPathSegments(SPLIT_ENV, home, "a:b") == ["a", "b"]
    ensures ExpandPathSegments(SPLIT_ENV, home, "") == []
  {
    hide Split;
    SplitOfFree("$X", PATH_SEPARATOR);
    EmptyPathHasNoSegments();
    SplitConcat("a", "b", PATH_SEPARATOR);
    SplitOfFree("a", PATH_SEPARATOR);
    SplitOfFree("b", PATH_SEPARATOR);
    assert "a" + [PATH_SEPARATOR] + "b" == "a:b";
    NonEmptyFixed(["$X"]);
    NonEmptyFixed(["a", "b"]);
    ExpandSplitVariable(home);
    PlainSegmentFixed(SPLIT_ENV, home, "a", 0);
    PlainSegmentFixed(SPLIT_ENV, home, "b", 0);
  }

  lemma ExpandSplitVariable(home: PathNormalize.Home)
    ensures Expand(SPLIT_ENV, home, "$X", 0) == "a:b"
  {
    hide Substitute;
    SubstituteSplitVariable();
    PlainSegmentFixed(SPLIT_ENV, home, "a:b", 1);
  }

  lemma SubstituteSplitVariable()
    ensures Substitute(SPLIT_ENV, "$X", 0) == Scanned("a:b", true)
  {
    hide NameEnd, ClosingBrace;
    var s := "$X";
    NameEndAt(s, 1, 2);
    assert s[1..2] == "X";
    assert TokenAt(SPLIT_ENV, s, 0) == Token(2, "a:b", true);
    assert "a:b" + "" == "a:b";
  }

  /** A value that contains the separator is one segment when merged and two when read back, so the second run
      rewrites what the first one saved. */
  lemma SeparatorInValueRewrites(home: PathNormalize.Home)
    ensures Setup(SPLIT_ENV, home, "$X", None) == (Some("a:b"), true)
    ensures Setup(SPLIT_ENV, home, "$X", Some("a:b")) == (Some("a:b:a:b"), true)
  {
    hide Expand, Split, ExpandPathSegments, Dedup;
    SeparatorInValueExpands(home);
    DedupOfThree();
    assert ["a:b"] + [] == ["a:b"];
    assert ["a:b"] + ["a", "b"] == ["a:b", "a", "b"];
  }

  lemma DedupOfThree()
    ensures Dedup(["a:b"]) == ["a:b"] && Dedup(["a:b", "a", "b"]) == ["a:b", "a", "b"]
    ensures Join(["a:b"], PATH_SEPARATOR) == "a:b" && Join(["a:b", "a", "b"], PATH_SEPARATOR) == "a:b:a:b"
  {
    hide Dedup;
    EmptyDedup();
    assert [] + ["a:b"] == ["a:b"] && ["a:b"] + ["a"] == ["a:b", "a"] && ["a:b", "a"] + ["b"] == ["a:b", "a", "b"];
    assert |"a:b"| == 3;
    DedupSnoc([], "a:b");
    DedupSnoc(["a:b"], "a");
    DedupSnoc(["a:b", "a"], "b");
    JoinOfThree();
  }

  lemma JoinOfThree()
    ensures Join(["a:b"], PATH_SEPARATOR) == "a:b" && Join(["a:b", "a", "b"], PATH_SEPARATOR) == "a:b:a:b"
  {
    assert Join(["a", "b"], PATH_SEPARATOR) == "a:b" by {
      assert ["a", "b"][1..] == ["b"];
    }
    assert ["a:b", "a", "b"][1..] == ["a", "b"];
  }

  const UNCOVERED_ENV: Env := map["X" := "/bin"]

  /** With `U` unset and `X` set, the first expansion of `$${U}X` ends at `$X`, which the next one expands. */
  lemma UncoveredReferenceExpands(home: PathNormalize.Home)
    ensures Expand(UNCOVERED_ENV, home, "$${U}X", 0) == "$X"
    ensures Expand(UNCOVERED_ENV, home, "$X", 0) == "/bin"
    ensures Expand(UNCOVERED_ENV, home, "/bin", 0) == "/bin"
  {
    hide Substitute;
    PlainSegmentFixed(UNCOVERED_ENV, home, "/bin", 0);
    PlainSegmentFixed(UNCOVERED_ENV, home, "/bin", 1);
    ScanOfReference();
    ScanOfErased();
  }

  lemma ScanOfReference()
    ensures Substitute(UNCOVERED_ENV, "$X", 0) == Scanned("/bin", true)
  {
    hide ClosingBrace, NameEnd;
    NameEndAt("$X", 1, 2);
    assert "$X"[1..2] == "X";
    assert "/bin" + "" == "/bin";
    assert TokenAt(UNCOVERED_ENV, "$X", 0) == Token(2, "/bin", true);
  }

  lemma ScanOfErased()
    ensures Substitute(UNCOVERED_ENV, "$${U}X", 0) == Scanned("$X", false)
  {
    hide ClosingBrace, NameEnd;
    var s := "$${U}X";
    ClosingBraceAt(s, 3, 4);
    assert s[3..4] == "U";
    assert TokenAt(UNCOVERED_ENV, s, 0) == Token(1, "$", false);
    assert TokenAt(UNCOVERED_ENV, s, 1) == Token(5, "", false);
    assert TokenAt(UNCOVERED_ENV, s, 5) == Token(6, "X", false);
    assert Substitute(UNCOVERED_ENV, s, 6) == Scanned("", false);
    assert Substitute(UNCOVERED_ENV, s, 5) == Scanned("X", false);
    assert Substitute(UNCOVERED_ENV, s, 1) == Scanned("X", false);
  }

  /** With `U` unset, the first expansion of `$U~/x` ends at `~/x`, which the next one puts under the home directory. */
  lemma UncoveredTildeExpands(env: Env, home: PathNormalize.Home)
    requires "U" !in env && home.Some? && '$' !in home.value && OrdinaryHome(home)
    ensures Expand(env, home, "$U~/x", 0) == "~/x"
    ensures Expand(env, home, "~/x", 0) == home.value + "/x"
  {
    hide Substitute;
    ErasedFront(env);
    var text := home.value + "/x";
    assert text[0..] == text;
    PlainTail(env, text, 0);
    assert "~/x"[1..] == "/x";
  }

  lemma ErasedFront(env: Env)
    requires "U" !in env
    ensures Substitute(env, "$U~/x", 0) == Scanned("~/x", false)
  {
    hide ClosingBrace, NameEnd;
    var s := "$U~/x";
    NameEndAt(s, 1, 2);
    assert s[1..2] == "U";
    assert TokenAt(env, s, 0) == Token(2, "", false);
    PlainTail(env, s, 2);
    assert s[2..] == "~/x";
  }

  /** With `PATH=$${U}X` the second run rewrites what the first one saved. */
  lemma UncoveredReferenceRewrites(home: PathNormalize.Home)
    ensures Setup(UNCOVERED_ENV, home, "$${U}X", None) == (Some("$X"), true)
    ensures Setup(UNCOVERED_ENV, home, "$${U}X", Some("$X")) == (Some("$X:/bin"), true)
  {
    hide ExpandPathSegments, Dedup, Join;
    UncoveredSegments(home);
    assert ["$X"] + [] == ["$X"] && ["$X"] + ["/bin"] == ["$X", "/bin"];
    DedupOfTwo("$X", "/bin");
    assert "$X" + [PATH_SEPARATOR] + "/bin" == "$X:/bin";
  }

  lemma UncoveredSegments(home: PathNormalize.Home)
    ensures ExpandPathSegments(UNCOVERED_ENV, home, "$${U}X") == ["$X"]
    ensures ExpandPathSegments(UNCOVERED_ENV, home, "$X") == ["/bin"]
    ensures ExpandPathSegments(UNCOVERED_ENV, home, "") == []
  {
    hide Expand, Split;
    UncoveredReferenceExpands(home);
    SplitOfFree("$${U}X", PATH_SEPARATOR);
    SplitOfFree("$X", PATH_SEPARATOR);
    NonEmptyFixed(["$${U}X"]);
    NonEmptyFixed(["$X"]);
    EmptyPathHasNoSegments();
  }

  lemma DedupOfTwo(a: string, b: string)
    requires a != "" && b != "" && a != b
    ensures Dedup([a]) == [a] && Dedup([a, b]) == [a, b]
    ensures Join([a], PATH_SEPARATOR) == a && Join([a, b], PATH_SEPARATOR) == a + [PATH_SEPARATOR] + b
  {
    hide Dedup;
    EmptyDedup();
    assert [] + [a] == [a] && [a] + [b] == [a, b];
    DedupSnoc([], a);
    DedupSnoc([a], b);
    assert [a, b][1..] == [b];
  }
}
