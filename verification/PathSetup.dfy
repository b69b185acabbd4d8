/** Merging PATH with the saved path.

    The saved path is an abstract cell. */
module PathSetup {
  import opened Wrappers
  import opened Text
  import opened PathEnv
  import PathNormalize

  const PATH_SEPARATOR := ':'

  // ---- Merge and deduplicate -------------------------------------------------------

  /** The first occurrences of the non-empty segments. */
  function Dedup(xs: seq<string>): (r: seq<string>)
    ensures forall x :: x in r <==> x in xs && x != ""
    ensures forall i, j :: 0 <= i < j < |r| ==> r[i] != r[j]
  {
    if xs == [] then []
    else
      var init, last := Dedup(xs[..|xs| - 1]), xs[|xs| - 1];
      assert forall x :: x in xs <==> x in xs[..|xs| - 1] || x == last;
      if last == "" || last in init then init else init + [last]
  }

  lemma DedupSnoc(xs: seq<string>, x: string)
    ensures Dedup(xs + [x]) == if x == "" || x in Dedup(xs) then Dedup(xs) else Dedup(xs) + [x]
  {
    assert (xs + [x])[..|xs|] == xs;
  }

  lemma EmptyDedup()
    ensures Dedup([]) == []
  {
  }

  method MergeAndDedup(current: seq<string>, saved: seq<string>) returns (merged: seq<string>)
    ensures merged == Dedup(current + saved)
  {
    hide Dedup;
    EmptyDedup();
    var seen: set<string> := {};
    merged := [];
    for i := 0 to |current|
      invariant merged == Dedup(current[..i])
      invariant forall x :: x in seen <==> x in merged
    {
      assert current[..i + 1] == current[..i] + [current[i]];
      DedupSnoc(current[..i], current[i]);
      if current[i] != "" && current[i] !in seen {
        seen := seen + {current[i]};
        merged := merged + [current[i]];
      }
    }
    assert current[..|current|] == current == current + saved[..0];
    for i := 0 to |saved|
      invariant merged == Dedup(current + saved[..i])
      invariant forall x :: x in seen <==> x in merged
    {
      assert current + saved[..i + 1] == current + saved[..i] + [saved[i]];
      DedupSnoc(current + saved[..i], saved[i]);
      if saved[i] != "" && saved[i] !in seen {
        seen := seen + {saved[i]};
        merged := merged + [saved[i]];
      }
    }
    assert saved[..|saved|] == saved;
  }

  /** The positions whose segment is non-empty and does not occur earlier. */
  predicate FirstOccurrence(xs: seq<string>, i: nat) {
    i < |xs| && xs[i] != "" && xs[i] !in xs[..i]
  }

  /** The positions `Dedup` keeps, in order. */
  function FirstPositions(xs: seq<string>): (ps: seq<nat>)
    ensures forall k :: 0 <= k < |ps| ==> ps[k] < |xs|
  {
    if xs == [] then []
    else
      var n := |xs| - 1;
      var init := FirstPositions(xs[..n]);
      if FirstOccurrence(xs, n) then init + [n] else init
  }

  lemma {:induction false} FirstPositionsExact(xs: seq<string>)
    ensures var ps := FirstPositions(xs);
            && (forall j, k :: 0 <= j < k < |ps| ==> ps[j] < ps[k])
            && (forall i :: i in ps <==> FirstOccurrence(xs, i))
  {
    if xs != [] {
      var n := |xs| - 1;
      var init := xs[..n];
      FirstPositionsExact(init);
      assert forall i :: 0 <= i < n ==> init[..i] == xs[..i];
      assert forall i: nat :: i < n ==> (FirstOccurrence(xs, i) <==> FirstOccurrence(init, i));
    }
  }

  /** Merging keeps exactly the first occurrences of the non-empty segments, in the order they occur. */
  lemma {:induction false} DedupKeepsFirstOccurrences(xs: seq<string>)
    ensures var ps := FirstPositions(xs);
            |Dedup(xs)| == |ps| && forall k :: 0 <= k < |ps| ==> Dedup(xs)[k] == xs[ps[k]]
  {
    if xs != [] {
      var n := |xs| - 1;
      DedupKeepsFirstOccurrences(xs[..n]);
      var init := FirstPositions(xs[..n]);
      assert forall k :: 0 <= k < |init| ==> xs[..n][init[k]] == xs[init[k]];
    }
  }

  // ---- One run ---------------------------------------------------------------------------

  function NonEmpty(xs: seq<string>): (r: seq<string>)
    ensures forall x :: x in r <==> x in xs && x != ""
  {
    if xs == [] then []
    else
      assert forall x :: x in xs <==> x == xs[0] || x in xs[1..];
      (if xs[0] == "" then [] else [xs[0]]) + NonEmpty(xs[1..])
  }

  function ExpandAll(env: Env, home: PathNormalize.Home, segments: seq<string>): (r: seq<string>)
    ensures |r| == |segments| && forall i :: 0 <= i < |r| ==> r[i] == Expand(env, home, segments[i], 0)
  {
    seq(|segments|, i requires 0 <= i < |segments| => Expand(env, home, segments[i], 0))
  }

  function ExpandPathSegments(env: Env, home: PathNormalize.Home, path: string): seq<string> {
    ExpandAll(env, home, NonEmpty(Split(path, PATH_SEPARATOR)))
  }

  lemma EmptyPathHasNoSegments()
    ensures NonEmpty(Split("", PATH_SEPARATOR)) == []
  {
  }

  /** The merged segments of one run. */
  function Merged(env: Env, home: PathNormalize.Home, path: string, saved: Option<string>): seq<string> {
    var savedPath := if saved.Some? then saved.value else "";
    Dedup(ExpandPathSegments(env, home, path) + ExpandPathSegments(env, home, savedPath))
  }

  /** One run of `setup_environment_path`: the saved path afterwards, and whether it was rewritten. */
  function Setup(env: Env, home: PathNormalize.Home, path: string, saved: Option<string>): (Option<string>, bool) {
    var updated := Join(Merged(env, home, path, saved), PATH_SEPARATOR);
    if updated == (if saved.Some? then saved.value else "") then (saved, false) else (Some(updated), true)
  }

  /** How writing the configuration ends: done, failed before the file was touched, or failed after it was truncated,
      with what can still be read of it. */
  datatype Write = Done | Refused | Cut(left: Option<string>)

  datatype WriteError = WriteError

  /** The configuration's `user_path`. */
  class UserConfig {
    var userPath: Option<string>

    method SetupEnvironmentPath(env: Env, home: PathNormalize.Home, currentPath: string, write: Write)
      returns (updated: Result<bool, WriteError>)
      modifies this
      ensures var (path, rewritten) := Setup(env, home, currentPath, old(userPath));
              && userPath == (if !rewritten || write.Refused? then old(userPath) else if write.Done? then path else write.left)
              && updated == (if rewritten && !write.Done? then Err(WriteError) else Ok(rewritten))
    {
      var currentSegments := ExpandPathSegments(env, home, currentPath);
      var savedPath := match userPath case Some(p) => p case None => "";
      var merged := MergeAndDedup(currentSegments, ExpandPathSegments(env, home, savedPath));
      var newUserPath := Join(merged, PATH_SEPARATOR);
      if newUserPath == savedPath {
        return Ok(false);
      }
      match write
      case Refused => updated := Err(WriteError);
      case Cut(left) =>
        userPath := left;
        updated := Err(WriteError);
      case Done =>
        userPath := Some(newUserPath);
        updated := Ok(true);
    }
  }
}
