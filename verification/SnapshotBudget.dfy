/** How many snapshots a run leaves, and which. */
module SnapshotBudget {
  import opened Snapshots

  lemma CardinalityOfUnion<T>(a: set<T>, b: set<T>)
    ensures |a + b| <= |a| + |b|
  {
    assert a + b == a + (b - a);
    assert |a + (b - a)| == |a| + |b - a|;
    Subset(b - a, b);
  }

  lemma {:induction false} Subset<T>(a: set<T>, b: set<T>)
    requires a <= b
    ensures |a| <= |b|
  {
    if a != {} {
      var x :| x in a;
      Subset(a - {x}, b - {x});
    }
  }

  /** The snapshots that rotation leaves: the ones that are not victims, and victims that could not be deleted. */
  lemma LeftByRotation(before: Disk, rotated: Disk, stuck: set<Path>, rotateDir: string, keep: int, victims: set<Path>)
    requires Rotated(before, rotated, stuck, rotateDir, keep, victims)
    ensures SnapshotsIn(rotated, rotateDir)
         == (SnapshotsIn(Swept(before, stuck, rotateDir), rotateDir) - victims) + (victims * stuck)
  {
    hide OldestOf, Swept;
  }

  lemma PromotionAddsDest(rotated: Disk, after: Disk, src: Source, dest: Path, rotateDir: string)
    requires IsPromotion(rotated, after, src, dest)
    ensures SnapshotsIn(after, rotateDir) <= SnapshotsIn(rotated, rotateDir) + {dest}
  {
    hide HoldsAll;
  }

  lemma KeptCount(before: Disk, rotated: Disk, stuck: set<Path>, rotateDir: string, keep: int, victims: set<Path>)
    requires Rotated(before, rotated, stuck, rotateDir, keep, victims) && keep >= 1
    ensures |SnapshotsIn(Swept(before, stuck, rotateDir), rotateDir) - victims| <= keep - 1
  {
    hide OldestOf, Swept;
    var snapshots := SnapshotsIn(Swept(before, stuck, rotateDir), rotateDir);
    if victims == {} {
      assert snapshots - victims == snapshots;
    }
  }

  /** After a completed run with `keep >= 1` at most `keep` snapshots are left, not counting any that could not be
      deleted. */
  lemma CompletedRunBudget(before: Disk, rotated: Disk, after: Disk, src: Source, dest: Path, stuck: set<Path>,
                           rotateDir: string, keep: int, victims: set<Path>)
    requires Rotated(before, rotated, stuck, rotateDir, keep, victims) && keep >= 1
    requires IsPromotion(rotated, after, src, dest)
    ensures |SnapshotsIn(after, rotateDir)| <= keep + |victims * stuck|
  {
    LeftByRotation(before, rotated, stuck, rotateDir, keep, victims);
    PromotionAddsDest(rotated, after, src, dest, rotateDir);
    KeptCount(before, rotated, stuck, rotateDir, keep, victims);
    hide IsPromotion, Rotated, Swept, SnapshotsIn;
    var kept := SnapshotsIn(Swept(before, stuck, rotateDir), rotateDir) - victims;
    Subset(SnapshotsIn(after, rotateDir), kept + (victims * stuck) + {dest});
    CardinalityOfUnion(kept + (victims * stuck), {dest});
    CardinalityOfUnion(kept, victims * stuck);
  }

  /** The snapshots left are the newest: one that rotation chose is at most as recent as any other that is left. */
  lemma CompletedRunKeepsNewest(before: Disk, rotated: Disk, after: Disk, src: Source, dest: Path, stuck: set<Path>,
                                rotateDir: string, keep: int, victims: set<Path>, v: Path, q: Path)
    requires Rotated(before, rotated, stuck, rotateDir, keep, victims)
    requires IsPromotion(rotated, after, src, dest)
    requires v in victims && q in SnapshotsIn(after, rotateDir) && q != dest && q !in stuck
    ensures v in before && q in before && before[v].mtime <= before[q].mtime
  {
    hide HoldsAll, Rotated;
    var swept := Swept(before, stuck, rotateDir);
    PromotionAddsDest(rotated, after, src, dest, rotateDir);
    LeftByRotation(before, rotated, stuck, rotateDir, keep, victims);
    VictimBefore(before, rotated, stuck, rotateDir, keep, victims, v, q);
  }

  lemma VictimBefore(before: Disk, rotated: Disk, stuck: set<Path>, rotateDir: string, keep: int, victims: set<Path>,
                     v: Path, q: Path)
    requires Rotated(before, rotated, stuck, rotateDir, keep, victims)
    requires v in victims && q in SnapshotsIn(Swept(before, stuck, rotateDir), rotateDir) - victims
    ensures v in before && q in before && before[v].mtime <= before[q].mtime
  {
  }

  /** A failed run touches nothing but the partial directory once rotation is done. */
  lemma SameAfterFailure(before: Disk, rotated: Disk, after: Disk, dest: Path, stuck: set<Path>, rotateDir: string,
                         keep: int, victims: set<Path>)
    requires Rotated(before, rotated, stuck, rotateDir, keep, victims)
    requires OnlyTouched(rotated, after, PartialOf(dest))
    ensures var earlier, partial := SnapshotsIn(Swept(before, stuck, rotateDir), rotateDir), PartialOf(dest);
            && SnapshotsIn(after, rotateDir) - {partial} == SnapshotsIn(rotated, rotateDir) - {partial}
            && (partial !in earlier ==> partial !in SnapshotsIn(rotated, rotateDir))
            && (partial !in stuck ==> partial !in earlier)
  {
    hide OldestOf;
    assert forall p :: p in rotated ==> p in Swept(before, stuck, rotateDir);
  }

  /** Rotation comes before the copy: a run that then fails leaves the newest `keep - 1` of the earlier snapshots and
      those that could not be deleted, so it leaves none exactly when there was none, or `keep` is 1 and every one
      could be deleted. */
  lemma FailedRunLeavesNoneIff(before: Disk, rotated: Disk, after: Disk, dest: Path, stuck: set<Path>,
                               rotateDir: string, keep: int, victims: set<Path>)
    requires Rotated(before, rotated, stuck, rotateDir, keep, victims)
    requires OnlyTouched(rotated, after, PartialOf(dest))
    requires PartialOf(dest) in after ==> PartialOf(dest) in stuck
    ensures var earlier, left := SnapshotsIn(Swept(before, stuck, rotateDir), rotateDir), SnapshotsIn(rotated, rotateDir);
            && SnapshotsIn(after, rotateDir) - {PartialOf(dest)} == left - {PartialOf(dest)}
            && (PartialOf(dest) !in stuck ==> SnapshotsIn(after, rotateDir) == left)
            && |left| == (if keep >= 1 && |earlier| > keep - 1 then keep - 1 else |earlier|) + |victims * stuck|
            && (left == {} <==> earlier == {} || (keep == 1 && earlier * stuck == {}))
  {
    hide *;
    var earlier, left := SnapshotsIn(Swept(before, stuck, rotateDir), rotateDir), SnapshotsIn(rotated, rotateDir);
    LeftByRotation(before, rotated, stuck, rotateDir, keep, victims);
    SameAfterFailure(before, rotated, after, dest, stuck, rotateDir, keep, victims);
    CountAfterRotation(before, rotated, stuck, rotateDir, keep, victims);
    NoneLeftIff(earlier, victims, stuck, keep, left);
    if PartialOf(dest) !in stuck {
      assert left - {PartialOf(dest)} == left;
      NotIn(rotateDir, after, PartialOf(dest));
    }
  }

  lemma NotIn(dir: string, disk: Disk, p: Path)
    requires p !in disk
    ensures SnapshotsIn(disk, dir) - {p} == SnapshotsIn(disk, dir)
  {
  }

  lemma NoneLeftIff(earlier: set<Path>, victims: set<Path>, stuck: set<Path>, keep: int, left: set<Path>)
    requires left == (earlier - victims) + (victims * stuck)
    requires |earlier - victims| == if keep >= 1 && |earlier| > keep - 1 then keep - 1 else |earlier|
    requires (keep <= 0 || |earlier| <= keep - 1 ==> victims == {}) && (keep == 1 ==> victims == earlier)
    ensures |left| == |earlier - victims| + |victims * stuck|
    ensures left == {} <==> earlier == {} || (keep == 1 && earlier * stuck == {})
  {
    assert (earlier - victims) !! (victims * stuck);
  }

  lemma CountAfterRotation(before: Disk, rotated: Disk, stuck: set<Path>, rotateDir: string, keep: int,
                           victims: set<Path>)
    requires Rotated(before, rotated, stuck, rotateDir, keep, victims)
    ensures var earlier := SnapshotsIn(Swept(before, stuck, rotateDir), rotateDir);
            && |earlier - victims| == (if keep >= 1 && |earlier| > keep - 1 then keep - 1 else |earlier|)
            && (keep <= 0 || |earlier| <= keep - 1 ==> victims == {})
            && (keep == 1 ==> victims == earlier)
  {
    hide OldestOf, Swept, SnapshotsIn;
    var earlier := SnapshotsIn(Swept(before, stuck, rotateDir), rotateDir);
    if victims == {} {
      assert earlier - victims == earlier;
    }
    if keep == 1 {
      assert earlier - victims == {};
    }
  }
}
