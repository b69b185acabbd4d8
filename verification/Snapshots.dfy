/** Snapshots of the databases: rotation, copy into a partial directory, promotion.

    Deleting a directory and renaming one are atomic steps; a crash may happen between any two steps, so every state the
    disk goes through is recorded. Directories in `stuck` cannot be deleted, and the program ignores that. */
module Snapshots {
  import opened Wrappers

  datatype Path = Path(parent: string, name: string)

  /** A database file: a whole copy of some content, or one being written. */
  datatype Db = Whole(content: string) | Torn

  datatype Dir = Dir(mtime: int, files: map<string, Db>)

  type Disk = map<Path, Dir>

  /** The live databases present in the source directory. */
  type Source = map<string, string>

  const DB_FILES := ["memexd.db", "search.db", "graph.db"]

  const PREFIX := "pre-deploy-"

  const PARTIAL := ".partial"

  predicate EndsWith(s: string, suffix: string) {
    |s| >= |suffix| && s[|s| - |suffix|..] == suffix
  }

  /** The directories of `dir` whose name makes them snapshots. */
  function SnapshotsIn(disk: Disk, dir: string): (r: set<Path>)
    ensures forall p :: p in r <==> p in disk && p.parent == dir && PREFIX <= p.name
  {
    set p | p in disk && p.parent == dir && PREFIX <= p.name
  }

  function PartialsIn(disk: Disk, dir: string): (r: set<Path>)
    ensures forall p :: p in r <==> p in disk && p.parent == dir && EndsWith(p.name, PARTIAL)
  {
    set p | p in disk && p.parent == dir && EndsWith(p.name, PARTIAL)
  }

  /** A directory that holds every database the source has. */
  ghost predicate HoldsAll(d: Dir, src: Source) {
    forall i :: 0 <= i < |DB_FILES| && DB_FILES[i] in src ==>
      DB_FILES[i] in d.files && d.files[DB_FILES[i]] == Whole(src[DB_FILES[i]])
  }

  /** Nothing but deletions. */
  ghost predicate OnlyDeleted(base: Disk, disk: Disk) {
    forall p :: p in disk ==> p in base && disk[p] == base[p]
  }

  /** Every directory except the partial one is as it was before the run, or is a complete copy promoted to `dest`. */
  ghost predicate Safe(base: Disk, disk: Disk, src: Source, dest: Path, partial: Path) {
    forall p :: p in disk && p != partial ==>
      (p in base && disk[p] == base[p]) || (p == dest && HoldsAll(disk[p], src))
  }

  /** Every victim is at most as recent as every snapshot that stays. */
  ghost predicate OldestOf(disk: Disk, all: set<Path>, victims: set<Path>)
    requires all <= disk.Keys && victims <= all
  {
    forall v, q :: v in victims && q in all - victims ==> disk[v].mtime <= disk[q].mtime
  }

  // ---- Ordering snapshots by age -----------------------------------------------------------

  ghost predicate SortedByMtime(disk: Disk, ps: seq<Path>)
    requires forall p :: p in ps ==> p in disk
  {
    forall i, j :: 0 <= i < j < |ps| ==> disk[ps[i]].mtime <= disk[ps[j]].mtime
  }

  ghost predicate Distinct(ps: seq<Path>) {
    forall i, j :: 0 <= i < j < |ps| ==> ps[i] != ps[j]
  }

  lemma InsertedAt(disk: Disk, ps: seq<Path>, p: Path, k: nat)
    requires p in disk && p !in ps && k <= |ps| && (forall q :: q in ps ==> q in disk)
    requires SortedByMtime(disk, ps)
    requires k > 0 ==> disk[ps[k - 1]].mtime <= disk[p].mtime
    requires forall i :: k <= i < |ps| ==> disk[p].mtime < disk[ps[i]].mtime
    ensures var r := ps[..k] + [p] + ps[k..]; (forall q :: q in r ==> q in disk) && SortedByMtime(disk, r)
  {
    var r := ps[..k] + [p] + ps[k..];
    forall i, j | 0 <= i < j < |r|
      ensures r[i] in disk && r[j] in disk && disk[r[i]].mtime <= disk[r[j]].mtime
    {
      var oldI, oldJ := if i < k then i else i - 1, if j < k then j else j - 1;
      assert i != k ==> r[i] == ps[oldI];
      assert j != k ==> r[j] == ps[oldJ];
    }
    forall q | q in r
      ensures q in disk
    {
      assert q == p || q in ps;
    }
  }

  lemma InsertedDistinct(ps: seq<Path>, p: Path, k: nat)
    requires p !in ps && k <= |ps| && Distinct(ps)
    ensures var r := ps[..k] + [p] + ps[k..]; Distinct(r) && forall q :: q in r <==> q == p || q in ps
  {
    var r := ps[..k] + [p] + ps[k..];
    forall i, j | 0 <= i < j < |r|
      ensures r[i] != r[j]
    {
      assert i != k ==> r[i] == ps[if i < k then i else i - 1];
      assert j != k ==> r[j] == ps[if j < k then j else j - 1];
    }
    InsertedElements(ps, p, k);
  }

  lemma InsertedElements(ps: seq<Path>, p: Path, k: nat)
    requires k <= |ps|
    ensures forall q :: q in ps[..k] + [p] + ps[k..] <==> q == p || q in ps
  {
    assert ps == ps[..k] + ps[k..];
    assert forall q :: q in ps <==> q in ps[..k] || q in ps[k..];
  }

  /** Inserts a path after the ones that are at most as recent. */
  method Insert(disk: Disk, ps: seq<Path>, p: Path) returns (r: seq<Path>)
    requires p in disk && p !in ps && Distinct(ps)
    requires forall q :: q in ps ==> q in disk
    requires SortedByMtime(disk, ps)
    ensures forall q :: q in r <==> q == p || q in ps
    ensures Distinct(r) && SortedByMtime(disk, r)
  {
    var k := |ps|;
    while k > 0 && disk[ps[k - 1]].mtime > disk[p].mtime
      invariant 0 <= k <= |ps|
      invariant forall i :: k <= i < |ps| ==> disk[p].mtime < disk[ps[i]].mtime
    {
      k := k - 1;
    }
    r := ps[..k] + [p] + ps[k..];
    InsertedDistinct(ps, p, k);
    InsertedAt(disk, ps, p, k);
  }

  /** The entries of a set in order of age. */
  method SortByMtime(disk: Disk, all: set<Path>) returns (r: seq<Path>)
    requires all <= disk.Keys
    ensures forall p :: p in r <==> p in all
    ensures Distinct(r) && SortedByMtime(disk, r)
  {
    r := [];
    var rest := all;
    while rest != {}
      invariant rest <= all
      invariant forall p :: p in r <==> p in all && p !in rest
      invariant Distinct(r) && SortedByMtime(disk, r)
      decreases |rest|
    {
      var p :| p in rest;
      r := Insert(disk, r, p);
      rest := rest - {p};
    }
  }

  lemma {:induction false} DistinctCount(ps: seq<Path>)
    requires Distinct(ps)
    ensures |set p | p in ps| == |ps|
  {
    if ps != [] {
      DistinctCount(ps[1..]);
      assert forall p :: p in ps <==> p == ps[0] || p in ps[1..];
      assert (set p | p in ps) == {ps[0]} + (set p | p in ps[1..]);
    }
  }

  lemma TakenIsDropped(order: seq<Path>, gone: nat)
    requires Distinct(order) && gone <= |order|
    ensures (set i | 0 <= i < gone :: order[i]) == set p | p in order[..gone]
    ensures forall p :: p in order <==> p in order[..gone] || p in order[gone..]
    ensures forall p :: p in order[..gone] ==> p !in order[gone..]
    ensures Distinct(order[gone..])
  {
    assert order == order[..gone] + order[gone..];
    assert forall i :: 0 <= i < gone ==> order[..gone][i] == order[i];
    forall p | p in order[..gone]
      ensures p !in order[gone..]
    {
      var i :| 0 <= i < gone && order[i] == p;
      assert forall j, k :: 0 <= j < |order| - gone && k == gone + j ==> order[gone..][j] == order[k] != p;
    }
  }

  lemma FrontIsOldest(disk: Disk, order: seq<Path>, gone: nat, v: Path, q: Path)
    requires gone <= |order| && (forall p :: p in order ==> p in disk) && SortedByMtime(disk, order)
    requires v in order[..gone] && q in order[gone..]
    ensures v in disk && q in disk && disk[v].mtime <= disk[q].mtime
  {
    var i :| 0 <= i < gone && order[..gone][i] == v;
    var j :| 0 <= j < |order[gone..]| && order[gone..][j] == q;
    assert order[i] == v && order[gone + j] == q;
  }

  /** The first `gone` of the snapshots in order of age are the oldest ones, and the others are counted. */
  lemma VictimsAreOldest(disk: Disk, all: set<Path>, order: seq<Path>, gone: nat, victims: set<Path>)
    requires all <= disk.Keys && (forall p :: p in order <==> p in all) && gone <= |order|
    requires Distinct(order) && SortedByMtime(disk, order)
    requires victims == set i | 0 <= i < gone :: order[i]
    ensures victims <= all && OldestOf(disk, all, victims)
    ensures |all - victims| == |order| - gone
    ensures gone == 0 ==> victims == {} && |all| == |order|
  {
    hide SortedByMtime, Distinct;
    var kept := order[gone..];
    TakenIsDropped(order, gone);
    assert all - victims == set p | p in kept;
    DistinctCount(kept);
    forall v, q | v in victims && q in all - victims
      ensures disk[v].mtime <= disk[q].mtime
    {
      FrontIsOldest(disk, order, gone, v, q);
    }
    if gone == 0 {
      assert all - victims == all;
    }
  }

  function Swept(disk: Disk, stuck: set<Path>, rotateDir: string): Disk {
    disk - (PartialsIn(disk, rotateDir) - stuck)
  }

  /** What rotation does to the disk: the partial directories go, and `victims`, the oldest of the snapshots, so that
      `keep - 1` are left when there were more; directories that are stuck stay. */
  ghost predicate Rotated(before: Disk, after: Disk, stuck: set<Path>, rotateDir: string, keep: int, victims: set<Path>) {
    var swept := Swept(before, stuck, rotateDir);
    var snapshots := SnapshotsIn(swept, rotateDir);
    && victims <= snapshots && OldestOf(swept, snapshots, victims)
    && (if keep <= 0 || |snapshots| <= keep - 1 then victims == {} else |snapshots - victims| == keep - 1)
    && after == swept - (victims - stuck)
  }

  // ---- One run -----------------------------------------------------------------------------------

  datatype Outcome = Skipped | Refused | CopyFailed | RenameFailed | Promoted

  function PartialOf(dest: Path): (partial: Path)
    ensures partial != dest && EndsWith(partial.name, PARTIAL)
  {
    Path(dest.parent, dest.name + PARTIAL)
  }

  /** No directory but `p` differs. */
  ghost predicate OnlyTouched(before: Disk, after: Disk, p: Path) {
    forall q :: q != p ==> (q in after <==> q in before) && (q in after ==> after[q] == before[q])
  }

  /** The first `n` databases of the source are copied. */
  ghost predicate HoldsFirst(d: Dir, src: Source, n: nat)
    requires n <= |DB_FILES|
  {
    forall i :: 0 <= i < n && DB_FILES[i] in src ==>
      DB_FILES[i] in d.files && d.files[DB_FILES[i]] == Whole(src[DB_FILES[i]])
  }

  /** Copies of the first `n` databases, as far as the source has them. */
  function CopyOfFirst(src: Source, n: nat): map<string, Db>
    requires n <= |DB_FILES|
  {
    if n == 0 then map[]
    else
      var files := CopyOfFirst(src, n - 1);
      if DB_FILES[n - 1] in src then files[DB_FILES[n - 1] := Whole(src[DB_FILES[n - 1]])] else files
  }

  /** Copies of the databases of the source, and nothing else. */
  function CopyOf(src: Source): map<string, Db> {
    CopyOfFirst(src, |DB_FILES|)
  }

  lemma {:induction false} CopyOfFirstIsExact(src: Source, n: nat)
    requires n <= |DB_FILES|
    ensures forall name :: name in CopyOfFirst(src, n) <==> name in DB_FILES[..n] && name in src
    ensures forall name :: name in CopyOfFirst(src, n) ==> CopyOfFirst(src, n)[name] == Whole(src[name])
  {
    if n > 0 {
      CopyOfFirstIsExact(src, n - 1);
      assert DB_FILES[..n] == DB_FILES[..n - 1] + [DB_FILES[n - 1]];
    }
  }

  /** A snapshot names exactly the present databases and holds the whole of each. */
  lemma CopyOfIsExact(src: Source)
    ensures forall name :: name in CopyOf(src) <==> name in DB_FILES && name in src
    ensures forall name :: name in CopyOf(src) ==> CopyOf(src)[name] == Whole(src[name])
  {
    CopyOfFirstIsExact(src, |DB_FILES|);
    assert DB_FILES[..|DB_FILES|] == DB_FILES;
  }

  /** What a partial directory that cannot be deleted brings into the next snapshot. */
  function Stale(disk: Disk, stuck: set<Path>, partial: Path): map<string, Db> {
    if partial in disk && partial in stuck then disk[partial].files else map[]
  }

  /** The destination can be neither deleted nor replaced. */
  predicate Blocked(disk: Disk, stuck: set<Path>, dest: Path) {
    dest in stuck && dest in disk && disk[dest].files != map[]
  }

  lemma OneMoreDb(before: map<string, Db>, d: Dir, src: Source, i: nat)
    requires i < |DB_FILES| && DB_FILES[i] in src && HoldsFirst(Dir(d.mtime, before), src, i)
    requires d.files == before[DB_FILES[i] := Torn][DB_FILES[i] := Whole(src[DB_FILES[i]])]
    ensures HoldsFirst(d, src, i + 1)
  {
  }

  /** `dest` holds a complete copy, the partial directory is gone, and every other directory is untouched. */
  ghost predicate IsPromotion(before: Disk, after: Disk, src: Source, dest: Path) {
    && dest in after && HoldsAll(after[dest], src)
    && PartialOf(dest) !in after
    && forall q :: q != dest && q != PartialOf(dest) ==>
         (q in after <==> q in before) && (q in after ==> after[q] == before[q])
  }

  ghost predicate HasCopy(disk: Disk, src: Source, dest: Path) {
    || (PartialOf(dest) in disk && HoldsAll(disk[PartialOf(dest)], src))
    || (dest in disk && HoldsAll(disk[dest], src))
  }

  /** Every recorded state from `from` on differs from `before` at `p` only. */
  ghost predicate AllTouched(before: Disk, trace: seq<Disk>, from: nat, p: Path) {
    forall i :: from <= i < |trace| ==> OnlyTouched(before, trace[i], p)
  }

  lemma MadeTouches(before: Disk, after: Disk, made: Dir, sofar: seq<Disk>, trace: seq<Disk>, p: Path)
    requires after == before || after == before[p := made]
    requires trace == sofar + [after]
    ensures OnlyTouched(before, after, p) && AllTouched(before, trace, |sofar|, p)
  {
  }

  lemma TouchedAgain(base: Disk, before: Disk, after: Disk, from: nat, sofar: seq<Disk>, trace: seq<Disk>, p: Path)
    requires OnlyTouched(base, before, p) && OnlyTouched(before, after, p)
    requires from <= |sofar| && sofar <= trace
    requires AllTouched(base, sofar, from, p) && AllTouched(before, trace, |sofar|, p)
    ensures OnlyTouched(base, after, p) && AllTouched(base, trace, from, p)
  {
    forall i | from <= i < |trace|
      ensures OnlyTouched(base, trace[i], p)
    {
      if i < |sofar| {
        assert trace[i] == sofar[i];
      }
    }
  }

  lemma HoldsFirstZero(d: Dir, src: Source)
    ensures HoldsFirst(d, src, 0)
  {
  }

  lemma HoldsAllFirst(d: Dir, src: Source)
    ensures HoldsFirst(d, src, |DB_FILES|) <==> HoldsAll(d, src)
  {
  }

  lemma TouchedTraceIsSafe(base: Disk, before: Disk, trace: seq<Disk>, from: nat, src: Source, dest: Path)
    requires OnlyDeleted(base, before) && AllTouched(before, trace, from, PartialOf(dest))
    ensures forall i :: from <= i < |trace| ==> Safe(base, trace[i], src, dest, PartialOf(dest))
  {
    hide HoldsAll;
  }

  lemma DeletedOne(base: Disk, disk: Disk, src: Source, dest: Path)
    requires disk == base || disk == base - {PartialOf(dest)}
    ensures OnlyDeleted(base, disk) && OnlyTouched(base, disk, PartialOf(dest))
    ensures Safe(base, disk, src, dest, PartialOf(dest))
  {
    hide HoldsAll;
  }

  lemma FailedIsSafe(base: Disk, disk: Disk, src: Source, dest: Path)
    requires OnlyTouched(base, disk, PartialOf(dest))
    ensures Safe(base, disk, src, dest, PartialOf(dest))
  {
    hide HoldsAll;
  }

  lemma PromotionIsSafe(base: Disk, before: Disk, trace: seq<Disk>, from: nat, src: Source, dest: Path)
    requires OnlyTouched(base, before, PartialOf(dest))
    requires forall i :: from <= i < |trace| ==> Safe(before, trace[i], src, dest, PartialOf(dest))
    ensures forall i :: from <= i < |trace| ==> Safe(base, trace[i], src, dest, PartialOf(dest))
  {
    hide HoldsAll;
  }

  lemma PromotionFrom(base: Disk, before: Disk, after: Disk, src: Source, dest: Path)
    requires OnlyTouched(base, before, PartialOf(dest)) && IsPromotion(before, after, src, dest)
    ensures IsPromotion(base, after, src, dest)
  {
    hide HoldsAll;
  }

  lemma RotatedOnlyDeletes(before: Disk, after: Disk, stuck: set<Path>, rotateDir: string, keep: int, victims: set<Path>)
    requires Rotated(before, after, stuck, rotateDir, keep, victims)
    ensures OnlyDeleted(before, after)
  {
    hide OldestOf;
  }

  /** What is safe with respect to a disk some of which was deleted is safe with respect to the whole. */
  lemma SafeAfterDeletion(base: Disk, before: Disk, trace: seq<Disk>, from: nat, src: Source, dest: Path)
    requires OnlyDeleted(base, before)
    requires forall i :: from <= i < |trace| ==> Safe(before, trace[i], src, dest, PartialOf(dest))
    ensures forall i :: from <= i < |trace| ==> Safe(base, trace[i], src, dest, PartialOf(dest))
  {
    hide HoldsAll;
  }

  // ---- The volume --------------------------------------------------------------------------------

  class Volume {
    const stuck: set<Path>
    var disk: Disk
    /** Every state of the disk so far; a crash leaves one of them. */
    ghost var trace: seq<Disk>

    constructor (disk: Disk, stuck: set<Path>)
      ensures this.disk == disk && this.stuck == stuck && trace == [disk]
    {
      this.disk, this.stuck, trace := disk, stuck, [disk];
    }

    /** `shutil.rmtree(p, ignore_errors=True)`. */
    method Rmtree(p: Path)
      modifies this
      ensures disk == (if p in stuck then old(disk) else old(disk) - {p})
      ensures trace == old(trace) + [disk]
    {
      if p !in stuck {
        disk := disk - {p};
      }
      trace := trace + [disk];
    }

    /** `os.rename`, which refuses to replace a directory that is not empty. */
    method Rename(from: Path, to: Path) returns (ok: bool)
      requires from in disk && from != to
      modifies this
      ensures ok <==> (to !in old(disk) || old(disk)[to].files == map[])
      ensures disk == (if ok then old(disk)[to := old(disk)[from]] - {from} else old(disk))
      ensures trace == old(trace) + [disk]
    {
      ok := to !in disk || disk[to].files == map[];
      if ok {
        disk := disk[to := disk[from]] - {from};
      }
      trace := trace + [disk];
    }

    /** `os.makedirs(p, exist_ok=True)`. */
    method MakeDir(p: Path, now: int)
      modifies this
      ensures disk == (if p in old(disk) then old(disk) else old(disk)[p := Dir(now, map[])])
      ensures trace == old(trace) + [disk]
    {
      if p !in disk {
        disk := disk[p := Dir(now, map[])];
      }
      trace := trace + [disk];
    }

    method WriteDb(p: Path, name: string, db: Db, now: int)
      requires p in disk
      modifies this
      ensures disk == old(disk)[p := Dir(now, old(disk)[p].files[name := db])]
      ensures trace == old(trace) + [disk]
    {
      disk := disk[p := Dir(now, disk[p].files[name := db])];
      trace := trace + [disk];
    }

    /** Removes the partial directories that crashed runs left. */
    method SweepPartials(dir: string)
      modifies this
      ensures disk == old(disk) - (PartialsIn(old(disk), dir) - stuck)
      ensures old(trace) <= trace
      ensures forall i :: |old(trace)| <= i < |trace| ==> OnlyDeleted(old(disk), trace[i])
    {
      var partials := PartialsIn(disk, dir);
      var rest := partials;
      while rest != {}
        invariant rest <= partials
        invariant disk == old(disk) - (partials - rest - stuck)
        invariant old(trace) <= trace
        invariant forall i :: |old(trace)| <= i < |trace| ==> OnlyDeleted(old(disk), trace[i])
        decreases |rest|
      {
        var p :| p in rest;
        Rmtree(p);
        rest := rest - {p};
      }
    }

    /** Deletes the first snapshots of `order` until at most `most` are left; `gone` counts them. */
    method DeleteFirst(order: seq<Path>, most: nat) returns (ghost gone: nat)
      modifies this
      ensures gone == if |order| <= most then 0 else |order| - most
      ensures disk == old(disk) - ((set i | 0 <= i < gone :: order[i]) - stuck)
      ensures old(trace) <= trace
      ensures forall i :: |old(trace)| <= i < |trace| ==> OnlyDeleted(old(disk), trace[i])
    {
      var snaps := order;
      gone := 0;
      while |snaps| > most
        invariant gone <= |order| && snaps == order[gone..]
        invariant gone > 0 ==> |snaps| >= most
        invariant disk == old(disk) - ((set i | 0 <= i < gone :: order[i]) - stuck)
        invariant old(trace) <= trace
        invariant forall i :: |old(trace)| <= i < |trace| ==> OnlyDeleted(old(disk), trace[i])
        decreases |snaps|
      {
        var oldest := snaps[0];
        snaps := snaps[1..];
        ghost var before := set i | 0 <= i < gone :: order[i];
        gone := gone + 1;
        assert (set i | 0 <= i < gone :: order[i]) == before + {oldest};
        Rmtree(oldest);
      }
    }

    /** Deletes the oldest snapshots, in order of age, until at most `keep - 1` are left. */
    method DeleteOldest(snapshots: set<Path>, keep: int) returns (ghost victims: set<Path>)
      requires snapshots <= disk.Keys && keep > 0
      modifies this
      ensures victims <= snapshots && OldestOf(old(disk), snapshots, victims)
      ensures if |snapshots| <= keep - 1 then victims == {} else |snapshots - victims| == keep - 1
      ensures disk == old(disk) - (victims - stuck)
      ensures old(trace) <= trace
      ensures forall i :: |old(trace)| <= i < |trace| ==> OnlyDeleted(old(disk), trace[i])
    {
      hide OldestOf, OnlyDeleted, Distinct, SortedByMtime;
      var snaps := SortByMtime(disk, snapshots);
      DistinctCount(snaps);
      assert snapshots == set p | p in snaps;
      ghost var gone := DeleteFirst(snaps, keep - 1);
      victims := set i | 0 <= i < gone :: snaps[i];
      VictimsAreOldest(old(disk), snapshots, snaps, gone, victims);
    }

    /** Sweeps partial directories, then rotates; `keep <= 0` disables rotation. */
    method Rotate(rotateDir: string, keep: int) returns (ghost victims: set<Path>)
      modifies this
      ensures Rotated(old(disk), disk, stuck, rotateDir, keep, victims)
      ensures old(trace) <= trace
      ensures forall i :: |old(trace)| <= i < |trace| ==> OnlyDeleted(old(disk), trace[i])
    {
      SweepPartials(rotateDir);
      victims := {};
      if keep <= 0 { return; }
      victims := DeleteOldest(SnapshotsIn(disk, rotateDir), keep);
    }

    /** Copies one database, or tears it and raises an error. */
    method CopyDatabase(src: Source, dest: Path, i: nat, fails: bool, now: int) returns (ok: bool)
      requires i < |DB_FILES| && dest in disk && HoldsFirst(disk[dest], src, i)
      requires trace != [] && trace[|trace| - 1] == disk
      modifies this
      ensures trace != [] && trace[|trace| - 1] == disk
      ensures ok <==> !(fails && DB_FILES[i] in src)
      ensures dest in disk && OnlyTouched(old(disk), disk, dest)
      ensures ok ==> HoldsFirst(disk[dest], src, i + 1)
      ensures ok ==> disk[dest].files == old(disk)[dest].files
                       + if DB_FILES[i] in src then map[DB_FILES[i] := Whole(src[DB_FILES[i]])] else map[]
      ensures disk[dest].mtime == if DB_FILES[i] in src then now else old(disk)[dest].mtime
      ensures old(trace) <= trace && AllTouched(old(disk), trace, |old(trace)|, dest)
    {
      var name := DB_FILES[i];
      if name !in src {
        return true;
      }
      ghost var before := disk[dest].files;
      WriteDb(dest, name, Torn, now);
      if fails {
        return false;
      }
      WriteDb(dest, name, Whole(src[name]), now);
      OneMoreDb(before, disk[dest], src, i);
      ok := true;
    }

    /** Copies every present database; `failAt` names the copy that raises an error. */
    method CopyDatabases(src: Source, dest: Path, failAt: Option<nat>, now: int) returns (ok: bool)
      modifies this
      ensures ok <==> !(failAt.Some? && failAt.value < |DB_FILES| && DB_FILES[failAt.value] in src)
      ensures ok ==> dest in disk && HoldsAll(disk[dest], src)
      ensures ok ==> disk[dest].files == (if dest in old(disk) then old(disk)[dest].files else map[]) + CopyOf(src)
      ensures ok && dest !in old(disk) ==> disk[dest].mtime == now
      ensures trace != [] && trace[|trace| - 1] == disk
      ensures OnlyTouched(old(disk), disk, dest)
      ensures old(trace) <= trace && AllTouched(old(disk), trace, |old(trace)|, dest)
    {
      hide HoldsFirst, HoldsAll, AllTouched, OnlyTouched;
      MakeDir(dest, now);
      MadeTouches(old(disk), disk, disk[dest], old(trace), trace, dest);
      HoldsFirstZero(disk[dest], src);
      ghost var found := disk[dest].files;
      for i := 0 to |DB_FILES|
        invariant failAt.Some? && failAt.value < i ==> DB_FILES[failAt.value] !in src
        invariant dest in disk && HoldsFirst(disk[dest], src, i)
        invariant disk[dest].files == found + CopyOfFirst(src, i)
        invariant dest !in old(disk) ==> disk[dest].mtime == now
        invariant trace != [] && trace[|trace| - 1] == disk
        invariant OnlyTouched(old(disk), disk, dest)
        invariant old(trace) <= trace && AllTouched(old(disk), trace, |old(trace)|, dest)
      {
        ghost var before, sofar := disk, trace;
        ok := CopyDatabase(src, dest, i, failAt == Some(i), now);
        TouchedAgain(old(disk), before, disk, |old(trace)|, sofar, trace, dest);
        if !ok { return; }
      }
      HoldsAllFirst(disk[dest], src);
      ok := true;
    }

    /** Deletes the old destination and renames the partial directory to it. */
    method Promote(src: Source, dest: Path) returns (renamed: bool)
      requires PartialOf(dest) in disk && HoldsAll(disk[PartialOf(dest)], src)
      modifies this
      ensures renamed <==> !Blocked(old(disk), stuck, dest)
      ensures renamed ==> IsPromotion(old(disk), disk, src, dest) && disk[dest] == old(disk)[PartialOf(dest)]
      ensures !renamed ==> dest in stuck && disk == old(disk)
      ensures old(trace) <= trace
      ensures forall i :: |old(trace)| <= i < |trace| ==>
                HasCopy(trace[i], src, dest) && Safe(old(disk), trace[i], src, dest, PartialOf(dest))
    {
      hide HoldsAll;
      Rmtree(dest);
      renamed := Rename(PartialOf(dest), dest);
    }

    /** Copies into the partial directory and promotes it. `copied` is the index in the trace from which on a complete
        copy exists. */
    method CopyAndPromote(src: Source, dest: Path, failAt: Option<nat>, now: int)
      returns (outcome: Outcome, ghost copied: nat)
      modifies this
      ensures outcome.CopyFailed? || outcome.RenameFailed? || outcome.Promoted?
      ensures outcome.CopyFailed? <==> failAt.Some? && failAt.value < |DB_FILES| && DB_FILES[failAt.value] in src
      ensures outcome.CopyFailed? ==> OnlyTouched(old(disk), disk, PartialOf(dest))
      ensures outcome.CopyFailed? ==> (PartialOf(dest) in disk ==> PartialOf(dest) in stuck)
      ensures outcome.RenameFailed? ==> dest in stuck && OnlyTouched(old(disk), disk, PartialOf(dest))
      ensures !outcome.CopyFailed? ==> (outcome.RenameFailed? <==> Blocked(old(disk), stuck, dest))
      ensures outcome.Promoted? ==> IsPromotion(old(disk), disk, src, dest)
      ensures outcome.Promoted? ==> disk[dest].files == Stale(old(disk), stuck, PartialOf(dest)) + CopyOf(src)
      ensures outcome.Promoted? && PartialOf(dest) !in stuck ==> disk[dest].mtime == now
      ensures old(trace) <= trace
      ensures forall i :: |old(trace)| <= i < |trace| ==> Safe(old(disk), trace[i], src, dest, PartialOf(dest))
      ensures !outcome.CopyFailed? ==> copied < |trace|
      ensures !outcome.CopyFailed? ==> forall i :: copied <= i < |trace| ==> HasCopy(trace[i], src, dest)
    {
      hide HoldsAll, AllTouched, IsPromotion, Safe;
      var partial := PartialOf(dest);
      Rmtree(partial);
      ghost var cleared, start := disk, |trace|;
      DeletedOne(old(disk), cleared, src, dest);
      var ok := CopyDatabases(src, partial, failAt, now);
      TouchedTraceIsSafe(old(disk), cleared, trace, start, src, dest);
      copied := |trace| - 1;
      if !ok {
        Rmtree(partial);
        FailedIsSafe(old(disk), disk, src, dest);
        return CopyFailed, copied;
      }
      ghost var full, sofar := disk, trace;
      var renamed := Promote(src, dest);
      PromotionIsSafe(old(disk), full, trace, |sofar|, src, dest);
      if renamed {
        PromotionFrom(old(disk), full, disk, src, dest);
      }
      outcome := if renamed then Promoted else RenameFailed;
    }

    /** One run of the script. */
    method Run(src: Source, dest: Path, keep: int, rotateDir: string, enoughSpace: bool, failAt: Option<nat>, now: int)
      returns (outcome: Outcome, ghost copied: nat, ghost rotated: Disk, ghost victims: set<Path>)
      modifies this
      ensures outcome.Skipped? <==> "memexd.db" !in src
      ensures outcome.Skipped? ==> disk == old(disk) && trace == old(trace)
      ensures !outcome.Skipped? ==> Rotated(old(disk), rotated, stuck, rotateDir, keep, victims)
      ensures outcome.Refused? <==> "memexd.db" in src && !enoughSpace
      ensures outcome.Refused? ==> disk == rotated
      ensures outcome.Refused? ==> forall i :: |old(trace)| <= i < |trace| ==> OnlyDeleted(old(disk), trace[i])
      ensures outcome.CopyFailed? <==> && "memexd.db" in src && enoughSpace
                                       && failAt.Some? && failAt.value < |DB_FILES| && DB_FILES[failAt.value] in src
      ensures outcome.CopyFailed? ==> OnlyTouched(rotated, disk, PartialOf(dest))
      ensures outcome.CopyFailed? ==> (PartialOf(dest) in disk ==> PartialOf(dest) in stuck)
      ensures outcome.RenameFailed? ==> dest in stuck && OnlyTouched(rotated, disk, PartialOf(dest))
      ensures outcome.RenameFailed? || outcome.Promoted? ==> (outcome.RenameFailed? <==> Blocked(rotated, stuck, dest))
      ensures outcome.Promoted? ==> IsPromotion(rotated, disk, src, dest)
      ensures outcome.Promoted? ==> disk[dest].files == Stale(rotated, stuck, PartialOf(dest)) + CopyOf(src)
      ensures outcome.Promoted? && PartialOf(dest) !in stuck ==> disk[dest].mtime == now
      ensures old(trace) <= trace
      ensures forall i :: |old(trace)| <= i < |trace| ==> Safe(old(disk), trace[i], src, dest, PartialOf(dest))
      ensures outcome.Promoted? || outcome.RenameFailed? ==> copied < |trace|
      ensures outcome.Promoted? || outcome.RenameFailed? ==>
                forall i :: copied <= i < |trace| ==> HasCopy(trace[i], src, dest)
    {
      hide HoldsAll, Rotated, IsPromotion, HasCopy, OnlyTouched;
      copied, rotated, victims := |trace|, disk, {};
      if "memexd.db" !in src {
        return Skipped, copied, rotated, victims;
      }
      victims := Rotate(rotateDir, keep);
      rotated := disk;
      if !enoughSpace {
        return Refused, copied, rotated, victims;
      }
      ghost var sofar := trace;
      outcome, copied := CopyAndPromote(src, dest, failAt, now);
      RotatedOnlyDeletes(old(disk), rotated, stuck, rotateDir, keep, victims);
      SafeAfterDeletion(old(disk), rotated, trace, |sofar|, src, dest);
    }
  }
}
