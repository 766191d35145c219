/**
 * Moving the data folder (backend/data_migration.go): the sub-folders left to do
 * are kept in a marker file, the user's folders are copied one after the other,
 * the folders with cached data are deleted, and after a crash the next start of
 * the launcher goes on with the marker it finds.
 */
module Migration {
  import opened Common
  import opened MigrationCopy
  import opened MigrationTree
  import opened MigrationWalk

  /** The user's data, which is copied. */
  const MOVE_SUBS: seq<string> := ["installations", "skins", "skin-snapshots"]

  /** Cached data, which is deleted. */
  const DELETE_SUBS: seq<string> := ["minecraft", "java", "cache", "fonts"]

  /** The old and the new data folder, how deep the old one is at most, and the
      sub-folders to copy and to delete. */
  datatype Place = Place(old_: Path, new_: Path, depth: nat, moves: seq<string>, deletes: seq<string>) {
    /** All sub-folders, in the order in which they are done. */
    function Subs(): seq<string> { moves + deletes }
  }

  /** The program's sub-folders. */
  function ProgramPlace(old_: Path, new_: Path, depth: nat): Place {
    Place(old_, new_, depth, MOVE_SUBS, DELETE_SUBS)
  }

  datatype Side = Old | New

  /** The marker file in the old folder: none, cut off in the middle, or the
      sub-folders left to do. */
  datatype Marker = NoMarker | Half | Saved(left: seq<string>)

  /** The disk, the data folder the launcher is set to, and the marker. */
  datatype Disk = Disk(files: Files, home: Side, marker: Marker)

  // -------------------------------------------------------------------------
  // One run of the launcher
  // -------------------------------------------------------------------------

  datatype SaveEvent = Written | DiesBefore | DiesHalf

  /** Deleting a folder works, leaves some files or all of them (and that is ignored),
      or ends with the launcher's death when some files are still there. */
  datatype DeleteEvent = Gone | Partly(kept: set<Path>) | DiesKeeping(kept: set<Path>)

  /** What happens during one run: to the walk, to each deletion, to each saving of
      the marker (by how many sub-folders are left; `savingEnd` is the last one),
      and whether the new folder is then written to the configuration. */
  datatype Boot = Boot(walk: Luck, deleting: string -> DeleteEvent, saving: nat -> SaveEvent, savingEnd: SaveEvent, switches: bool)

  datatype End = Finished | Failed | Died

  /** `SaveMigrationState`; the flag tells whether the launcher lives on. */
  function Save(d: Disk, left: seq<string>, e: SaveEvent): (Disk, bool) {
    match e
    case Written => (d.(marker := Saved(left)), true)
    case DiesBefore => (d, false)
    case DiesHalf => (d.(marker := Half), false)
  }

  function DeleteBelow(fs: Files, dir: Path, e: DeleteEvent): (Files, bool) {
    match e
    case Gone => (map p | p in fs && !Under(dir, p) :: fs[p], true)
    case Partly(kept) => (map p | p in fs && (!Under(dir, p) || p in kept) :: fs[p], true)
    case DiesKeeping(kept) => (map p | p in fs && (!Under(dir, p) || p in kept) :: fs[p], false)
  }

  /** `executeMigration`: the loop over the sub-folders left, and the end. */
  function Execute(pl: Place, d: Disk, left: seq<string>, b: Boot): (Disk, End)
    decreases |left|, 0
  {
    if left == [] then
      var (d', alive) := Save(d, [], b.savingEnd);
      (d', if alive then Finished else Died)
    else
      var sub, rest := left[0], left[1..];
      if Names(d.files, pl.old_ + [sub]) == {} then Continue(pl, d, rest, b)
      else if sub in pl.deletes then
        var (fs, alive) := DeleteBelow(d.files, pl.old_ + [sub], b.deleting(sub));
        if alive then Continue(pl, d.(files := fs), rest, b) else (d.(files := fs), Died)
      else
        var r := Moved(pl, d.files, sub, b.walk);
        if r.died then (d.(files := r.files), Died)
        else if r.failed then
          var (d', alive) := Save(d.(files := r.files), rest, b.saving(|rest|));
          (d', if alive then Failed else Died)
        else Continue(pl, d.(files := r.files), rest, b)
  }

  /** Saves the shorter list and goes on. */
  function Continue(pl: Place, d: Disk, rest: seq<string>, b: Boot): (Disk, End)
    decreases |rest|, 1
  {
    var (d', alive) := Save(d, rest, b.saving(|rest|));
    if alive then Execute(pl, d', rest, b) else (d', Died)
  }

  /** `moveTreeWithProgress` on one sub-folder. */
  function Moved(pl: Place, fs: Files, sub: string, w: Luck): Progress {
    Perform(Progress(fs, false, false), Plan(fs, pl.old_ + [sub], pl.new_ + [sub], w, pl.depth))
  }

  /** What follows on a finished migration: the new folder is taken. The marker is
      then removed from the new folder, where it is not. */
  function Conclude(r: (Disk, End), b: Boot): Disk {
    if r.1 == Finished && b.switches then r.0.(home := New) else r.0
  }

  /** `SetAppDir`: the player chooses the new folder. */
  function SetAppDir(pl: Place, d: Disk, b: Boot): Disk {
    if d.home == New then d
    else
      var (d', alive) := Save(d, pl.Subs(), b.saving(|pl.Subs()|));
      if alive then Conclude(Execute(pl, d', pl.Subs(), b), b) else d'
  }

  /** The start of the launcher: `ResumeMigration`, if the folder it is set to has a
      marker that can be read. */
  function Resume(pl: Place, d: Disk, b: Boot): Disk {
    if d.home == Old && d.marker.Saved? then Conclude(Execute(pl, d, d.marker.left, b), b) else d
  }

  datatype Attempt = Choose(boot: Boot) | StartUp(boot: Boot)

  function Tried(pl: Place, d: Disk, e: Attempt): Disk {
    match e
    case Choose(b) => SetAppDir(pl, d, b)
    case StartUp(b) => Resume(pl, d, b)
  }

  /** Any sequence of attempts, crashes and restarts. */
  function Run(pl: Place, d: Disk, es: seq<Attempt>): Disk {
    if es == [] then d else Tried(pl, Run(pl, d, es[..|es| - 1]), es[|es| - 1])
  }

  // -------------------------------------------------------------------------
  // The jobs of a whole migration
  // -------------------------------------------------------------------------

  /** The two folders lie apart, and the sub-folders are different folders, none of
      which is named like a temporary file. */
  ghost predicate Ready(pl: Place, f0: Files) {
    && Apart(pl.old_, pl.new_)
    && TmpLater(pl.moves)
    && (forall s | s in pl.moves :: s !in pl.deletes)
    && (forall s | s in pl.Subs() :: pl.old_ + [s] !in f0)
    && forall s | s in pl.moves :: TreeLike(f0, pl.old_ + [s], pl.depth)
  }

  function AllJobs(pl: Place, f0: Files): seq<Job> {
    JobsIn(f0, pl.old_, pl.new_, pl.moves, pl.depth + 1)
  }

  /** The number of jobs in the first `k` sub-folders. */
  function Upto(pl: Place, f0: Files, k: nat): nat {
    |JobsIn(f0, pl.old_, pl.new_, pl.moves[..if k <= |pl.moves| then k else |pl.moves|], pl.depth + 1)|
  }

  function SubJobs(pl: Place, f0: Files, sub: string): seq<Job> {
    Jobs(f0, pl.old_ + [sub], pl.new_ + [sub], pl.depth)
  }

  lemma AllJobsOrderly(pl: Place, f0: Files)
    requires Ready(pl, f0)
    ensures Orderly(AllJobs(pl, f0)) && AllMirror(f0, pl.old_, pl.new_, AllJobs(pl, f0))
  {
    JobsInOrderly(f0, pl.old_, pl.new_, pl.moves, pl.depth + 1);
    JobsInMirror(f0, pl.old_, pl.new_, pl.moves, pl.depth + 1);
  }

  /** All jobs are those of the sub-folders one after the other. */
  lemma JobsOfSub(pl: Place, f0: Files, k: nat)
    requires Ready(pl, f0) && k < |pl.moves|
    ensures var j := AllJobs(pl, f0);
            && Upto(pl, f0, k) + |SubJobs(pl, f0, pl.moves[k])| == Upto(pl, f0, k + 1) <= |j|
            && j[Upto(pl, f0, k)..Upto(pl, f0, k + 1)] == SubJobs(pl, f0, pl.moves[k])
  {
    SubIsFolder(pl, f0, k);
    SubBetween(pl, f0, k);
  }

  lemma SubBetween(pl: Place, f0: Files, k: nat)
    requires k < |pl.moves|
    ensures var j, mine := AllJobs(pl, f0), JobsOf(f0, pl.old_, pl.new_, pl.moves[k], pl.depth + 1);
            && Upto(pl, f0, k) + |mine| == Upto(pl, f0, k + 1) <= |j|
            && j[Upto(pl, f0, k)..Upto(pl, f0, k + 1)] == mine
  {
    JobsOfName(f0, pl.old_, pl.new_, pl.moves, k, pl.depth + 1);
  }

  lemma JobsOfName(fs: Files, src: Path, dst: Path, names: seq<string>, k: nat, h: nat)
    requires k < |names|
    ensures var j, a, b := JobsIn(fs, src, dst, names, h), JobsIn(fs, src, dst, names[..k], h), JobsIn(fs, src, dst, names[..k + 1], h);
            && |a| + |JobsOf(fs, src, dst, names[k], h)| == |b| <= |j|
            && j[|a|..|b|] == JobsOf(fs, src, dst, names[k], h)
  {
    JobsInSnoc(fs, src, dst, names, k, h);
    JobsInPrefix(fs, src, dst, names, k + 1, h);
    MiddlePart(JobsIn(fs, src, dst, names, h), JobsIn(fs, src, dst, names[..k], h), JobsOf(fs, src, dst, names[k], h));
  }

  lemma SubIsFolder(pl: Place, f0: Files, k: nat)
    requires Ready(pl, f0) && k < |pl.moves|
    ensures JobsOf(f0, pl.old_, pl.new_, pl.moves[k], pl.depth + 1) == SubJobs(pl, f0, pl.moves[k])
  {
    assert pl.Subs()[k] == pl.moves[k];
  }

  lemma JobsInSnoc(fs: Files, src: Path, dst: Path, names: seq<string>, k: nat, h: nat)
    requires k < |names|
    ensures JobsIn(fs, src, dst, names[..k + 1], h) == JobsIn(fs, src, dst, names[..k], h) + JobsOf(fs, src, dst, names[k], h)
  {
    assert names[..k + 1][..k] == names[..k];
  }

  lemma MiddlePart(jobs: seq<Job>, a: seq<Job>, b: seq<Job>)
    requires a + b <= jobs
    ensures jobs[|a|..|a| + |b|] == b
  {
    assert jobs[|a|..|a| + |b|] == jobs[..|a + b|][|a|..] == (a + b)[|a|..];
  }

  lemma {:induction false} JobsInPrefix(fs: Files, src: Path, dst: Path, names: seq<string>, k: nat, h: nat)
    requires k <= |names|
    ensures JobsIn(fs, src, dst, names[..k], h) <= JobsIn(fs, src, dst, names, h)
    decreases |names|
  {
    if k < |names| {
      JobsInPrefix(fs, src, dst, names[..|names| - 1], k, h);
      assert names[..|names| - 1][..k] == names[..k];
    } else {
      assert names[..k] == names;
    }
  }

  // -------------------------------------------------------------------------
  // What every run keeps
  // -------------------------------------------------------------------------

  /** The user's folders in the old place are as they were. */
  ghost predicate OldKept(pl: Place, f0: Files, fs: Files) {
    forall s | s in pl.moves :: SameBelow(f0, fs, pl.old_ + [s])
  }

  /** `p` is cached data of the old place. */
  ghost predicate Cached(pl: Place, p: Path) {
    exists s :: s in pl.deletes && Under(pl.old_ + [s], p)
  }

  /** Equal but for cached data of the old place. */
  ghost predicate SameUncached(pl: Place, a: Files, b: Files) {
    forall p | !Cached(pl, p) :: SameAt(a, b, p)
  }

  /** The targets of the first `n` jobs are there. */
  ghost predicate TargetsThere(fs: Files, jobs: seq<Job>, n: nat) {
    n <= |jobs| && forall i | 0 <= i < n :: jobs[i].to in fs
  }

  /** The old data is untouched, and copying what is missing would give exactly what
      an undisturbed migration gives. */
  ghost predicate OnTheWay(pl: Place, f0: Files, fs: Files) {
    && OldKept(pl, f0, fs)
    && SameUncached(pl, Complete(fs, AllJobs(pl, f0)), Complete(f0, AllJobs(pl, f0)))
  }

  /** A marker that can be read tells no more than the truth. */
  ghost predicate MarkerTrue(pl: Place, f0: Files, fs: Files, m: Marker) {
    m.Saved? ==> exists k: nat :: k <= |pl.Subs()| && m.left == pl.Subs()[k..] && TargetsThere(fs, AllJobs(pl, f0), Upto(pl, f0, k))
  }

  ghost predicate Keeps(pl: Place, f0: Files, d: Disk) {
    && OnTheWay(pl, f0, d.files)
    && MarkerTrue(pl, f0, d.files, d.marker)
    && (d.home == New ==> SameUncached(pl, d.files, Complete(f0, AllJobs(pl, f0))))
  }

  lemma SourcesOfAll(pl: Place, f0: Files, fs: Files)
    requires Ready(pl, f0) && OldKept(pl, f0, fs)
    ensures SourcesKept(f0, fs, AllJobs(pl, f0)) && SourcesKept(fs, fs, AllJobs(pl, f0))
  {
    forall i | 0 <= i < |AllJobs(pl, f0)| ensures SameAt(f0, fs, AllJobs(pl, f0)[i].from) && AllJobs(pl, f0)[i].from in f0 {
      SourceOfJob(pl, f0, fs, i);
    }
  }

  lemma SourceOfJob(pl: Place, f0: Files, fs: Files, i: nat)
    requires Ready(pl, f0) && OldKept(pl, f0, fs) && i < |AllJobs(pl, f0)|
    ensures SameAt(f0, fs, AllJobs(pl, f0)[i].from) && AllJobs(pl, f0)[i].from in f0
  {
    var j := AllJobs(pl, f0)[i];
    AllJobsOrderly(pl, f0);
    JobsInNames(f0, pl.old_, pl.new_, pl.moves, pl.depth + 1);
    var s := j.from[|pl.old_|];
    assert s in pl.moves && Mirrors(f0, pl.old_, pl.new_, j);
    assert s in pl.Subs();
    InSub(pl.old_, s, j.from);
    assert SameBelow(f0, fs, pl.old_ + [s]);
  }

  lemma InSub(dir: Path, s: string, p: Path)
    requires Under(dir, p) && p[|dir|] == s && p != dir + [s]
    ensures Under(dir + [s], p)
  {
    var q := p[..|dir| + 1];
    assert q == dir + [s];
    assert |p| == |dir| + 1 ==> q == p;
  }

  // ---- one sub-folder ----

  lemma WalkKeepsOld(pl: Place, fs: Files, sub: string, w: Luck, s: string, p: Path)
    requires Apart(pl.old_, pl.new_) && Under(pl.old_ + [s], p)
    ensures SameAt(fs, Moved(pl, fs, sub, w).files, p)
  {
    if Under(pl.new_ + [sub], p) {
      BelowBelow(pl.old_, s, p);
      BelowBelow(pl.new_, sub, p);
      Comparable(pl.old_, pl.new_, p);
    }
    WalkOutside(fs, pl.old_ + [sub], pl.new_ + [sub], w, pl.depth, p);
  }

  lemma DeleteKeepsOld(pl: Place, fs: Files, sub: string, e: DeleteEvent, s: string, p: Path)
    requires sub != s && Under(pl.old_ + [s], p)
    ensures SameAt(fs, DeleteBelow(fs, pl.old_ + [sub], e).0, p)
  {
    OtherSub(pl.old_, s, sub, p);
  }

  lemma {:induction false} DoneUncached(pl: Place, a: Files, b: Files, jobs: seq<Job>, n: nat)
    requires n <= |jobs| && SameUncached(pl, a, b)
    requires forall i | 0 <= i < |jobs| :: jobs[i].to != [] && !Cached(pl, jobs[i].from) && !Cached(pl, jobs[i].to) && !Cached(pl, Tmp(jobs[i].to))
    ensures SameUncached(pl, Done(a, jobs, n), Done(b, jobs, n))
  {
    if n > 0 {
      DoneUncached(pl, a, b, jobs, n - 1);
      OneUncached(pl, Done(a, jobs, n - 1), Done(b, jobs, n - 1), jobs[n - 1]);
    }
  }

  lemma OneUncached(pl: Place, a: Files, b: Files, j: Job)
    requires SameUncached(pl, a, b)
    requires j.to != [] && !Cached(pl, j.from) && !Cached(pl, j.to) && !Cached(pl, Tmp(j.to))
    ensures SameUncached(pl, One(a, j), One(b, j))
  {
    assert SameAt(a, b, j.from) && SameAt(a, b, j.to);
    forall p | !Cached(pl, p) ensures SameAt(One(a, j), One(b, j), p) {
      assert SameAt(a, b, p);
    }
  }

  lemma JobIsUncached(pl: Place, f0: Files, i: nat)
    requires Ready(pl, f0) && i < |AllJobs(pl, f0)|
    ensures var j := AllJobs(pl, f0)[i];
            j.to != [] && !Cached(pl, j.from) && !Cached(pl, j.to) && !Cached(pl, Tmp(j.to))
  {
    AllJobsOrderly(pl, f0);
    JobsInNames(f0, pl.old_, pl.new_, pl.moves, pl.depth + 1);
    MirrorIsUncached(pl, f0, AllJobs(pl, f0)[i]);
  }

  lemma MirrorIsUncached(pl: Place, f0: Files, j: Job)
    requires Apart(pl.old_, pl.new_) && (forall s | s in pl.moves :: s !in pl.deletes)
    requires Mirrors(f0, pl.old_, pl.new_, j) && j.from[|pl.old_|] in pl.moves
    ensures j.to != [] && !Cached(pl, j.from) && !Cached(pl, j.to) && !Cached(pl, Tmp(j.to))
  {
    MirrorTarget(f0, pl.old_, pl.new_, j);
    NewIsUncached(pl, j.to);
    NewIsUncached(pl, Tmp(j.to));
    MovedIsUncached(pl, j.from);
  }

  lemma MovedIsUncached(pl: Place, p: Path)
    requires (forall s | s in pl.moves :: s !in pl.deletes) && Under(pl.old_, p) && p[|pl.old_|] in pl.moves
    ensures !Cached(pl, p)
  {
    if Cached(pl, p) {
      var s :| s in pl.deletes && Under(pl.old_ + [s], p);
      BelowBelow(pl.old_, s, p);
    }
  }

  lemma NewIsUncached(pl: Place, p: Path)
    requires Apart(pl.old_, pl.new_) && Under(pl.new_, p)
    ensures !Cached(pl, p)
  {
    if Cached(pl, p) {
      var s :| s in pl.deletes && Under(pl.old_ + [s], p);
      BelowBelow(pl.old_, s, p);
      Comparable(pl.old_, pl.new_, p);
    }
  }

  lemma DeleteOnTheWay(pl: Place, f0: Files, fs: Files, s: string, e: DeleteEvent)
    requires Ready(pl, f0) && OnTheWay(pl, f0, fs) && s in pl.deletes
    ensures OnTheWay(pl, f0, DeleteBelow(fs, pl.old_ + [s], e).0)
  {
    var now, jobs := DeleteBelow(fs, pl.old_ + [s], e).0, AllJobs(pl, f0);
    forall m, p | m in pl.moves && Under(pl.old_ + [m], p) ensures SameAt(f0, now, p) {
      assert SameBelow(f0, fs, pl.old_ + [m]);
      DeleteKeepsOld(pl, fs, s, e, m, p);
    }
    forall p | !Cached(pl, p) ensures SameAt(now, fs, p) {
      assert !Under(pl.old_ + [s], p);
    }
    forall i | 0 <= i < |jobs|
      ensures jobs[i].to != [] && !Cached(pl, jobs[i].from) && !Cached(pl, jobs[i].to) && !Cached(pl, Tmp(jobs[i].to))
    {
      JobIsUncached(pl, f0, i);
    }
    DoneUncached(pl, now, fs, jobs, |jobs|);
    UncachedChain(pl, Complete(now, jobs), Complete(fs, jobs), Complete(f0, jobs));
  }

  lemma UncachedChain(pl: Place, a: Files, b: Files, c: Files)
    requires SameUncached(pl, a, b) && SameUncached(pl, b, c)
    ensures SameUncached(pl, a, c)
  {
    forall p | !Cached(pl, p) ensures SameAt(a, c, p) {
      assert SameAt(a, b, p) && SameAt(b, c, p);
    }
  }

  lemma SubJobsAmongAll(pl: Place, f0: Files, k: nat, j: Job)
    requires Ready(pl, f0) && k < |pl.moves| && j in SubJobs(pl, f0, pl.moves[k])
    ensures j in AllJobs(pl, f0)
  {
    var mine := SubJobs(pl, f0, pl.moves[k]);
    var m: nat :| m < |mine| && mine[m] == j;
    var i := JobAmongAll(pl, f0, k, m);
  }

  lemma PlanOfSub(pl: Place, f0: Files, fs: Files, k: nat, w: Luck)
    requires Ready(pl, f0) && OldKept(pl, f0, fs) && k < |pl.moves|
    ensures var s := pl.moves[k]; Among(Plan(fs, pl.old_ + [s], pl.new_ + [s], w, pl.depth), SubJobs(pl, f0, s))
  {
    var src, dst := pl.old_ + [pl.moves[k]], pl.new_ + [pl.moves[k]];
    assert SameBelow(f0, fs, src);
    WalkFrame(f0, fs, src, dst, w, pl.depth);
    PlanFromJobs(f0, src, dst, w, pl.depth);
  }

  lemma PlanAmongAll(pl: Place, f0: Files, fs: Files, k: nat, w: Luck)
    requires Ready(pl, f0) && OldKept(pl, f0, fs) && k < |pl.moves|
    ensures var s := pl.moves[k]; Among(Plan(fs, pl.old_ + [s], pl.new_ + [s], w, pl.depth), AllJobs(pl, f0))
  {
    var s := pl.moves[k];
    PlanOfSub(pl, f0, fs, k, w);
    forall a | a in Plan(fs, pl.old_ + [s], pl.new_ + [s], w, pl.depth) && a.Copy? ensures a.job in AllJobs(pl, f0) {
      SubJobsAmongAll(pl, f0, k, a.job);
    }
  }

  lemma MoveOnTheWay(pl: Place, f0: Files, fs: Files, k: nat, w: Luck)
    requires Ready(pl, f0) && OnTheWay(pl, f0, fs) && k < |pl.moves|
    ensures OnTheWay(pl, f0, Moved(pl, fs, pl.moves[k], w).files)
  {
    var s := pl.moves[k];
    PlanAmongAll(pl, f0, fs, k, w);
    AllJobsOrderly(pl, f0);
    SourcesOfAll(pl, f0, fs);
    PlanLeavesNoTrace(fs, Plan(fs, pl.old_ + [s], pl.new_ + [s], w, pl.depth), AllJobs(pl, f0));
    forall m, p | m in pl.moves && Under(pl.old_ + [m], p) ensures SameAt(f0, Moved(pl, fs, s, w).files, p) {
      assert SameBelow(f0, fs, pl.old_ + [m]);
      WalkKeepsOld(pl, fs, s, w, m, p);
    }
  }

  /** The walk through one of the user's folders without errors. */
  lemma MovedOnTheWay(pl: Place, f0: Files, fs: Files, k: nat, w: Luck)
    requires Ready(pl, f0) && OnTheWay(pl, f0, fs) && k < |pl.moves| && NoErrors(w)
    requires TargetsThere(fs, AllJobs(pl, f0), Upto(pl, f0, k))
    ensures var r := Moved(pl, fs, pl.moves[k], w);
            && !r.failed && OnTheWay(pl, f0, r.files)
            && TargetsThere(r.files, AllJobs(pl, f0), Upto(pl, f0, if r.died then k else k + 1))
  {
    var r, jobs := Moved(pl, fs, pl.moves[k], w), AllJobs(pl, f0);
    MoveOnTheWay(pl, f0, fs, k, w);
    MovedIsSound(pl, f0, fs, k, w);
    JobsOfSub(pl, f0, k);
    forall i | 0 <= i < Upto(pl, f0, if r.died then k else k + 1) ensures jobs[i].to in r.files {
      if i < Upto(pl, f0, k) {
        EarlierStays(pl, f0, fs, k, w, i);
      } else {
        assert jobs[i] == jobs[Upto(pl, f0, k)..Upto(pl, f0, k + 1)][i - Upto(pl, f0, k)];
        SubIsDone(pl, f0, fs, k, i - Upto(pl, f0, k));
      }
    }
  }

  lemma SubIsDone(pl: Place, f0: Files, fs: Files, k: nat, i: nat)
    requires Ready(pl, f0) && OldKept(pl, f0, fs) && k < |pl.moves| && i < |SubJobs(pl, f0, pl.moves[k])|
    ensures SubJobs(pl, f0, pl.moves[k])[i].to in Complete(fs, SubJobs(pl, f0, pl.moves[k]))
  {
    var s := pl.moves[k];
    SourcesOfSub(pl, f0, fs, k);
    BelowApart(pl.old_, pl.new_, s);
    JobsOrderly(f0, pl.old_ + [s], pl.new_ + [s], pl.depth);
    TargetStays(fs, SubJobs(pl, f0, s), i, |SubJobs(pl, f0, s)|);
  }

  lemma EarlierStays(pl: Place, f0: Files, fs: Files, k: nat, w: Luck, i: nat)
    requires Ready(pl, f0) && OldKept(pl, f0, fs) && k < |pl.moves| && i < Upto(pl, f0, k) <= |AllJobs(pl, f0)|
    requires AllJobs(pl, f0)[i].to in fs
    ensures AllJobs(pl, f0)[i].to in Moved(pl, fs, pl.moves[k], w).files
  {
    var s, p := pl.moves[k], AllJobs(pl, f0)[i].to;
    var plan := Plan(fs, pl.old_ + [s], pl.new_ + [s], w, pl.depth);
    AllJobsOrderly(pl, f0);
    PlanOfSub(pl, f0, fs, k, w);
    forall a | a in plan && a.Copy? ensures a.job.to != [] && Tmp(a.job.to) != p {
      var m: nat :| m < |SubJobs(pl, f0, s)| && SubJobs(pl, f0, s)[m] == a.job;
      var x := JobAmongAll(pl, f0, k, m);
    }
    PlanKeepsTarget(Progress(fs, false, false), plan, p);
  }

  ghost predicate Spares(plan: seq<Action>, p: Path) {
    forall a | a in plan && a.Copy? :: a.job.to != [] && Tmp(a.job.to) != p
  }

  lemma ActSpares(r: Progress, a: Action, p: Path)
    requires p in r.files && (a.Copy? ==> a.job.to != [] && Tmp(a.job.to) != p)
    ensures p in Act(r, a).files
  {
  }

  lemma {:induction false} PlanKeepsTarget(r: Progress, plan: seq<Action>, p: Path)
    requires p in r.files && Spares(plan, p)
    ensures p in Perform(r, plan).files
  {
    if plan != [] {
      var n := |plan| - 1;
      assert plan[n] in plan && forall a | a in plan[..n] :: a in plan;
      PlanKeepsTarget(r, plan[..n], p);
      ActSpares(Perform(r, plan[..n]), plan[n], p);
    }
  }

  lemma SourcesOfSub(pl: Place, f0: Files, fs: Files, k: nat)
    requires Ready(pl, f0) && OldKept(pl, f0, fs) && k < |pl.moves|
    ensures SourcesKept(fs, fs, SubJobs(pl, f0, pl.moves[k]))
  {
    SourcesOfAll(pl, f0, fs);
    JobsOfSub(pl, f0, k);
    SourcesOfSlice(fs, AllJobs(pl, f0), Upto(pl, f0, k), Upto(pl, f0, k + 1));
  }

  lemma SourcesOfSlice(fs: Files, jobs: seq<Job>, lo: nat, hi: nat)
    requires lo <= hi <= |jobs| && SourcesKept(fs, fs, jobs)
    ensures SourcesKept(fs, fs, jobs[lo..hi])
  {
    forall i | 0 <= i < hi - lo ensures jobs[lo..hi][i].from in fs {
      assert jobs[lo..hi][i] == jobs[lo + i];
    }
  }

  lemma MovedIsSound(pl: Place, f0: Files, fs: Files, k: nat, w: Luck)
    requires Ready(pl, f0) && OldKept(pl, f0, fs) && k < |pl.moves|
    ensures Honest(fs, SubJobs(pl, f0, pl.moves[k]), w, Moved(pl, fs, pl.moves[k], w))
  {
    var src, dst := pl.old_ + [pl.moves[k]], pl.new_ + [pl.moves[k]];
    assert SameBelow(f0, fs, src);
    WalkFrame(f0, fs, src, dst, w, pl.depth);
    BelowApart(pl.old_, pl.new_, pl.moves[k]);
    JobsOrderly(f0, src, dst, pl.depth);
    SourcesOfSub(pl, f0, fs, k);
    PlanIsSound(fs, fs, src, dst, w, pl.depth);
  }

  // ---- the other branches of the loop ----

  lemma NothingInSub(pl: Place, f0: Files, fs: Files, k: nat)
    requires Ready(pl, f0) && OldKept(pl, f0, fs) && k < |pl.moves| && Names(fs, pl.old_ + [pl.moves[k]]) == {}
    ensures Upto(pl, f0, k + 1) == Upto(pl, f0, k)
  {
    var src := pl.old_ + [pl.moves[k]];
    assert SameBelow(f0, fs, src);
    SameNames(f0, fs, src);
    assert |Listing(Names(f0, src))| == 0 by {
      assert forall x :: x in Listing(Names(f0, src)) <==> x in Names(f0, src);
    }
    assert SubJobs(pl, f0, pl.moves[k]) == JobsIn(f0, src, pl.new_ + [pl.moves[k]], [], pl.depth) == [];
    JobsOfSub(pl, f0, k);
  }

  lemma UptoAll(pl: Place, f0: Files, k: nat)
    requires k >= |pl.moves|
    ensures Upto(pl, f0, k) == |AllJobs(pl, f0)|
  {
    assert pl.moves[..|pl.moves|] == pl.moves;
  }

  lemma OtherSub(dir: Path, s: string, t: string, p: Path)
    requires s != t && Under(dir + [s], p)
    ensures !Under(dir + [t], p)
  {
    BelowBelow(dir, s, p);
    if Under(dir + [t], p) {
      BelowBelow(dir, t, p);
    }
  }

  /** When all targets are there, there is nothing left to copy. */
  lemma AllDone(pl: Place, f0: Files, fs: Files)
    requires TargetsThere(fs, AllJobs(pl, f0), |AllJobs(pl, f0)|)
    ensures Complete(fs, AllJobs(pl, f0)) == fs
  {
    NothingToDo(fs, AllJobs(pl, f0), |AllJobs(pl, f0)|);
  }

  /** Deleting cached data, wholly or partly. */
  lemma DeletedOnTheWay(pl: Place, f0: Files, fs: Files, s: string, e: DeleteEvent)
    requires Ready(pl, f0) && OnTheWay(pl, f0, fs) && s in pl.deletes
    requires TargetsThere(fs, AllJobs(pl, f0), |AllJobs(pl, f0)|)
    ensures var now := DeleteBelow(fs, pl.old_ + [s], e).0;
            OnTheWay(pl, f0, now) && TargetsThere(now, AllJobs(pl, f0), |AllJobs(pl, f0)|)
  {
    var now := DeleteBelow(fs, pl.old_ + [s], e).0;
    DeleteOnTheWay(pl, f0, fs, s, e);
    forall p | !Under(pl.old_ + [s], p) ensures SameAt(fs, now, p) {
    }
    TargetsNotDeleted(pl, f0, fs, now, s);
  }

  lemma TargetsNotDeleted(pl: Place, f0: Files, fs: Files, now: Files, s: string)
    requires Ready(pl, f0) && TargetsThere(fs, AllJobs(pl, f0), |AllJobs(pl, f0)|)
    requires forall p | !Under(pl.old_ + [s], p) :: SameAt(fs, now, p)
    ensures TargetsThere(now, AllJobs(pl, f0), |AllJobs(pl, f0)|)
  {
    var jobs := AllJobs(pl, f0);
    AllJobsOrderly(pl, f0);
    forall i | 0 <= i < |jobs| ensures jobs[i].to in now {
      var p := jobs[i].to;
      MirrorTarget(f0, pl.old_, pl.new_, jobs[i]);
      if Under(pl.old_ + [s], p) {
        BelowBelow(pl.old_, s, p);
        Comparable(pl.old_, pl.new_, p);
      } else {
        assert SameAt(fs, now, p);
      }
    }
  }

  // ---- the loop ----

  /** The state in which the loop comes to the `k`-th sub-folder. */
  ghost predicate AtSub(pl: Place, f0: Files, d: Disk, k: nat) {
    && k <= |pl.Subs()| && d.home == Old && d.marker == Saved(pl.Subs()[k..])
    && OnTheWay(pl, f0, d.files)
    && TargetsThere(d.files, AllJobs(pl, f0), Upto(pl, f0, k))
  }

  /** What the loop leaves behind. */
  ghost predicate Left(pl: Place, f0: Files, r: (Disk, End)) {
    && r.1 != Failed && r.0.home == Old && Keeps(pl, f0, r.0)
    && (r.1 == Finished ==> SameUncached(pl, r.0.files, Complete(f0, AllJobs(pl, f0))))
  }

  lemma AtSubKeeps(pl: Place, f0: Files, d: Disk, k: nat)
    requires AtSub(pl, f0, d, k)
    ensures Keeps(pl, f0, d)
  {
  }

  lemma {:induction false} ExecuteKeeps(pl: Place, f0: Files, d: Disk, k: nat, b: Boot)
    requires Ready(pl, f0) && AtSub(pl, f0, d, k) && NoErrors(b.walk)
    ensures Left(pl, f0, Execute(pl, d, pl.Subs()[k..], b))
    decreases |pl.Subs()| - k, 0
  {
    AtSubKeeps(pl, f0, d, k);
    if k == |pl.Subs()| {
      UptoAll(pl, f0, k);
      AllDone(pl, f0, d.files);
      EndKeeps(pl, f0, d, b);
    } else {
      var sub := pl.Subs()[k];
      assert pl.Subs()[k..][0] == sub && pl.Subs()[k..][1..] == pl.Subs()[k + 1..];
      if k < |pl.moves| {
        assert sub == pl.moves[k];
        MoveKeeps(pl, f0, d, k, b);
      } else {
        assert sub == pl.deletes[k - |pl.moves|];
        DeleteKeeps(pl, f0, d, k, b);
      }
    }
  }

  lemma EndKeeps(pl: Place, f0: Files, d: Disk, b: Boot)
    requires AtSub(pl, f0, d, |pl.Subs()|) && Complete(d.files, AllJobs(pl, f0)) == d.files
    ensures Left(pl, f0, Execute(pl, d, [], b))
  {
    assert pl.Subs()[|pl.Subs()|..] == [];
  }

  lemma {:induction false} MoveKeeps(pl: Place, f0: Files, d: Disk, k: nat, b: Boot)
    requires Ready(pl, f0) && AtSub(pl, f0, d, k) && NoErrors(b.walk) && k < |pl.moves|
    requires pl.Subs()[k..][0] == pl.moves[k] && pl.Subs()[k..][1..] == pl.Subs()[k + 1..]
    ensures Left(pl, f0, Execute(pl, d, pl.Subs()[k..], b))
    decreases |pl.Subs()| - k, 0, 0
  {
    var sub := pl.moves[k];
    if Names(d.files, pl.old_ + [sub]) == {} {
      NothingInSub(pl, f0, d.files, k);
      ContinueKeeps(pl, f0, d, d.files, k, b);
    } else {
      MovedOnTheWay(pl, f0, d.files, k, b.walk);
      var r := Moved(pl, d.files, sub, b.walk);
      if r.died {
        AtSubKeeps(pl, f0, d.(files := r.files), k);
      } else {
        ContinueKeeps(pl, f0, d, r.files, k, b);
      }
    }
  }

  lemma {:induction false} DeleteKeeps(pl: Place, f0: Files, d: Disk, k: nat, b: Boot)
    requires Ready(pl, f0) && AtSub(pl, f0, d, k) && NoErrors(b.walk) && |pl.moves| <= k < |pl.Subs()|
    requires pl.Subs()[k] in pl.deletes
    requires pl.Subs()[k..][0] == pl.Subs()[k] && pl.Subs()[k..][1..] == pl.Subs()[k + 1..]
    ensures Left(pl, f0, Execute(pl, d, pl.Subs()[k..], b))
    decreases |pl.Subs()| - k, 0, 0
  {
    var sub := pl.Subs()[k];
    UptoAll(pl, f0, k);
    UptoAll(pl, f0, k + 1);
    if Names(d.files, pl.old_ + [sub]) == {} {
      ContinueKeeps(pl, f0, d, d.files, k, b);
    } else {
      DeletedOnTheWay(pl, f0, d.files, sub, b.deleting(sub));
      var (now, alive) := DeleteBelow(d.files, pl.old_ + [sub], b.deleting(sub));
      if alive {
        ContinueKeeps(pl, f0, d, now, k, b);
      } else {
        AtSubKeeps(pl, f0, d.(files := now), k);
      }
    }
  }

  /** The `k`-th sub-folder is done: the marker is saved and the loop goes on. */
  lemma {:induction false} ContinueKeeps(pl: Place, f0: Files, d: Disk, now: Files, k: nat, b: Boot)
    requires Ready(pl, f0) && AtSub(pl, f0, d, k) && NoErrors(b.walk) && k < |pl.Subs()|
    requires OnTheWay(pl, f0, now) && TargetsThere(now, AllJobs(pl, f0), Upto(pl, f0, k + 1))
    ensures Left(pl, f0, Continue(pl, d.(files := now), pl.Subs()[k + 1..], b))
    decreases |pl.Subs()| - k - 1, 1
  {
    var rest := pl.Subs()[k + 1..];
    UptoGrows(pl, f0, k);
    AtSubKeeps(pl, f0, d.(files := now), k);
    var (d', alive) := Save(d.(files := now), rest, b.saving(|rest|));
    if alive {
      ExecuteKeeps(pl, f0, d', k + 1, b);
    }
  }

  lemma UptoGrows(pl: Place, f0: Files, k: nat)
    requires Ready(pl, f0)
    ensures Upto(pl, f0, k) <= Upto(pl, f0, k + 1)
  {
    if k < |pl.moves| {
      JobsOfSub(pl, f0, k);
    }
  }

  // -------------------------------------------------------------------------
  // Whole runs
  // -------------------------------------------------------------------------

  ghost predicate OnlyCrashes(es: seq<Attempt>) {
    forall i | 0 <= i < |es| :: NoErrors(es[i].boot.walk)
  }

  lemma ConcludeKeeps(pl: Place, f0: Files, r: (Disk, End), b: Boot)
    requires Left(pl, f0, r)
    ensures Keeps(pl, f0, Conclude(r, b))
  {
  }

  lemma EventKeeps(pl: Place, f0: Files, d: Disk, e: Attempt)
    requires Ready(pl, f0) && Keeps(pl, f0, d) && NoErrors(e.boot.walk)
    ensures Keeps(pl, f0, Tried(pl, d, e))
  {
    match e
    case Choose(b) =>
      if d.home == Old {
        var (d', alive) := Save(d, pl.Subs(), b.saving(|pl.Subs()|));
        if alive {
          FirstSub(pl, f0, d');
          ExecuteKeeps(pl, f0, d', 0, b);
          ConcludeKeeps(pl, f0, Execute(pl, d', pl.Subs(), b), b);
        }
      }
    case StartUp(b) =>
      if d.home == Old && d.marker.Saved? {
        var k: nat :| k <= |pl.Subs()| && d.marker.left == pl.Subs()[k..] && TargetsThere(d.files, AllJobs(pl, f0), Upto(pl, f0, k));
        ExecuteKeeps(pl, f0, d, k, b);
        ConcludeKeeps(pl, f0, Execute(pl, d, d.marker.left, b), b);
      }
  }

  lemma FirstSub(pl: Place, f0: Files, d: Disk)
    requires OnTheWay(pl, f0, d.files) && d.home == Old && d.marker == Saved(pl.Subs())
    ensures AtSub(pl, f0, d, 0) && pl.Subs()[0..] == pl.Subs()
  {
    assert pl.moves[..0] == [];
  }

  lemma {:induction false} RunKeeps(pl: Place, d: Disk, es: seq<Attempt>)
    requires Ready(pl, d.files) && d.home == Old && !d.marker.Saved? && OnlyCrashes(es)
    ensures Keeps(pl, d.files, Run(pl, d, es))
  {
    if es != [] {
      var n := |es| - 1;
      RunKeeps(pl, d, es[..n]);
      EventKeeps(pl, d.files, Run(pl, d, es[..n]), es[n]);
    }
  }

  /** Where a user file goes. */
  function Target(pl: Place, p: Path): (t: Path)
    requires Under(pl.old_, p)
    ensures Under(pl.new_, t) && |t| - |pl.new_| == |p| - |pl.old_|
  {
    assert (pl.new_ + p[|pl.old_|..])[..|pl.new_|] == pl.new_;
    pl.new_ + p[|pl.old_|..]
  }

  lemma JobOfFile(pl: Place, f0: Files, s: string, p: Path) returns (i: nat)
    requires Ready(pl, f0) && s in pl.moves && p in f0 && Under(pl.old_ + [s], p)
    ensures Under(pl.old_, p)
    ensures i < |AllJobs(pl, f0)| && AllJobs(pl, f0)[i] == Job(p, Target(pl, p))
  {
    BelowBelow(pl.old_, s, p);
    var k: nat :| k < |pl.moves| && pl.moves[k] == s;
    var m := JobInSub(pl, f0, s, p);
    i := JobAmongAll(pl, f0, k, m);
    AllJobsOrderly(pl, f0);
    assert Mirrors(f0, pl.old_, pl.new_, AllJobs(pl, f0)[i]);
  }

  lemma JobInSub(pl: Place, f0: Files, s: string, p: Path) returns (m: nat)
    requires TreeLike(f0, pl.old_ + [s], pl.depth) && p in f0 && Under(pl.old_ + [s], p)
    ensures m < |SubJobs(pl, f0, s)| && SubJobs(pl, f0, s)[m].from == p
  {
    EveryFileHasAJob(f0, pl.old_ + [s], pl.new_ + [s], pl.depth, p);
    m :| m < |SubJobs(pl, f0, s)| && SubJobs(pl, f0, s)[m].from == p;
  }

  lemma JobAmongAll(pl: Place, f0: Files, k: nat, m: nat) returns (i: nat)
    requires Ready(pl, f0) && k < |pl.moves| && m < |SubJobs(pl, f0, pl.moves[k])|
    ensures Upto(pl, f0, k) <= i < |AllJobs(pl, f0)| && AllJobs(pl, f0)[i] == SubJobs(pl, f0, pl.moves[k])[m]
  {
    JobsOfSub(pl, f0, k);
    i := Upto(pl, f0, k) + m;
    assert AllJobs(pl, f0)[i] == AllJobs(pl, f0)[Upto(pl, f0, k)..Upto(pl, f0, k + 1)][m];
  }

  /** Whatever the number of attempts, crashes and restarts: every user file keeps
      its content in the old folder at every moment, and when the launcher has taken
      the new folder, the file is there too, with its old content or with what the new
      folder had under that name before. */
  lemma UserFilesArrive(pl: Place, d: Disk, es: seq<Attempt>, s: string, p: Path)
    requires Ready(pl, d.files) && d.home == Old && !d.marker.Saved? && OnlyCrashes(es)
    requires s in pl.moves && p in d.files && Under(pl.old_ + [s], p)
    ensures var end := Run(pl, d, es);
            && p in end.files && end.files[p] == d.files[p]
            && Under(pl.old_, p)
            && (end.home == New ==>
                  && Target(pl, p) in end.files
                  && (|| end.files[Target(pl, p)] == d.files[p]
                      || (Target(pl, p) in d.files && end.files[Target(pl, p)] == d.files[Target(pl, p)])))
  {
    var end := Run(pl, d, es);
    RunKeeps(pl, d, es);
    assert SameBelow(d.files, end.files, pl.old_ + [s]);
    assert SameAt(d.files, end.files, p);
    var i := JobOfFile(pl, d.files, s, p);
    AllJobsOrderly(pl, d.files);
    SourcesOfAll(pl, d.files, d.files);
    EveryFileArrives(d.files, AllJobs(pl, d.files), i);
    TargetNotCached(pl, d.files, i);
    if end.home == New {
      assert SameAt(end.files, Complete(d.files, AllJobs(pl, d.files)), Target(pl, p));
    }
  }

  lemma TargetNotCached(pl: Place, f0: Files, i: nat)
    requires Ready(pl, f0) && i < |AllJobs(pl, f0)|
    ensures !Cached(pl, AllJobs(pl, f0)[i].to)
  {
    var p := AllJobs(pl, f0)[i].to;
    AllJobsOrderly(pl, f0);
    MirrorTarget(f0, pl.old_, pl.new_, AllJobs(pl, f0)[i]);
    if Cached(pl, p) {
      var s :| s in pl.deletes && Under(pl.old_ + [s], p);
      BelowBelow(pl.old_, s, p);
      Comparable(pl.old_, pl.new_, p);
    }
  }

  /** Crashes and restarts leave no trace: apart from cached data, a migration that
      comes to its end leaves exactly the files of one that was never disturbed. */
  lemma FinishedLikeUndisturbed(pl: Place, d: Disk, es: seq<Attempt>)
    requires Ready(pl, d.files) && d.home == Old && !d.marker.Saved? && OnlyCrashes(es)
    requires Run(pl, d, es).home == New
    ensures SameUncached(pl, Run(pl, d, es).files, Complete(d.files, AllJobs(pl, d.files)))
  {
    RunKeeps(pl, d, es);
  }

  /** The program's sub-folders meet what is asked of them. */
  lemma ProgramPlaceIsReady(old_: Path, new_: Path, depth: nat, f0: Files)
    requires Apart(old_, new_)
    requires forall s | s in MOVE_SUBS + DELETE_SUBS :: old_ + [s] !in f0
    requires forall s | s in MOVE_SUBS :: TreeLike(f0, old_ + [s], depth)
    ensures Ready(ProgramPlace(old_, new_, depth), f0)
  {
    ProgramSubsDiffer();
    assert ProgramPlace(old_, new_, depth).Subs() == MOVE_SUBS + DELETE_SUBS;
  }

  lemma ProgramSubsDiffer()
    ensures TmpLater(MOVE_SUBS) && forall s | s in MOVE_SUBS :: s !in DELETE_SUBS
  {
    MovesDiffer();
    assert forall s | s in DELETE_SUBS :: s[0] !in {'i', 's'};
    assert forall s | s in MOVE_SUBS :: s[0] in {'i', 's'};
  }

  lemma MovesDiffer()
    ensures TmpLater(MOVE_SUBS)
  {
    assert forall s | s in MOVE_SUBS :: s[|s| - 1] == 's';
    assert MOVE_SUBS[0][0] == 'i' && MOVE_SUBS[1][0] == 's' && MOVE_SUBS[2][0] == 's';
    assert |MOVE_SUBS[1]| == 5 && |MOVE_SUBS[2]| == 14;
    forall i, j | 0 <= i < j < |MOVE_SUBS| ensures MOVE_SUBS[i] != MOVE_SUBS[j] && MOVE_SUBS[i] != MOVE_SUBS[j] + ".tmp" {
      assert (MOVE_SUBS[j] + ".tmp")[|MOVE_SUBS[j]| + 3] == 'p';
    }
  }
}
