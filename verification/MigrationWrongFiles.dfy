/**
 * Wrong files under the names of user files (backend/data_migration.go): what a start
 * of the launcher does to them, and when they stay for good.
 */
module MigrationWrongFiles {
  import opened MigrationCopy
  import opened MigrationTree
  import opened MigrationWalk
  import opened Migration
  import opened MigrationAnyRun
  import opened MigrationErrors

  /** The walk comes to the file `p` and gets as far as creating its temporary file. */
  ghost predicate Begun(w: Luck, src: Path, p: Path) {
    Opens(w, src, p) && w.copy(p) != Early
  }

  // -------------------------------------------------------------------------
  // One walk
  // -------------------------------------------------------------------------

  lemma {:induction false} NamesOfChain(pl: Place, f0: Files, s: string, ps: seq<Path>, l: nat)
    requires Chained(pl, f0, s, ps) && l < |ps|
    ensures Target(pl, ps[l]) == TmpOf(Target(pl, ps[0]), l)
  {
    if l > 0 {
      NamesOfChain(pl, f0, s, ps, l - 1);
      assert Follows(pl, ps[l - 1], ps[l]);
      TmpOfNext(Target(pl, ps[0]), l - 1);
    }
  }

  lemma TargetOfJob(pl: Place, f0: Files, k: nat, j: Job, p: Path)
    requires Ready(pl, f0) && k < |pl.moves| && j in SubJobs(pl, f0, pl.moves[k]) && Under(pl.old_, p)
    ensures Under(pl.old_, j.from) && j.to == Target(pl, j.from) && (j.to == Target(pl, p) <==> j.from == p)
  {
    SubJobsAmongAll(pl, f0, k, j);
    AllJobsOrderly(pl, f0);
    assert Mirrors(f0, pl.old_, pl.new_, j);
    if j.to == Target(pl, p) {
      SameTarget(pl, j.from, p);
    }
  }

  lemma WritesExactly(pl: Place, f0: Files, k: nat, p: Path, w: Luck)
    requires Ready(pl, f0) && k < |pl.moves| && UserFile(pl, f0, pl.moves[k], p)
    ensures var s := pl.moves[k];
            Writes(Plan(f0, pl.old_ + [s], pl.new_ + [s], w, pl.depth), Target(pl, p)) <==> Begun(w, pl.old_ + [s], p)
  {
    var src, dst := pl.old_ + [pl.moves[k]], pl.new_ + [pl.moves[k]];
    var plan := Plan(f0, src, dst, w, pl.depth);
    TriedExactly(f0, src, dst, w, pl.depth, p);
    PlanFromJobs(f0, src, dst, w, pl.depth);
    forall i | 0 <= i < |plan| && plan[i].Copy?
      ensures (plan[i].job.to == Target(pl, p) <==> plan[i].job.from == p) && plan[i].how == w.copy(plan[i].job.from)
    {
      assert plan[i] in plan;
      TargetOfJob(pl, f0, k, plan[i].job, p);
    }
    if HasCopy(plan, p) {
      var a :| a in plan && a.Copy? && a.job.from == p;
      var i :| 0 <= i < |plan| && plan[i] == a;
    }
  }

  lemma WritesChain(pl: Place, f0: Files, k: nat, ps: seq<Path>, w: Luck)
    requires Ready(pl, f0) && k < |pl.moves| && Chained(pl, f0, pl.moves[k], ps)
    ensures var s := pl.moves[k];
            var plan := Plan(f0, pl.old_ + [s], pl.new_ + [s], w, pl.depth);
            forall l | 0 <= l < |ps| :: WritesAt(plan, Target(pl, ps[0]), l) <==> Begun(w, pl.old_ + [s], ps[l])
  {
    var s := pl.moves[k];
    var plan := Plan(f0, pl.old_ + [s], pl.new_ + [s], w, pl.depth);
    forall l | 0 <= l < |ps| ensures WritesAt(plan, Target(pl, ps[0]), l) <==> Begun(w, pl.old_ + [s], ps[l]) {
      NamesOfChain(pl, f0, s, ps, l);
      WritesExactly(pl, f0, k, ps[l], w);
    }
  }

  lemma JobsSupply(fs: Files, jobs: seq<Job>, plan: seq<Action>)
    requires Orderly(jobs) && SourcesKept(fs, fs, jobs) && Among(plan, jobs)
    ensures AllSupplied(fs, plan)
  {
    forall i, k | 0 <= i < |plan| && plan[i].Copy? && 0 <= k < |plan| && plan[k].Copy?
      ensures plan[i].job.to != [] && plan[i].job.from in fs
      ensures plan[i].job.from != plan[k].job.to && plan[i].job.from != Tmp(plan[k].job.to)
    {
      assert plan[i] in plan && plan[k] in plan;
      var x :| 0 <= x < |jobs| && jobs[x] == plan[i].job;
      var y :| 0 <= y < |jobs| && jobs[y] == plan[k].job;
    }
  }

  lemma SubIsWalkable(pl: Place, f0: Files, fs: Files, k: nat, w: Luck)
    requires Ready(pl, f0) && OldKept(pl, f0, fs) && k < |pl.moves| && SurvivingWalk(w)
    ensures var s := pl.moves[k];
            var plan := Plan(f0, pl.old_ + [s], pl.new_ + [s], w, pl.depth);
            plan == Plan(fs, pl.old_ + [s], pl.new_ + [s], w, pl.depth) && Walkable(fs, plan)
  {
    var src, dst := pl.old_ + [pl.moves[k]], pl.new_ + [pl.moves[k]];
    assert SameBelow(f0, fs, src);
    WalkFrame(f0, fs, src, dst, w, pl.depth);
    PlanLives(fs, src, dst, w, pl.depth);
    PlanInOrder(fs, src, dst, w, pl.depth);
    PlanOfSub(pl, f0, fs, k, w);
    BelowApart(pl.old_, pl.new_, pl.moves[k]);
    JobsOrderly(f0, src, dst, pl.depth);
    SourcesOfSub(pl, f0, fs, k);
    JobsSupply(fs, SubJobs(pl, f0, pl.moves[k]), Plan(fs, src, dst, w, pl.depth));
  }

  lemma SubSupplies(pl: Place, f0: Files, fs: Files, k: nat, q: Path, w: Luck)
    requires Ready(pl, f0) && OldKept(pl, f0, fs) && k < |pl.moves| && UserFile(pl, f0, pl.moves[k], q)
    ensures var s := pl.moves[k]; Supplies(fs, Plan(f0, pl.old_ + [s], pl.new_ + [s], w, pl.depth), Target(pl, q), f0[q])
  {
    var src, dst := pl.old_ + [pl.moves[k]], pl.new_ + [pl.moves[k]];
    var plan := Plan(f0, src, dst, w, pl.depth);
    assert SameBelow(f0, fs, src);
    assert SameAt(f0, fs, q);
    PlanFromJobs(f0, src, dst, w, pl.depth);
    forall i | 0 <= i < |plan| && plan[i].Copy? && plan[i].job.to == Target(pl, q) ensures plan[i].job.from == q {
      assert plan[i] in plan;
      TargetOfJob(pl, f0, k, plan[i].job, q);
    }
  }

  /** The last file of the chain is not what the user has under its name. */
  ghost predicate WrongAtEnd(pl: Place, f0: Files, now: Files, s: string, ps: seq<Path>) {
    && ChainOnDisk(pl, f0, now, s, ps) && |ps| > 1
    && now[Target(pl, ps[|ps| - 1])] != f0[ps[|ps| - 1]]
  }

  /** The file `t` is as it was. */
  predicate Stays(a: Files, b: Files, t: Path) {
    t in a && t in b && b[t] == a[t]
  }

  /** There is a file before the last of the chain with which the walk did not begin. */
  ghost predicate Interrupted(w: Luck, src: Path, ps: seq<Path>) {
    exists l :: 0 <= l < |ps| - 1 && !Begun(w, src, ps[l])
  }

  lemma WrongFileInWalk(pl: Place, f0: Files, fs: Files, k: nat, ps: seq<Path>, w: Luck)
    requires Ready(pl, f0) && OldKept(pl, f0, fs) && k < |pl.moves| && SurvivingWalk(w)
    requires WrongAtEnd(pl, f0, fs, pl.moves[k], ps)
    ensures Stays(fs, Moved(pl, fs, pl.moves[k], w).files, Target(pl, ps[|ps| - 1])) <==> Interrupted(w, pl.old_ + [pl.moves[k]], ps)
  {
    var s, x, n := pl.moves[k], Target(pl, ps[0]), |ps| - 1;
    var plan := Plan(f0, pl.old_ + [s], pl.new_ + [s], w, pl.depth);
    SubIsWalkable(pl, f0, fs, k, w);
    SubSupplies(pl, f0, fs, k, ps[n], w);
    NamesOfChain(pl, f0, s, ps, n);
    ChainIsThere(pl, f0, fs, s, ps);
    WrongFileStaysExactly(fs, plan, x, n, f0[ps[n]]);
    WritesChain(pl, f0, k, ps, w);
    InterruptedByName(pl, ps, w, plan, s, n);
  }

  lemma InterruptedByName(pl: Place, ps: seq<Path>, w: Luck, plan: seq<Action>, s: string, n: nat)
    requires n == |ps| - 1 && Under(pl.old_, ps[0])
    requires forall l | 0 <= l < |ps| :: WritesAt(plan, Target(pl, ps[0]), l) <==> Begun(w, pl.old_ + [s], ps[l])
    ensures (exists m: nat :: m < n && !WritesAt(plan, Target(pl, ps[0]), m)) <==> Interrupted(w, pl.old_ + [s], ps)
  {
    if m: nat :| m < n && !WritesAt(plan, Target(pl, ps[0]), m) {
      assert !Begun(w, pl.old_ + [s], ps[m]);
    }
    if Interrupted(w, pl.old_ + [s], ps) {
      var l :| 0 <= l < n && !Begun(w, pl.old_ + [s], ps[l]);
      assert !WritesAt(plan, Target(pl, ps[0]), l);
    }
  }

  lemma ChainIsThere(pl: Place, f0: Files, fs: Files, s: string, ps: seq<Path>)
    requires ChainOnDisk(pl, f0, fs, s, ps)
    ensures ChainThere(fs, Target(pl, ps[0]), |ps| - 1)
  {
    forall m | 0 < m <= |ps| - 1 ensures TmpOf(Target(pl, ps[0]), m) in fs {
      NamesOfChain(pl, f0, s, ps, m);
    }
  }

  /** In every run whatever: a file under the name of a user file that is not genuine is
      at the end of such a chain. */
  lemma WrongFileHasChain(pl: Place, d: Disk, es: seq<Attempt>, i: nat)
    requires Ready(pl, d.files) && !d.marker.Saved? && i < |AllJobs(pl, d.files)|
    requires AllJobs(pl, d.files)[i].to in Run(pl, d, es).files && !Genuine(pl, d.files, Run(pl, d, es).files, i)
    ensures exists k, ps :: 0 <= k < |pl.moves| && WrongAtEnd(pl, d.files, Run(pl, d, es).files, pl.moves[k], ps)
                            && ps[|ps| - 1] == AllJobs(pl, d.files)[i].from
  {
    var now := Run(pl, d, es).files;
    RunOnTheWay(pl, d, es);
    var s, ps := ChainBehind(pl, d.files, now, i);
    JobIsUserFile(pl, d.files, i);
    var k: nat :| k < |pl.moves| && pl.moves[k] == s;
    assert WrongAtEnd(pl, d.files, now, pl.moves[k], ps);
  }

  // -------------------------------------------------------------------------
  // A run
  // -------------------------------------------------------------------------

  /** In the attempt `e` the `k`-th sub-folder has its turn: it is on the list at first
      and off the list afterwards. */
  ghost predicate HasTurn(pl: Place, d: Disk, e: Attempt, k: nat)
    requires k < |pl.moves|
  {
    && d.home == Old
    && (e.Choose? || (d.marker.Saved? && pl.moves[k] in d.marker.left))
    && Dropped(Tried(pl, d, e), pl.moves[k])
  }

  /** The disk at that turn. */
  lemma AtItsTurn(pl: Place, f0: Files, d: Disk, e: Attempt, k: nat) returns (now: Disk)
    requires Ready(pl, f0) && OldKept(pl, f0, d.files) && Listed(pl, d)
    requires k < |pl.moves| && HasTurn(pl, d, e, k) && Survives(e.boot)
    ensures OldKept(pl, f0, now.files) && SameNew(pl, d.files, now.files, k)
    ensures now.home == Old && now.marker == Saved(pl.Subs()[k..])
    ensures Tried(pl, d, e) == Conclude(Execute(pl, now, pl.Subs()[k..], e.boot), e.boot)
  {
    var j := SomeBegin(pl, d, e);
    BeginsLoop(pl, d, e, j);
    OnList(pl, f0, j, k);
    var m;
    m, now := LoopComesTo(pl, f0, AtBegin(pl, d, j), j, e.boot, k);
    if m < k {
      MoveLives(pl, now.files, pl.moves[m], e.boot.walk);
      FailureLeaves(pl, f0, now, m, e.boot);
      OnList(pl, f0, m + 1, k);
      assert false;
    }
  }

  /** After its turn nothing in that attempt touches the sub-folder any more. */
  lemma AfterItsTurn(pl: Place, f0: Files, d: Disk, k: nat, b: Boot)
    requires Ready(pl, f0) && k < |pl.moves| && d.home == Old && d.marker == Saved(pl.Subs()[k..])
    requires Names(d.files, pl.old_ + [pl.moves[k]]) != {} && Survives(b)
    ensures SameNew(pl, Moved(pl, d.files, pl.moves[k], b.walk).files, Execute(pl, d, pl.Subs()[k..], b).0.files, k)
  {
    var s, rest := pl.moves[k], pl.Subs()[k + 1..];
    MoveLives(pl, d.files, s, b.walk);
    if StopsAt(pl, d, k, b) {
      FailureLeaves(pl, f0, d, k, b);
    } else {
      var next := Past(pl, d, k, b);
      PastIsNext(pl, f0, d, k, b);
      OnList(pl, f0, k + 1, k);
      forall p | Under(pl.new_ + [s], p) ensures SameAt(next.files, Execute(pl, next, rest, b).0.files, p) {
        ExecuteFrame(pl, next, rest, b, s, p);
      }
    }
  }

  lemma TargetInSub(pl: Place, f0: Files, s: string, p: Path)
    requires UserFile(pl, f0, s, p)
    ensures Under(pl.new_ + [s], Target(pl, p))
  {
    BelowBelow(pl.old_, s, p);
    assert Target(pl, p)[..|pl.new_| + 1] == pl.new_ + [p[|pl.old_|]];
  }

  lemma ChainStays(pl: Place, f0: Files, a: Files, b: Files, k: nat, ps: seq<Path>)
    requires k < |pl.moves| && SameNew(pl, a, b, k) && WrongAtEnd(pl, f0, a, pl.moves[k], ps)
    ensures WrongAtEnd(pl, f0, b, pl.moves[k], ps) && Stays(a, b, Target(pl, ps[|ps| - 1]))
  {
    forall l | 0 <= l < |ps| ensures SameAt(a, b, Target(pl, ps[l])) {
      TargetInSub(pl, f0, pl.moves[k], ps[l]);
    }
    assert SameAt(a, b, Target(pl, ps[|ps| - 1]));
  }

  lemma SomethingInSub(pl: Place, f0: Files, fs: Files, k: nat, p: Path)
    requires OldKept(pl, f0, fs) && k < |pl.moves| && UserFile(pl, f0, pl.moves[k], p)
    ensures Names(fs, pl.old_ + [pl.moves[k]]) != {}
  {
    var src := pl.old_ + [pl.moves[k]];
    assert SameBelow(f0, fs, src);
    assert SameAt(f0, fs, p);
    assert p in fs.Keys && p[|src|] in Names(fs, src);
  }

  /** In any state that a run can come to: a file that is missing in the new folder, and
      behind it user files each of which has the temporary name of the one before, the
      last with something else under its name, such as a part written before a crash.
      After the attempt in which their sub-folder has its turn, if the launcher survives
      it, and after all later starts, the wrong file is still there if and only if that
      attempt did not begin with one of the files before it: it did not come through all
      folders above that file, or could not open it or create its temporary file. */
  lemma WrongFileStaysForGoodExactly(pl: Place, d: Disk, es: seq<Attempt>, e: Attempt, k: nat, ps: seq<Path>, more: seq<Attempt>)
    requires Ready(pl, d.files) && !d.marker.Saved? && k < |pl.moves|
    requires HasTurn(pl, Run(pl, d, es), e, k) && Survives(e.boot)
    requires WrongAtEnd(pl, d.files, Run(pl, d, es).files, pl.moves[k], ps)
    requires forall i | 0 <= i < |more| :: more[i].StartUp?
    ensures var now, end := Run(pl, d, es).files, Run(pl, Tried(pl, Run(pl, d, es), e), more).files;
            Stays(now, end, Target(pl, ps[|ps| - 1])) <==> Interrupted(e.boot.walk, pl.old_ + [pl.moves[k]], ps)
  {
    var before, s, t := Run(pl, d, es), pl.moves[k], Target(pl, ps[|ps| - 1]);
    RunOnTheWay(pl, d, es);
    var turn := AtItsTurn(pl, d.files, before, e, k);
    ChainStays(pl, d.files, before.files, turn.files, k, ps);
    WrongFileInWalk(pl, d.files, turn.files, k, ps, e.boot.walk);
    SomethingInSub(pl, d.files, turn.files, k, ps[0]);
    AfterItsTurn(pl, d.files, turn, k, e.boot);
    TargetInSub(pl, d.files, s, ps[|ps| - 1]);
    assert SameAt(Moved(pl, turn.files, s, e.boot.walk).files, Tried(pl, before, e).files, t);
    FailedSubIsSkipped(pl, Tried(pl, before, e), more, s, t);
  }
}
