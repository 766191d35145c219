/**
 * What one walk of `moveTreeWithProgress` (backend/data_migration.go) does to the
 * disk: if it returns no error it has done all its jobs, or died after some of them;
 * it depends only on the source tree and changes only what lies below its target.
 */
module MigrationWalk {
  import opened Common
  import opened MigrationCopy
  import opened MigrationTree

  // -------------------------------------------------------------------------
  // A walk that returns no error
  // -------------------------------------------------------------------------

  /** Only crashes can happen, no errors. */
  ghost predicate NoErrors(w: Luck) {
    forall p :: w.copy(p) != Early && w.copy(p) != Late && w.enter(p) != Unreadable
  }

  /** All jobs are done, or the launcher died after some of them. */
  ghost predicate Sound(fs: Files, jobs: seq<Job>, r: Progress) {
    && (!r.died ==> r.files == Complete(fs, jobs))
    && (r.died ==> exists n: nat, part :: n <= |jobs| && r.files == Stopped(fs, jobs, n, part))
  }

  lemma {:induction false} DoneOfFirst(fs: Files, a: seq<Job>, b: seq<Job>, n: nat)
    requires n <= |a|
    ensures Done(fs, a + b, n) == Done(fs, a, n)
  {
    if n > 0 {
      DoneOfFirst(fs, a, b, n - 1);
    }
  }

  lemma {:induction false} DoneOfSecond(fs: Files, a: seq<Job>, b: seq<Job>, n: nat)
    requires n <= |b|
    ensures Done(fs, a + b, |a| + n) == Done(Complete(fs, a), b, n)
  {
    if n == 0 {
      DoneOfFirst(fs, a, b, |a|);
    } else {
      DoneOfSecond(fs, a, b, n - 1);
      assert (a + b)[|a| + n - 1] == b[n - 1];
    }
  }

  lemma StoppedInFirst(fs: Files, a: seq<Job>, b: seq<Job>, n: nat, part: Option<Bytes>)
    requires n <= |a|
    ensures Stopped(fs, a + b, n, if n < |a| then part else None) == Stopped(fs, a, n, part)
  {
    DoneOfFirst(fs, a, b, n);
  }

  lemma StoppedInSecond(fs: Files, a: seq<Job>, b: seq<Job>, n: nat, part: Option<Bytes>)
    requires n <= |b|
    ensures Stopped(fs, a + b, |a| + n, part) == Stopped(Complete(fs, a), b, n, part)
  {
    DoneOfSecond(fs, a, b, n);
    assert n < |b| ==> (a + b)[|a| + n] == b[n];
  }

  lemma SoundFirst(fs: Files, a: seq<Job>, b: seq<Job>, r: Progress)
    requires Sound(fs, a, r) && r.died
    ensures Sound(fs, a + b, r)
  {
    var n: nat, part :| n <= |a| && r.files == Stopped(fs, a, n, part);
    StoppedInFirst(fs, a, b, n, part);
  }

  lemma SoundSecond(fs: Files, a: seq<Job>, b: seq<Job>, r: Progress)
    requires Sound(Complete(fs, a), b, r)
    ensures Sound(fs, a + b, r)
  {
    DoneOfSecond(fs, a, b, |b|);
    if r.died {
      var n: nat, part :| n <= |b| && r.files == Stopped(Complete(fs, a), b, n, part);
      StoppedInSecond(fs, a, b, n, part);
    }
  }

  lemma OrderlyParts(a: seq<Job>, b: seq<Job>)
    requires Orderly(a + b)
    ensures Orderly(a) && Orderly(b)
  {
    var jobs := a + b;
    assert forall i | 0 <= i < |a| :: a[i] == jobs[i];
    assert forall i | 0 <= i < |b| :: b[i] == jobs[|a| + i];
  }

  lemma SourcesParts(fs: Files, a: seq<Job>, b: seq<Job>)
    requires Orderly(a + b) && SourcesKept(fs, fs, a + b)
    ensures SourcesKept(fs, fs, a) && SourcesKept(Complete(fs, a), Complete(fs, a), b)
  {
    var jobs := a + b;
    DoneOfFirst(fs, a, b, |a|);
    DoneKeepsSources(fs, jobs, |a|);
    assert forall i | 0 <= i < |a| :: a[i] == jobs[i];
    assert forall i | 0 <= i < |b| :: b[i] == jobs[|a| + i];
  }

  /** A walk can be trusted: without errors it returns none, and if it returns none it
      has done its jobs. */
  ghost predicate Honest(fs: Files, jobs: seq<Job>, w: Luck, r: Progress) {
    (NoErrors(w) ==> !r.failed) && (!r.failed ==> Sound(fs, jobs, r))
  }

  lemma {:induction false} PlanIsSound(fs: Files, cur: Files, src: Path, dst: Path, w: Luck, h: nat)
    requires Orderly(Jobs(fs, src, dst, h)) && SourcesKept(cur, cur, Jobs(fs, src, dst, h))
    ensures Honest(cur, Jobs(fs, src, dst, h), w, Perform(Progress(cur, false, false), Plan(fs, src, dst, w, h)))
    decreases h, 1
  {
    match w.enter(src)
    case DiesThere =>
      assert Stopped(cur, Jobs(fs, src, dst, h), 0, None) == cur;
      PerformOne(Progress(cur, false, false), Death);
    case Unreadable =>
      PerformOne(Progress(cur, false, false), Trouble);
    case Opened =>
      EntriesAreSound(fs, cur, src, dst, Listing(Names(fs, src)), w, h);
  }

  lemma PerformOne(r: Progress, a: Action)
    requires !r.died
    ensures Perform(r, [a]) == Act(r, a)
  {
    assert [a][..0] == [];
  }

  lemma {:induction false} FailedStays(r: Progress, plan: seq<Action>)
    requires r.failed
    ensures Perform(r, plan).failed
  {
    if plan != [] {
      FailedStays(r, plan[..|plan| - 1]);
    }
  }

  lemma {:induction false} EntriesAreSound(fs: Files, cur: Files, src: Path, dst: Path, names: seq<string>, w: Luck, h: nat)
    requires Orderly(JobsIn(fs, src, dst, names, h)) && SourcesKept(cur, cur, JobsIn(fs, src, dst, names, h))
    ensures Honest(cur, JobsIn(fs, src, dst, names, h), w, Perform(Progress(cur, false, false), PlanEntries(fs, src, dst, names, w, h)))
    decreases h, 0, |names|
  {
    if names != [] {
      var k := |names| - 1;
      var a, b := JobsIn(fs, src, dst, names[..k], h), JobsOf(fs, src, dst, names[k], h);
      var pa, pb := PlanEntries(fs, src, dst, names[..k], w, h), PlanEntry(fs, src, dst, names[k], w, h);
      var start := Progress(cur, false, false);
      OrderlyParts(a, b);
      SourcesParts(cur, a, b);
      EntriesAreSound(fs, cur, src, dst, names[..k], w, h);
      PerformConcat(start, pa, pb);
      if Perform(start, pa).failed {
        FailedStays(Perform(start, pa), pb);
      } else if Perform(start, pa).died {
        SoundFirst(cur, a, b, Perform(start, pa));
      } else {
        assert Perform(start, pa) == Progress(Complete(cur, a), false, false);
        EntryIsSound(fs, Complete(cur, a), src, dst, names[k], w, h);
        if !Perform(start, pa + pb).failed {
          SoundSecond(cur, a, b, Perform(start, pa + pb));
        }
      }
    }
  }

  lemma {:induction false} EntryIsSound(fs: Files, cur: Files, src: Path, dst: Path, name: string, w: Luck, h: nat)
    requires Orderly(JobsOf(fs, src, dst, name, h)) && SourcesKept(cur, cur, JobsOf(fs, src, dst, name, h))
    ensures Honest(cur, JobsOf(fs, src, dst, name, h), w, Perform(Progress(cur, false, false), PlanEntry(fs, src, dst, name, w, h)))
    decreases h, 0, 0
  {
    if src + [name] in fs {
      CopyIsSound(cur, JobsOf(fs, src, dst, name, h)[0], w);
    } else if h > 0 {
      PlanIsSound(fs, cur, src + [name], dst + [name], w, h - 1);
    }
  }

  lemma CopyIsSound(cur: Files, j: Job, w: Luck)
    requires j.to != [] && j.from in cur
    ensures Honest(cur, [j], w, Perform(Progress(cur, false, false), [Copy(j, w.copy(j.from))]))
  {
    var how := w.copy(j.from);
    var r := Act(Progress(cur, false, false), Copy(j, how));
    PerformOne(Progress(cur, false, false), Copy(j, how));
    assert Done(cur, [j], 0) == cur;
    assert Done(cur, [j], 1) == One(cur, j);
    if r.died {
      assert r.files == Stopped(cur, [j], 0, how.part);
    }
  }

  // -------------------------------------------------------------------------
  // What a walk depends on and what it leaves alone
  // -------------------------------------------------------------------------

  ghost predicate SameAt(a: Files, b: Files, p: Path) {
    (p in a <==> p in b) && (p in a ==> a[p] == b[p])
  }

  ghost predicate SameBelow(a: Files, b: Files, dir: Path) {
    forall p | Under(dir, p) :: SameAt(a, b, p)
  }

  lemma BelowBelow(dir: Path, name: string, p: Path)
    requires Under(dir + [name], p)
    ensures Under(dir, p) && p[|dir|] == name
  {
    assert p[..|dir|] == p[..|dir| + 1][..|dir|] == dir;
    assert p[|dir|] == p[..|dir| + 1][|dir|];
  }

  lemma SameNames(a: Files, b: Files, dir: Path)
    requires SameBelow(a, b, dir)
    ensures Names(a, dir) == Names(b, dir)
  {
    forall x | x in Names(a, dir) ensures x in Names(b, dir) {
      var p :| p in a.Keys && Under(dir, p) && p[|dir|] == x;
      assert SameAt(a, b, p);
    }
    forall x | x in Names(b, dir) ensures x in Names(a, dir) {
      var p :| p in b.Keys && Under(dir, p) && p[|dir|] == x;
      assert SameAt(a, b, p);
    }
  }

  /** The walk depends only on the source tree. */
  lemma {:induction false} WalkFrame(a: Files, b: Files, src: Path, dst: Path, w: Luck, h: nat)
    requires SameBelow(a, b, src)
    ensures Plan(a, src, dst, w, h) == Plan(b, src, dst, w, h) && Jobs(a, src, dst, h) == Jobs(b, src, dst, h)
    decreases h, 1
  {
    SameNames(a, b, src);
    EntriesFrame(a, b, src, dst, Listing(Names(a, src)), w, h);
  }

  lemma {:induction false} EntriesFrame(a: Files, b: Files, src: Path, dst: Path, names: seq<string>, w: Luck, h: nat)
    requires SameBelow(a, b, src)
    ensures PlanEntries(a, src, dst, names, w, h) == PlanEntries(b, src, dst, names, w, h)
    ensures JobsIn(a, src, dst, names, h) == JobsIn(b, src, dst, names, h)
    decreases h, 0, |names|
  {
    if names != [] {
      EntriesFrame(a, b, src, dst, names[..|names| - 1], w, h);
      EntryFrame(a, b, src, dst, names[|names| - 1], w, h);
    }
  }

  lemma {:induction false} EntryFrame(a: Files, b: Files, src: Path, dst: Path, name: string, w: Luck, h: nat)
    requires SameBelow(a, b, src)
    ensures PlanEntry(a, src, dst, name, w, h) == PlanEntry(b, src, dst, name, w, h)
    ensures JobsOf(a, src, dst, name, h) == JobsOf(b, src, dst, name, h)
    decreases h, 0, 0
  {
    assert Under(src, src + [name]);
    assert SameAt(a, b, src + [name]);
    if src + [name] !in a && h > 0 {
      forall p | Under(src + [name], p) ensures SameAt(a, b, p) {
        BelowBelow(src, name, p);
      }
      WalkFrame(a, b, src + [name], dst + [name], w, h - 1);
    }
  }

  /** Every copy of the plan goes below `dst`. */
  ghost predicate GoesBelow(plan: seq<Action>, dst: Path) {
    forall i | 0 <= i < |plan| && plan[i].Copy? :: Under(dst, plan[i].job.to)
  }

  lemma GoesBelowUp(plan: seq<Action>, dst: Path, name: string)
    requires GoesBelow(plan, dst + [name])
    ensures GoesBelow(plan, dst)
  {
    forall i | 0 <= i < |plan| && plan[i].Copy? ensures Under(dst, plan[i].job.to) {
      BelowBelow(dst, name, plan[i].job.to);
    }
  }

  lemma {:induction false} PlanGoesBelow(fs: Files, src: Path, dst: Path, w: Luck, h: nat)
    ensures GoesBelow(Plan(fs, src, dst, w, h), dst)
    decreases h, 1
  {
    EntriesGoBelow(fs, src, dst, Listing(Names(fs, src)), w, h);
  }

  lemma {:induction false} EntriesGoBelow(fs: Files, src: Path, dst: Path, names: seq<string>, w: Luck, h: nat)
    ensures GoesBelow(PlanEntries(fs, src, dst, names, w, h), dst)
    decreases h, 0, |names|
  {
    if names != [] {
      var k := |names| - 1;
      EntriesGoBelow(fs, src, dst, names[..k], w, h);
      if src + [names[k]] !in fs && h > 0 {
        PlanGoesBelow(fs, src + [names[k]], dst + [names[k]], w, h - 1);
        GoesBelowUp(Plan(fs, src + [names[k]], dst + [names[k]], w, h - 1), dst, names[k]);
      }
    }
  }

  lemma TmpBelow(dst: Path, p: Path)
    requires Under(dst, p)
    ensures Under(dst, Tmp(p))
  {
    assert Tmp(p)[..|dst|] == Tmp(p)[..|p| - 1][..|dst|] == p[..|p| - 1][..|dst|] == p[..|dst|];
  }

  lemma {:induction false} PerformOutside(r: Progress, plan: seq<Action>, dst: Path, p: Path)
    requires GoesBelow(plan, dst) && !Under(dst, p)
    ensures SameAt(r.files, Perform(r, plan).files, p)
  {
    if plan != [] {
      var n := |plan| - 1;
      PerformOutside(r, plan[..n], dst, p);
      if plan[n].Copy? {
        TmpBelow(dst, plan[n].job.to);
      }
    }
  }

  /** A walk changes nothing outside `dst`: the old tree stays as it is. */
  lemma WalkOutside(fs: Files, src: Path, dst: Path, w: Luck, h: nat, p: Path)
    requires !Under(dst, p)
    ensures SameAt(fs, Perform(Progress(fs, false, false), Plan(fs, src, dst, w, h)).files, p)
  {
    PlanGoesBelow(fs, src, dst, w, h);
    PerformOutside(Progress(fs, false, false), Plan(fs, src, dst, w, h), dst, p);
  }
}
