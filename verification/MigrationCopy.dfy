/**
 * Copying the files of a data folder (`copyFileWithProgress` and the existence
 * check of `moveTreeWithProgress`, backend/data_migration.go), as a list of jobs.
 *
 * A file is copied to `<target>.tmp`, which is then renamed to the target; a
 * target that exists is skipped. The launcher can die at any point, also in the
 * middle of writing the temporary file.
 */
module MigrationCopy {
  import opened Common

  type Path = seq<string>
  type Bytes = seq<bv8>
  type Files = map<Path, Bytes>

  /** The temporary name of a file: the last part of its path with `.tmp` behind it. */
  function Tmp(p: Path): (t: Path)
    requires p != []
    ensures |t| == |p| && t[..|p| - 1] == p[..|p| - 1] && t != p
  {
    var last := p[|p| - 1];
    assert |last + ".tmp"| == |last| + 4;
    p[..|p| - 1] + [last + ".tmp"]
  }

  lemma TmpInjective(p: Path, q: Path)
    requires p != [] && q != [] && Tmp(p) == Tmp(q)
    ensures p == q
  {
    var a, b := p[|p| - 1], q[|q| - 1];
    assert Tmp(p)[|p| - 1] == a + ".tmp" && Tmp(q)[|q| - 1] == b + ".tmp";
    assert (a + ".tmp")[..|a|] == a && (b + ".tmp")[..|b|] == b;
    assert p == p[..|p| - 1] + [a] && q == q[..|q| - 1] + [b];
  }

  datatype Job = Job(from: Path, to: Path)

  /** What happens to one copy: it works; it fails before the temporary file is
      created; it fails later and the temporary file is removed; the launcher dies,
      with nothing or with some part of the content in the temporary file. */
  datatype Event = Works | Early | Late | Dies(part: Option<Bytes>)

  /** What the walk does next: copy a file, meet a directory that cannot be read or
      created, or die between two files. */
  datatype Action = Copy(job: Job, how: Event) | Trouble | Death

  datatype Progress = Progress(files: Files, died: bool, failed: bool)

  /** One copy. */
  function CopyFile(fs: Files, j: Job, how: Event): Progress
    requires j.to != []
  {
    if j.from !in fs then Progress(fs, false, true)
    else match how
      case Works => Progress((fs - {Tmp(j.to)})[j.to := fs[j.from]], false, false)
      case Early => Progress(fs, false, true)
      case Late => Progress(fs - {Tmp(j.to)}, false, true)
      case Dies(None) => Progress(fs, true, false)
      case Dies(Some(part)) => Progress(fs[Tmp(j.to) := part], true, false)
  }

  /** One action: the first error is remembered and the walk goes on. */
  function Act(r: Progress, a: Action): Progress {
    match a
    case Death => r.(died := true)
    case Trouble => r.(failed := true)
    case Copy(j, how) =>
      if j.to == [] || j.to in r.files then r
      else
        var c := CopyFile(r.files, j, how);
        Progress(c.files, c.died, r.failed || c.failed)
  }

  /** All actions in order, until the launcher dies. */
  function Perform(r: Progress, plan: seq<Action>): Progress {
    if plan == [] then r
    else
      var before := Perform(r, plan[..|plan| - 1]);
      if before.died then before else Act(before, plan[|plan| - 1])
  }

  lemma {:induction false} PerformConcat(r: Progress, a: seq<Action>, b: seq<Action>)
    ensures Perform(r, a + b) == if Perform(r, a).died then Perform(r, a) else Perform(Perform(r, a), b)
  {
    if b == [] {
      assert a + b == a;
    } else {
      var n := |b| - 1;
      assert (a + b)[..|a + b| - 1] == a + b[..n];
      PerformConcat(r, a, b[..n]);
    }
  }

  // -------------------------------------------------------------------------
  // The copy when nothing goes wrong
  // -------------------------------------------------------------------------

  /** A job, done without trouble. */
  function One(fs: Files, j: Job): Files {
    if j.to == [] || j.to in fs || j.from !in fs then fs else (fs - {Tmp(j.to)})[j.to := fs[j.from]]
  }

  /** The first `n` jobs, done without trouble. */
  function Done(fs: Files, jobs: seq<Job>, n: nat): Files
    requires n <= |jobs|
  {
    if n == 0 then fs else One(Done(fs, jobs, n - 1), jobs[n - 1])
  }

  function Complete(fs: Files, jobs: seq<Job>): Files {
    Done(fs, jobs, |jobs|)
  }

  /** A launcher that died with `n` jobs done, perhaps with a part of the next file
      in its temporary file. */
  function Stopped(fs: Files, jobs: seq<Job>, n: nat, part: Option<Bytes>): Files
    requires n <= |jobs|
  {
    var now := Done(fs, jobs, n);
    if part.Some? && n < |jobs| && jobs[n].to != [] && jobs[n].to !in now then now[Tmp(jobs[n].to) := part.value] else now
  }

  /** Temporary names come behind the names they belong to, targets are distinct, and
      no source is a target or a temporary file. */
  ghost predicate Orderly(jobs: seq<Job>) {
    && (forall i | 0 <= i < |jobs| :: jobs[i].to != [])
    && (forall i, j | 0 <= i < j < |jobs| :: jobs[i].to != jobs[j].to && Tmp(jobs[j].to) != jobs[i].to)
    && (forall i, j | 0 <= i < |jobs| && 0 <= j < |jobs| ::
          jobs[i].from != jobs[j].to && jobs[i].from != Tmp(jobs[j].to))
  }

  /** The sources are there, with the content they have in `fs0`. */
  ghost predicate SourcesKept(fs0: Files, fs: Files, jobs: seq<Job>) {
    forall i | 0 <= i < |jobs| :: jobs[i].from in fs0 && jobs[i].from in fs && fs[jobs[i].from] == fs0[jobs[i].from]
  }

  /** A file that the jobs from `m` to `n` neither write nor use as temporary name. */
  lemma {:induction false} DoneKeeps(fs: Files, jobs: seq<Job>, m: nat, n: nat, p: Path)
    requires m <= n <= |jobs| && p in Done(fs, jobs, m)
    requires forall k | m <= k < n :: jobs[k].to != [] && jobs[k].to != p && Tmp(jobs[k].to) != p
    ensures p in Done(fs, jobs, n) && Done(fs, jobs, n)[p] == Done(fs, jobs, m)[p]
  {
    if m < n {
      DoneKeeps(fs, jobs, m, n - 1, p);
    }
  }

  lemma DoneKeepsSources(fs: Files, jobs: seq<Job>, n: nat)
    requires Orderly(jobs) && SourcesKept(fs, fs, jobs) && n <= |jobs|
    ensures SourcesKept(fs, Done(fs, jobs, n), jobs)
  {
    forall i | 0 <= i < |jobs|
      ensures jobs[i].from in Done(fs, jobs, n) && Done(fs, jobs, n)[jobs[i].from] == fs[jobs[i].from]
    {
      DoneKeeps(fs, jobs, 0, n, jobs[i].from);
    }
  }

  /** A target keeps what it had when its turn came, or got the content of its source. */
  lemma TargetStays(fs: Files, jobs: seq<Job>, i: nat, n: nat)
    requires Orderly(jobs) && SourcesKept(fs, fs, jobs) && i < n <= |jobs|
    ensures var out := Done(fs, jobs, n);
            jobs[i].to in out
            && out[jobs[i].to] == if Copies(fs, jobs, i) then fs[jobs[i].from] else Done(fs, jobs, i)[jobs[i].to]
  {
    SourceStays(fs, jobs, i);
    OneTarget(fs, jobs, i);
    LaterJobsKeep(fs, jobs, i, n);
  }

  lemma SourceStays(fs: Files, jobs: seq<Job>, i: nat)
    requires Orderly(jobs) && SourcesKept(fs, fs, jobs) && i < |jobs|
    ensures jobs[i].from in Done(fs, jobs, i) && Done(fs, jobs, i)[jobs[i].from] == fs[jobs[i].from]
  {
    DoneKeeps(fs, jobs, 0, i, jobs[i].from);
  }

  lemma LaterJobsKeep(fs: Files, jobs: seq<Job>, i: nat, n: nat)
    requires Orderly(jobs) && i < n <= |jobs| && jobs[i].to in Done(fs, jobs, i + 1)
    ensures jobs[i].to in Done(fs, jobs, n) && Done(fs, jobs, n)[jobs[i].to] == Done(fs, jobs, i + 1)[jobs[i].to]
  {
    DoneKeeps(fs, jobs, i + 1, n, jobs[i].to);
  }

  lemma OneTarget(fs: Files, jobs: seq<Job>, i: nat)
    requires i < |jobs| && jobs[i].to != [] && jobs[i].from in Done(fs, jobs, i)
    ensures var now, t := Done(fs, jobs, i), jobs[i].to;
            t in Done(fs, jobs, i + 1) && Done(fs, jobs, i + 1)[t] == if t in now then now[t] else now[jobs[i].from]
  {
  }

  /** The target of job `k` is not there when its turn comes. */
  predicate Copies(fs: Files, jobs: seq<Job>, k: nat)
    requires k < |jobs|
  {
    jobs[k].to !in Done(fs, jobs, k)
  }

  /** Where the first `n` targets are there, nothing is left to do for them. */
  lemma {:induction false} NothingToDo(fs: Files, jobs: seq<Job>, n: nat)
    requires n <= |jobs| && forall i | 0 <= i < n :: jobs[i].to in fs
    ensures Done(fs, jobs, n) == fs
  {
    if n > 0 {
      NothingToDo(fs, jobs, n - 1);
    }
  }

  /** Two disks from which one more job makes no difference stay the same. */
  lemma {:induction false} SameFromHere(a: Files, b: Files, jobs: seq<Job>, m: nat, n: nat)
    requires m <= n <= |jobs| && Done(a, jobs, m) == Done(b, jobs, m)
    ensures Done(a, jobs, n) == Done(b, jobs, n)
  {
    if m < n {
      SameFromHere(a, b, jobs, m, n - 1);
    }
  }

  // -------------------------------------------------------------------------
  // Crashes leave no trace
  // -------------------------------------------------------------------------

  lemma StoppedKeepsSources(fs: Files, jobs: seq<Job>, n: nat, part: Option<Bytes>)
    requires Orderly(jobs) && SourcesKept(fs, fs, jobs) && n <= |jobs|
    ensures SourcesKept(fs, Stopped(fs, jobs, n, part), jobs)
  {
    DoneKeepsSources(fs, jobs, n);
  }

  /** The disks `a` and `b` agree but for the target and the temporary name of `j`,
      and where the target is there, it holds `content` and the temporary file is gone. */
  ghost predicate Near(a: Files, b: Files, j: Job, content: Bytes)
    requires j.to != []
  {
    && a - {j.to, Tmp(j.to)} == b - {j.to, Tmp(j.to)}
    && TriedOn(a, j, content) && TriedOn(b, j, content)
  }

  ghost predicate TriedOn(a: Files, j: Job, content: Bytes)
    requires j.to != []
  {
    j.to in a ==> a[j.to] == content && Tmp(j.to) !in a
  }

  lemma OneKeepsTried(a: Files, j: Job, e: Job, content: Bytes)
    requires e.to != [] && TriedOn(a, e, content) && j.to != [] && j.to != e.to && j.to != Tmp(e.to)
    ensures TriedOn(One(a, j), e, content)
  {
  }

  lemma OneKeepsNear(a: Files, b: Files, j: Job, e: Job, content: Bytes)
    requires j.to != [] && e.to != [] && Near(a, b, e, content)
    requires j.to != e.to && j.to != Tmp(e.to) && j.from != e.to && j.from != Tmp(e.to)
    ensures Near(One(a, j), One(b, j), e, content)
  {
    OneKeepsTried(a, j, e, content);
    OneKeepsTried(b, j, e, content);
    var gone := {e.to, Tmp(e.to)};
    assert j.to in a <==> j.to in a - gone;
    assert j.to in b <==> j.to in b - gone;
    assert j.from in a <==> j.from in a - gone;
    assert j.from in b <==> j.from in b - gone;
    OneLess(a, j, gone);
    OneLess(b, j, gone);
  }

  /** Paths a job has nothing to do with can be left out. */
  lemma OneLess(a: Files, j: Job, gone: set<Path>)
    requires j.to != [] && j.to !in gone && j.from !in gone
    ensures One(a, j) - gone == One(a - gone, j) - gone
  {
  }

  /** The turn of the job itself makes them equal. */
  lemma OneJoins(a: Files, b: Files, e: Job, content: Bytes)
    requires e.to != [] && Near(a, b, e, content)
    requires e.from != e.to && e.from != Tmp(e.to) && e.from in a && e.from in b && a[e.from] == b[e.from] == content
    ensures One(a, e) == One(b, e)
  {
    OneEnds(a, e, content);
    OneEnds(b, e, content);
  }

  lemma OneEnds(a: Files, e: Job, content: Bytes)
    requires e.to != [] && TriedOn(a, e, content) && e.from in a && a[e.from] == content
    ensures One(a, e) == (a - {e.to, Tmp(e.to)})[e.to := content]
  {
  }

  lemma {:induction false} NearUntil(a: Files, b: Files, jobs: seq<Job>, k: nat, n: nat, content: Bytes)
    requires Orderly(jobs) && n <= k < |jobs| && Near(a, b, jobs[k], content)
    ensures Near(Done(a, jobs, n), Done(b, jobs, n), jobs[k], content)
  {
    if n > 0 {
      NearUntil(a, b, jobs, k, n - 1, content);
      OneKeepsNear(Done(a, jobs, n - 1), Done(b, jobs, n - 1), jobs[n - 1], jobs[k], content);
    }
  }

  /** Two disks that differ only in how far one copy has got come to the same end. */
  lemma NearEndsEqual(a: Files, b: Files, jobs: seq<Job>, k: nat)
    requires Orderly(jobs) && SourcesKept(a, a, jobs) && SourcesKept(a, b, jobs) && k < |jobs|
    requires Near(a, b, jobs[k], a[jobs[k].from])
    ensures Complete(a, jobs) == Complete(b, jobs)
  {
    SourceStays(a, jobs, k);
    assert SourcesKept(b, b, jobs);
    SourceStays(b, jobs, k);
    NearUntil(a, b, jobs, k, k, a[jobs[k].from]);
    OneJoins(Done(a, jobs, k), Done(b, jobs, k), jobs[k], a[jobs[k].from]);
    SameFromHere(a, b, jobs, k + 1, |jobs|);
  }

  /** Trying any one of the jobs at any time, with any outcome, changes nothing about
      what a complete walk leaves in the end: what was copied is what the walk would
      have copied, and a half-written temporary file is written anew before anything
      takes it for a file of its own name, also where user files are called `x` and
      `x.tmp`. */
  lemma TryLeavesNoTrace(fs: Files, jobs: seq<Job>, k: nat, how: Event)
    requires Orderly(jobs) && SourcesKept(fs, fs, jobs) && k < |jobs| && jobs[k].to !in fs
    ensures SourcesKept(fs, CopyFile(fs, jobs[k], how).files, jobs)
    ensures Complete(CopyFile(fs, jobs[k], how).files, jobs) == Complete(fs, jobs)
  {
    var j, after := jobs[k], CopyFile(fs, jobs[k], how).files;
    assert forall i | 0 <= i < |jobs| :: jobs[i].from != j.to && jobs[i].from != Tmp(j.to);
    assert fs - {j.to, Tmp(j.to)} == after - {j.to, Tmp(j.to)};
    NearEndsEqual(fs, after, jobs, k);
  }

  ghost predicate SameEnd(a: Files, b: Files, jobs: seq<Job>) {
    Complete(a, jobs) == Complete(b, jobs)
  }

  lemma DoneLeavesNoTrace(fs: Files, jobs: seq<Job>, n: nat)
    requires Orderly(jobs) && SourcesKept(fs, fs, jobs) && n <= |jobs|
    ensures SameEnd(Done(fs, jobs, n), fs, jobs)
  {
    var now := Done(fs, jobs, n);
    forall i | 0 <= i < n ensures jobs[i].to in now {
      TargetStays(fs, jobs, i, n);
    }
    NothingToDo(now, jobs, n);
    SameFromHere(now, fs, jobs, n, |jobs|);
  }

  /** A walk that starts over after a crash ends with exactly the files that a walk
      without the crash ends with. */
  lemma CrashLeavesNoTrace(fs: Files, jobs: seq<Job>, n: nat, part: Option<Bytes>)
    requires Orderly(jobs) && SourcesKept(fs, fs, jobs) && n <= |jobs|
    ensures Complete(Stopped(fs, jobs, n, part), jobs) == Complete(fs, jobs)
  {
    DoneLeavesNoTrace(fs, jobs, n);
    DoneKeepsSources(fs, jobs, n);
    if n < |jobs| && Copies(fs, jobs, n) {
      TryLeavesNoTrace(Done(fs, jobs, n), jobs, n, Dies(part));
    }
  }

  lemma ActLeavesNoTrace(fs: Files, r: Progress, a: Action, jobs: seq<Job>)
    requires Orderly(jobs) && SourcesKept(fs, r.files, jobs) && SameEnd(r.files, fs, jobs)
    requires a.Copy? ==> a.job in jobs
    ensures SourcesKept(fs, Act(r, a).files, jobs) && SameEnd(Act(r, a).files, fs, jobs)
  {
    if a.Copy? && a.job.to !in r.files {
      var k :| 0 <= k < |jobs| && jobs[k] == a.job;
      TryLeavesNoTrace(r.files, jobs, k, a.how);
    }
  }

  ghost predicate Among(plan: seq<Action>, jobs: seq<Job>) {
    forall a | a in plan && a.Copy? :: a.job in jobs
  }

  /** Whatever a walk meets, crashes and errors alike: what is missing afterwards can
      be copied to the end that an undisturbed walk comes to. */
  lemma {:induction false} PlanLeavesNoTrace(fs: Files, plan: seq<Action>, jobs: seq<Job>)
    requires Orderly(jobs) && SourcesKept(fs, fs, jobs) && Among(plan, jobs)
    ensures var out := Perform(Progress(fs, false, false), plan).files;
            SourcesKept(fs, out, jobs) && SameEnd(out, fs, jobs)
  {
    if plan != [] {
      var n := |plan| - 1;
      assert forall a | a in plan[..n] :: a in plan;
      PlanLeavesNoTrace(fs, plan[..n], jobs);
      ActLeavesNoTrace(fs, Perform(Progress(fs, false, false), plan[..n]), plan[n], jobs);
    }
  }

  /** One crash: how many jobs were done, and what was in the temporary file. */
  datatype Crash = Crash(jobsDone: nat, part: Option<Bytes>)

  /** The files after crashed walks, each of which started over from the first job. */
  function AfterCrashes(fs: Files, jobs: seq<Job>, cs: seq<Crash>): Files
    requires forall i | 0 <= i < |cs| :: cs[i].jobsDone <= |jobs|
  {
    if cs == [] then fs
    else
      var n := |cs| - 1;
      Stopped(AfterCrashes(fs, jobs, cs[..n]), jobs, cs[n].jobsDone, cs[n].part)
  }

  /** Any number of crashes, at any points: no source changes, and a walk that comes
      through leaves exactly the files of a walk that never crashed. */
  lemma {:induction false} CrashesLeaveNoTrace(fs: Files, jobs: seq<Job>, cs: seq<Crash>)
    requires Orderly(jobs) && SourcesKept(fs, fs, jobs)
    requires forall i | 0 <= i < |cs| :: cs[i].jobsDone <= |jobs|
    ensures SourcesKept(fs, AfterCrashes(fs, jobs, cs), jobs)
    ensures Complete(AfterCrashes(fs, jobs, cs), jobs) == Complete(fs, jobs)
  {
    if cs != [] {
      var n := |cs| - 1;
      var before := AfterCrashes(fs, jobs, cs[..n]);
      CrashesLeaveNoTrace(fs, jobs, cs[..n]);
      StoppedKeepsSources(before, jobs, cs[n].jobsDone, cs[n].part);
      CrashLeavesNoTrace(before, jobs, cs[n].jobsDone, cs[n].part);
    }
  }

  // -------------------------------------------------------------------------
  // What the new tree holds in the end
  // -------------------------------------------------------------------------

  /** `p` was used as the temporary name of one of the first `n` files copied. */
  ghost predicate Displaced(fs: Files, jobs: seq<Job>, n: nat, p: Path)
    requires n <= |jobs| && forall i | 0 <= i < |jobs| :: jobs[i].to != []
  {
    exists k :: 0 <= k < n && Copies(fs, jobs, k) && Tmp(jobs[k].to) == p
  }

  ghost predicate IsTarget(jobs: seq<Job>, n: nat, p: Path)
    requires n <= |jobs|
  {
    exists i :: 0 <= i < n && jobs[i].to == p
  }

  lemma OneElsewhere(fs: Files, j: Job, p: Path)
    requires j.to != [] && p != j.to && j.from in fs
    ensures p in One(fs, j) <==> p in fs && !(j.to !in fs && Tmp(j.to) == p)
    ensures p in One(fs, j) ==> One(fs, j)[p] == fs[p]
  {
  }

  /** `p` is as it was, unless it was used as a temporary name. */
  ghost predicate OnlyDisplaced(fs: Files, jobs: seq<Job>, n: nat, p: Path)
    requires n <= |jobs| && forall i | 0 <= i < |jobs| :: jobs[i].to != []
  {
    && (p in Done(fs, jobs, n) <==> p in fs && !Displaced(fs, jobs, n, p))
    && (p in Done(fs, jobs, n) ==> Done(fs, jobs, n)[p] == fs[p])
  }

  lemma DisplacedSnoc(fs: Files, jobs: seq<Job>, n: nat, p: Path)
    requires 0 < n <= |jobs| && forall i | 0 <= i < |jobs| :: jobs[i].to != []
    ensures Displaced(fs, jobs, n, p) <==> Displaced(fs, jobs, n - 1, p) || (Copies(fs, jobs, n - 1) && Tmp(jobs[n - 1].to) == p)
  {
  }

  lemma OneMoreElsewhere(fs: Files, jobs: seq<Job>, n: nat, p: Path)
    requires 0 < n <= |jobs| && forall i | 0 <= i < |jobs| :: jobs[i].to != []
    requires jobs[n - 1].to != p && jobs[n - 1].from in Done(fs, jobs, n - 1)
    requires OnlyDisplaced(fs, jobs, n - 1, p)
    ensures OnlyDisplaced(fs, jobs, n, p)
  {
    DisplacedSnoc(fs, jobs, n, p);
    OneElsewhere(Done(fs, jobs, n - 1), jobs[n - 1], p);
  }

  lemma {:induction false} OthersOnlyDisplaced(fs: Files, jobs: seq<Job>, n: nat, p: Path)
    requires Orderly(jobs) && SourcesKept(fs, fs, jobs) && n <= |jobs| && !IsTarget(jobs, n, p)
    ensures OnlyDisplaced(fs, jobs, n, p)
  {
    if n > 0 {
      assert !IsTarget(jobs, n - 1, p);
      OthersOnlyDisplaced(fs, jobs, n - 1, p);
      SourceStays(fs, jobs, n - 1);
      OneMoreElsewhere(fs, jobs, n, p);
    }
  }

  /** Everything else in the new tree is left alone, but for files that happen to have
      the temporary name of a file that is copied. */
  lemma OthersStay(fs: Files, jobs: seq<Job>, n: nat, p: Path)
    requires Orderly(jobs) && SourcesKept(fs, fs, jobs) && n <= |jobs| && !IsTarget(jobs, n, p)
    ensures p in Done(fs, jobs, n) <==> p in fs && !Displaced(fs, jobs, n, p)
    ensures p in Done(fs, jobs, n) ==> Done(fs, jobs, n)[p] == fs[p]
  {
    OthersOnlyDisplaced(fs, jobs, n, p);
  }

  /** The temporary name of the temporary name, and so on, of `p`. */
  function TmpOf(p: Path, n: nat): (t: Path)
    requires p != []
    ensures t != []
  {
    if n == 0 then p else Tmp(TmpOf(p, n - 1))
  }

  /** `p` is the temporary name, at some remove, of a target that is missing, and all
      between them are targets. */
  ghost predicate Stale(fs: Files, jobs: seq<Job>, p: Path)
    requires forall i | 0 <= i < |jobs| :: jobs[i].to != []
  {
    exists m: nat, n: nat :: StaleBy(fs, jobs, p, m, n)
  }

  ghost predicate StaleBy(fs: Files, jobs: seq<Job>, p: Path, m: nat, n: nat)
    requires forall i | 0 <= i < |jobs| :: jobs[i].to != []
  {
    && m < |jobs| && n > 0 && jobs[m].to !in fs && TmpOf(jobs[m].to, n) == p
    && forall l | 0 <= l < n :: IsTarget(jobs, |jobs|, TmpOf(jobs[m].to, l))
  }

  lemma StaleByNext(fs: Files, jobs: seq<Job>, k: nat, p: Path, m: nat, n: nat)
    requires (forall i | 0 <= i < |jobs| :: jobs[i].to != []) && k < |jobs| && Tmp(jobs[k].to) == p
    requires StaleBy(fs, jobs, jobs[k].to, m, n)
    ensures StaleBy(fs, jobs, p, m, n + 1)
  {
    assert IsTarget(jobs, |jobs|, TmpOf(jobs[m].to, n));
  }

  lemma StaleNext(fs: Files, jobs: seq<Job>, k: nat, p: Path)
    requires (forall i | 0 <= i < |jobs| :: jobs[i].to != []) && k < |jobs| && Tmp(jobs[k].to) == p
    requires jobs[k].to !in fs || Stale(fs, jobs, jobs[k].to)
    ensures Stale(fs, jobs, p)
  {
    if jobs[k].to !in fs {
      assert TmpOf(jobs[k].to, 0) == jobs[k].to;
      assert StaleBy(fs, jobs, p, k, 1);
    } else {
      var m: nat, n: nat :| StaleBy(fs, jobs, jobs[k].to, m, n);
      StaleByNext(fs, jobs, k, p, m, n);
    }
  }

  /** A walk overwrites a file it finds only when that file is stale. */
  lemma {:induction false} DisplacedIsStale(fs: Files, jobs: seq<Job>, i: nat, p: Path)
    requires Orderly(jobs) && SourcesKept(fs, fs, jobs) && i <= |jobs| && Displaced(fs, jobs, i, p)
    ensures Stale(fs, jobs, p)
    decreases i
  {
    var k :| 0 <= k < i && Copies(fs, jobs, k) && Tmp(jobs[k].to) == p;
    assert !IsTarget(jobs, k, jobs[k].to);
    OthersStay(fs, jobs, k, jobs[k].to);
    if jobs[k].to in fs {
      DisplacedIsStale(fs, jobs, k, jobs[k].to);
    }
    StaleNext(fs, jobs, k, p);
  }

  /** The complete copy: every user file is in the new tree, with its old content, or
      with the content the new tree had under its name before the migration. */
  lemma EveryFileArrives(fs: Files, jobs: seq<Job>, i: nat)
    requires Orderly(jobs) && SourcesKept(fs, fs, jobs) && i < |jobs|
    ensures var out := Complete(fs, jobs);
            && jobs[i].from in out && out[jobs[i].from] == fs[jobs[i].from]
            && jobs[i].to in out
            && (if Copies(fs, jobs, i) then out[jobs[i].to] == fs[jobs[i].from]
                else jobs[i].to in fs && out[jobs[i].to] == fs[jobs[i].to])
  {
    DoneKeepsSources(fs, jobs, |jobs|);
    TargetStays(fs, jobs, i, |jobs|);
    OthersStay(fs, jobs, i, jobs[i].to);
  }

  /** At every moment of a walk, a crash in the middle of a file included: what is
      there under the name of a user file is that file, or was there before, or is
      the temporary file that is just being written. */
  lemma EveryMomentIsGenuine(fs: Files, jobs: seq<Job>, n: nat, part: Option<Bytes>, i: nat)
    requires Orderly(jobs) && SourcesKept(fs, fs, jobs) && n <= |jobs| && i < |jobs|
    requires jobs[i].to in Stopped(fs, jobs, n, part)
    ensures var now := Stopped(fs, jobs, n, part)[jobs[i].to];
            || now == fs[jobs[i].from]
            || (jobs[i].to in fs && now == fs[jobs[i].to])
            || (part == Some(now) && n < i && jobs[i].to == Tmp(jobs[n].to) && jobs[n].to !in Stopped(fs, jobs, n, part))
  {
    if i < n {
      TargetStays(fs, jobs, i, n);
      OthersStay(fs, jobs, i, jobs[i].to);
    } else {
      OthersStay(fs, jobs, n, jobs[i].to);
    }
  }

  // -------------------------------------------------------------------------
  // A half-written file in the next walk
  // -------------------------------------------------------------------------

  /** The walk gets as far as writing the temporary file of the target `x`. */
  ghost predicate Writes(plan: seq<Action>, x: Path) {
    exists i :: 0 <= i < |plan| && plan[i].Copy? && plan[i].job.to == x && plan[i].how != Early
  }

  lemma WritesSnoc(plan: seq<Action>, x: Path)
    requires plan != []
    ensures var n := |plan| - 1;
            Writes(plan, x) <==> Writes(plan[..n], x) || (plan[n].Copy? && plan[n].job.to == x && plan[n].how != Early)
  {
    var n := |plan| - 1;
    if Writes(plan[..n], x) {
      var i :| 0 <= i < n && plan[..n][i].Copy? && plan[..n][i].job.to == x && plan[..n][i].how != Early;
      assert plan[i] == plan[..n][i];
    }
    if i :| 0 <= i < |plan| && plan[i].Copy? && plan[i].job.to == x && plan[i].how != Early {
      assert i < n ==> plan[..n][i] == plan[i];
    }
  }

  predicate Deathless(plan: seq<Action>) {
    forall i | 0 <= i < |plan| :: plan[i] != Death && (plan[i].Copy? ==> !plan[i].how.Dies?)
  }

  ghost predicate Avoids(plan: seq<Action>, p: Path) {
    forall i | 0 <= i < |plan| && plan[i].Copy? :: plan[i].job.to != [] && plan[i].job.to != p && Tmp(plan[i].job.to) != p
  }

  lemma AvoidsFirst(plan: seq<Action>, p: Path)
    requires plan != [] && Avoids(plan, p)
    ensures Avoids(plan[..|plan| - 1], p)
  {
    assert forall i | 0 <= i < |plan| - 1 :: plan[..|plan| - 1][i] == plan[i];
  }

  lemma ActAvoids(r: Progress, a: Action, p: Path)
    requires a.Copy? ==> a.job.to != [] && a.job.to != p && Tmp(a.job.to) != p
    ensures p in r.files ==> p in Act(r, a).files && Act(r, a).files[p] == r.files[p]
  {
  }

  lemma {:induction false} PlanKeepsSource(r: Progress, plan: seq<Action>, p: Path)
    requires Avoids(plan, p)
    ensures p in r.files ==> p in Perform(r, plan).files && Perform(r, plan).files[p] == r.files[p]
  {
    if plan != [] {
      AvoidsFirst(plan, p);
      PlanKeepsSource(r, plan[..|plan| - 1], p);
      ActAvoids(Perform(r, plan[..|plan| - 1]), plan[|plan| - 1], p);
    }
  }

  /** `a` may come before `b`: other targets, and `a` is not the temporary name of `b`. */
  predicate Before(a: Job, b: Job) {
    b.to != [] && a.to != b.to && Tmp(b.to) != a.to
  }

  predicate InOrder(plan: seq<Action>) {
    forall i, k | 0 <= i < k < |plan| && plan[i].Copy? && plan[k].Copy? :: Before(plan[i].job, plan[k].job)
  }

  lemma NotYetWritten(plan: seq<Action>, y: Path)
    requires plan != [] && InOrder(plan) && plan[|plan| - 1].Copy? && Writes(plan[..|plan| - 1], y)
    ensures var j := plan[|plan| - 1].job; j.to != [] && j.to != y && Tmp(j.to) != y
  {
    var n := |plan| - 1;
    var i :| 0 <= i < n && plan[..n][i].Copy? && plan[..n][i].job.to == y && plan[..n][i].how != Early;
    assert plan[i] == plan[..n][i];
    assert Before(plan[i].job, plan[n].job);
  }

  lemma {:induction false} TmpOfLength(p: Path, n: nat)
    requires p != []
    ensures |TmpOf(p, n)| == |p| && |TmpOf(p, n)[|p| - 1]| == |p[|p| - 1]| + 4 * n
    ensures TmpOf(p, n)[..|p| - 1] == p[..|p| - 1]
  {
    if n > 0 {
      TmpOfLength(p, n - 1);
      var t := TmpOf(p, n - 1);
      assert Tmp(t)[|t| - 1] == t[|t| - 1] + ".tmp";
    }
  }

  lemma TmpOfDiffer(p: Path, m: nat, n: nat)
    requires p != [] && m != n
    ensures TmpOf(p, m) != TmpOf(p, n)
  {
    TmpOfLength(p, m);
    TmpOfLength(p, n);
  }

  lemma TmpOfNext(p: Path, n: nat)
    requires p != []
    ensures TmpOf(p, n + 1) == Tmp(TmpOf(p, n))
  {
  }

  /** The walk writes the temporary files of the first `l` names of the chain from `x` on. */
  ghost predicate Written(plan: seq<Action>, x: Path, l: nat)
    requires x != []
  {
    forall m | 0 <= m < l :: WritesAt(plan, x, m)
  }

  ghost predicate WritesAt(plan: seq<Action>, x: Path, m: nat)
    requires x != []
  {
    Writes(plan, TmpOf(x, m))
  }

  predicate WritesNow(a: Action, x: Path) {
    a.Copy? && a.job.to == x && a.how != Early
  }

  lemma WritesAtSnoc(plan: seq<Action>, x: Path, m: nat)
    requires plan != [] && x != []
    ensures WritesAt(plan, x, m) <==> WritesAt(plan[..|plan| - 1], x, m) || WritesNow(plan[|plan| - 1], TmpOf(x, m))
  {
    WritesSnoc(plan, TmpOf(x, m));
  }

  /** When a name of the chain is written, neither it nor the next one was before. */
  lemma NextNotYet(plan: seq<Action>, x: Path, m: nat)
    requires plan != [] && InOrder(plan) && x != [] && WritesNow(plan[|plan| - 1], TmpOf(x, m))
    ensures !WritesAt(plan[..|plan| - 1], x, m) && !WritesAt(plan, x, m + 1)
  {
    var n := |plan| - 1;
    if WritesAt(plan[..n], x, m) {
      NotYetWritten(plan, TmpOf(x, m));
    }
    WritesAtSnoc(plan, x, m + 1);
    TmpOfDiffer(x, m, m + 1);
    if WritesAt(plan[..n], x, m + 1) {
      NotYetWritten(plan, TmpOf(x, m + 1));
    }
  }

  lemma NewlyWritten(plan: seq<Action>, y: Path)
    requires plan != [] && Writes(plan, y) && !Writes(plan[..|plan| - 1], y)
    ensures WritesNow(plan[|plan| - 1], y)
  {
    WritesSnoc(plan, y);
  }

  lemma FirstUnwritten(plan: seq<Action>, x: Path, l: nat) returns (m: nat)
    requires x != [] && !Written(plan, x, l)
    ensures m < l && !WritesAt(plan, x, m)
  {
    m :| m < l && !WritesAt(plan, x, m);
  }

  /** If the last action makes the first `l` all written, it writes the last of them,
      and what comes next in the chain has not had its turn. */
  lemma WrittenNow(plan: seq<Action>, x: Path, l: nat)
    requires plan != [] && InOrder(plan) && x != []
    requires Written(plan, x, l) && !Written(plan[..|plan| - 1], x, l)
    ensures l > 0 && WritesNow(plan[|plan| - 1], TmpOf(x, l - 1))
    ensures Written(plan[..|plan| - 1], x, l - 1)
    ensures !WritesAt(plan[..|plan| - 1], x, l - 1) && !WritesAt(plan, x, l)
  {
    var m := JustWritten(plan, x, l);
    NextNotYet(plan, x, m);
    MustBeLast(plan, x, m, l);
    OthersWrittenBefore(plan, x, m, l);
  }

  lemma JustWritten(plan: seq<Action>, x: Path, l: nat) returns (m: nat)
    requires plan != [] && x != [] && Written(plan, x, l) && !Written(plan[..|plan| - 1], x, l)
    ensures m < l && WritesNow(plan[|plan| - 1], TmpOf(x, m))
  {
    m := FirstUnwritten(plan[..|plan| - 1], x, l);
    assert WritesAt(plan, x, m);
    NewlyWritten(plan, TmpOf(x, m));
  }

  lemma MustBeLast(plan: seq<Action>, x: Path, m: nat, l: nat)
    requires x != [] && m < l && Written(plan, x, l) && !WritesAt(plan, x, m + 1)
    ensures m + 1 == l
  {
  }

  lemma OthersWrittenBefore(plan: seq<Action>, x: Path, m: nat, l: nat)
    requires plan != [] && x != [] && m + 1 == l && Written(plan, x, l) && WritesNow(plan[|plan| - 1], TmpOf(x, m))
    ensures Written(plan[..|plan| - 1], x, m)
  {
    var first := plan[..|plan| - 1];
    forall k | 0 <= k < m ensures WritesAt(first, x, k) {
      TmpOfDiffer(x, k, m);
      WritesAtSnoc(plan, x, k);
    }
  }

  lemma WrittenBefore(plan: seq<Action>, x: Path, l: nat)
    requires plan != [] && x != [] && Written(plan[..|plan| - 1], x, l)
    ensures Written(plan, x, l)
  {
    forall m | 0 <= m < l ensures WritesAt(plan, x, m) {
      WritesAtSnoc(plan, x, m);
    }
  }

  /** The `l`-th name of the chain: as long as not all before it are written, its file is
      as it was; from then until its own turn it is missing. */
  ghost predicate Link(fs: Files, now: Files, plan: seq<Action>, x: Path, l: nat)
    requires x != []
  {
    var y := TmpOf(x, l);
    && (Written(plan, x, l) && !WritesAt(plan, x, l) ==> y !in now)
    && (!Written(plan, x, l) ==> y in fs && y in now && now[y] == fs[y])
  }

  /** What one action does to the file `y`. */
  lemma ActOn(r: Progress, a: Action, y: Path)
    requires y != [] && a != Death && (a.Copy? ==> !a.how.Dies? && a.job.to != [] && a.job.from in r.files)
    ensures var now := Act(r, a).files;
            && (a.Copy? && a.job.to == y && y !in r.files && a.how == Works ==> y in now && now[y] == r.files[a.job.from])
            && (a.Copy? && a.job.to !in r.files && a.how != Early && Tmp(a.job.to) == y ==> y !in now)
            && (!(a.Copy? && a.job.to !in r.files && a.how != Early && (a.job.to == y || Tmp(a.job.to) == y)) ==>
                  (y in now <==> y in r.files) && (y in now ==> now[y] == r.files[y]))
            && (y !in r.files && !(a.Copy? && a.job.to == y && a.how == Works) ==> y !in now)
            && (Act(r, a).died ==> r.died)
  {
  }

  lemma LinkStep(fs: Files, r: Progress, plan: seq<Action>, x: Path, l: nat)
    requires plan != [] && InOrder(plan) && x != []
    requires var a := plan[|plan| - 1];
             a != Death && (a.Copy? ==> !a.how.Dies? && a.job.to != [] && a.job.from in r.files)
    requires Link(fs, r.files, plan[..|plan| - 1], x, l) && (l > 0 ==> Link(fs, r.files, plan[..|plan| - 1], x, l - 1))
    ensures Link(fs, Act(r, plan[|plan| - 1]).files, plan, x, l)
  {
    var n := |plan| - 1;
    var y := TmpOf(x, l);
    ActOn(r, plan[n], y);
    WritesAtSnoc(plan, x, l);
    if Written(plan[..n], x, l) {
      WrittenBefore(plan, x, l);
    } else if Written(plan, x, l) {
      WrittenNow(plan, x, l);
    } else {
      NotTouched(fs, r, plan, x, l);
    }
  }

  /** As long as not all before it are written, no action changes the `l`-th file. */
  lemma NotTouched(fs: Files, r: Progress, plan: seq<Action>, x: Path, l: nat)
    requires plan != [] && InOrder(plan) && x != [] && !Written(plan, x, l) && !Written(plan[..|plan| - 1], x, l)
    requires plan[|plan| - 1].Copy? ==> plan[|plan| - 1].job.to != []
    requires Link(fs, r.files, plan[..|plan| - 1], x, l) && (l > 0 ==> Link(fs, r.files, plan[..|plan| - 1], x, l - 1))
    ensures var a, y := plan[|plan| - 1], TmpOf(x, l);
            !(a.Copy? && a.job.to !in r.files && a.how != Early && (a.job.to == y || Tmp(a.job.to) == y))
  {
    var a, y := plan[|plan| - 1], TmpOf(x, l);
    if a.Copy? && a.job.to !in r.files && a.how != Early && Tmp(a.job.to) == y {
      TmpInjective(a.job.to, TmpOf(x, l - 1));
      WrittenMore(plan, x, l);
    }
  }

  lemma WrittenMore(plan: seq<Action>, x: Path, l: nat)
    requires plan != [] && x != [] && l > 0 && Written(plan[..|plan| - 1], x, l - 1) && WritesNow(plan[|plan| - 1], TmpOf(x, l - 1))
    ensures Written(plan, x, l)
  {
    WrittenBefore(plan, x, l - 1);
    WritesAtSnoc(plan, x, l - 1);
  }

  ghost predicate Walkable(fs: Files, plan: seq<Action>) {
    Deathless(plan) && InOrder(plan) && AllSupplied(fs, plan)
  }

  /** The names of the chain behind `x` are there, up to the `n`-th. */
  ghost predicate ChainThere(fs: Files, x: Path, n: nat)
    requires x != []
  {
    forall m | 0 < m <= n :: TmpOf(x, m) in fs
  }

  /** What the chain looks like after a walk. */
  lemma {:induction false} Links(fs: Files, plan: seq<Action>, x: Path, l: nat, n: nat)
    requires x != [] && x !in fs && l <= n && ChainThere(fs, x, n)
    requires Walkable(fs, plan)
    ensures Link(fs, Perform(Progress(fs, false, false), plan).files, plan, x, l)
    decreases |plan|
  {
    if plan == [] {
      LinkAtFirst(fs, x, l, n);
    } else {
      var k := |plan| - 1;
      FirstPart(fs, plan);
      Links(fs, plan[..k], x, l, n);
      if l > 0 {
        Links(fs, plan[..k], x, l - 1, n);
      }
      LinkNext(fs, plan, x, l);
    }
  }

  lemma LinkNext(fs: Files, plan: seq<Action>, x: Path, l: nat)
    requires plan != [] && x != [] && Walkable(fs, plan)
    requires var before := Perform(Progress(fs, false, false), plan[..|plan| - 1]).files;
             Link(fs, before, plan[..|plan| - 1], x, l) && (l > 0 ==> Link(fs, before, plan[..|plan| - 1], x, l - 1))
    ensures Link(fs, Perform(Progress(fs, false, false), plan).files, plan, x, l)
  {
    StepIsSupplied(fs, plan);
    LastAction(fs, plan);
    LinkStep(fs, Perform(Progress(fs, false, false), plan[..|plan| - 1]), plan, x, l);
  }

  lemma LinkAtFirst(fs: Files, x: Path, l: nat, n: nat)
    requires x != [] && x !in fs && l <= n && ChainThere(fs, x, n)
    ensures Link(fs, fs, [], x, l)
  {
    NothingWritten(x);
  }

  lemma NothingWritten(x: Path)
    requires x != []
    ensures forall l: nat :: Written([], x, l) <==> l == 0
    ensures TmpOf(x, 0) == x
  {
    forall l: nat ensures Written([], x, l) <==> l == 0 {
      if l > 0 {
        assert !WritesAt([], x, 0);
      }
    }
  }

  /** The sources of the plan are there, and it does not touch them. */
  ghost predicate AllSupplied(fs: Files, plan: seq<Action>) {
    forall i | 0 <= i < |plan| && plan[i].Copy? ::
      plan[i].job.to != [] && plan[i].job.from in fs && Avoids(plan, plan[i].job.from)
  }

  lemma FirstPart(fs: Files, plan: seq<Action>)
    requires plan != [] && Walkable(fs, plan)
    ensures var first := plan[..|plan| - 1]; Walkable(fs, first)
  {
    var first := plan[..|plan| - 1];
    assert forall i | 0 <= i < |first| :: first[i] == plan[i];
    forall i | 0 <= i < |first| && first[i].Copy? ensures first[i].job.to != [] && first[i].job.from in fs && Avoids(first, first[i].job.from) {
      AvoidsFirst(plan, plan[i].job.from);
    }
  }

  /** A walk without a crash performs its last action, too. */
  lemma LastAction(fs: Files, plan: seq<Action>)
    requires plan != [] && Walkable(fs, plan)
    ensures var k := |plan| - 1;
            var before := Perform(Progress(fs, false, false), plan[..k]);
            !before.died && Perform(Progress(fs, false, false), plan) == Act(before, plan[k])
  {
    FirstPart(fs, plan);
    PerformLives(Progress(fs, false, false), plan[..|plan| - 1]);
  }

  lemma {:induction false} PerformLives(r: Progress, plan: seq<Action>)
    requires !r.died && Deathless(plan)
    ensures !Perform(r, plan).died
  {
    if plan != [] {
      PerformLives(r, plan[..|plan| - 1]);
    }
  }

  lemma StepIsSupplied(fs: Files, plan: seq<Action>)
    requires plan != [] && AllSupplied(fs, plan)
    ensures var k := |plan| - 1;
            var before := Perform(Progress(fs, false, false), plan[..k]).files;
            plan[k].Copy? ==> plan[k].job.to != [] && plan[k].job.from in before && before[plan[k].job.from] == fs[plan[k].job.from]
  {
    var k := |plan| - 1;
    if plan[k].Copy? {
      AvoidsFirst(plan, plan[k].job.from);
      PlanKeepsSource(Progress(fs, false, false), plan[..k], plan[k].job.from);
    }
  }

  /** What goes to `t` has the content `whole`. */
  ghost predicate Supplies(fs: Files, plan: seq<Action>, t: Path, whole: Bytes) {
    forall i | 0 <= i < |plan| && plan[i].Copy? && plan[i].job.to == t :: plan[i].job.from in fs && fs[plan[i].job.from] == whole
  }

  /** Once all before it are written, the last file of the chain is gone or whole. */
  lemma {:induction false} ChainEnd(fs: Files, plan: seq<Action>, x: Path, n: nat, whole: Bytes)
    requires x != [] && x !in fs && n > 0 && ChainThere(fs, x, n)
    requires Walkable(fs, plan) && Supplies(fs, plan, TmpOf(x, n), whole)
    ensures var out := Perform(Progress(fs, false, false), plan).files;
            Written(plan, x, n) && TmpOf(x, n) in out ==> out[TmpOf(x, n)] == whole
    decreases |plan|
  {
    if plan == [] {
      NothingWritten(x);
    } else {
      var k := |plan| - 1;
      FirstPart(fs, plan);
      assert forall i | 0 <= i < k :: plan[..k][i] == plan[i];
      ChainEnd(fs, plan[..k], x, n, whole);
      StepIsSupplied(fs, plan);
      EndStep(fs, plan, x, n, whole);
    }
  }

  lemma EndStep(fs: Files, plan: seq<Action>, x: Path, n: nat, whole: Bytes)
    requires plan != [] && x != [] && x !in fs && n > 0 && ChainThere(fs, x, n)
    requires Walkable(fs, plan) && Supplies(fs, plan, TmpOf(x, n), whole)
    requires var before := Perform(Progress(fs, false, false), plan[..|plan| - 1]).files;
             Written(plan[..|plan| - 1], x, n) && TmpOf(x, n) in before ==> before[TmpOf(x, n)] == whole
    ensures var out := Perform(Progress(fs, false, false), plan).files;
            Written(plan, x, n) && TmpOf(x, n) in out ==> out[TmpOf(x, n)] == whole
  {
    var k := |plan| - 1;
    if Written(plan[..k], x, n) {
      StepIsSupplied(fs, plan);
      LastAction(fs, plan);
      ActOn(Perform(Progress(fs, false, false), plan[..k]), plan[k], TmpOf(x, n));
    } else if Written(plan, x, n) {
      WrittenNow(plan, x, n);
      Links(fs, plan, x, n, n);
    }
  }

  /** What a walk without a crash does to a wrong file, where `x` is missing and the
      names of the chain from it on are there up to the wrong one: the wrong file
      stays exactly if there is a name before it in the chain whose temporary file the
      walk does not write. */
  lemma WrongFileStaysExactly(fs: Files, plan: seq<Action>, x: Path, n: nat, whole: Bytes)
    requires x != [] && x !in fs && n > 0 && ChainThere(fs, x, n)
    requires fs[TmpOf(x, n)] != whole
    requires Walkable(fs, plan) && Supplies(fs, plan, TmpOf(x, n), whole)
    ensures var out, t := Perform(Progress(fs, false, false), plan).files, TmpOf(x, n);
            (t in out && out[t] == fs[t]) <==> exists m: nat :: m < n && !WritesAt(plan, x, m)
  {
    Links(fs, plan, x, n, n);
    ChainEnd(fs, plan, x, n, whole);
    if !Written(plan, x, n) {
      var m := FirstUnwritten(plan, x, n);
    }
  }
}
