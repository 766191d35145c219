/**
 * What holds in every run of the migration (backend/data_migration.go), whatever
 * happens: crashes, files and folders that cannot be read or written, and any
 * sequence of new attempts and starts of the launcher.
 */
module MigrationAnyRun {
  import opened MigrationCopy
  import opened MigrationTree
  import opened MigrationWalk
  import opened Migration

  /** The loop itself does not change the folder the launcher is set to, and when it
      finishes, an empty list is saved. */
  lemma {:induction false} ExecuteEnds(pl: Place, d: Disk, left: seq<string>, b: Boot)
    ensures var r := Execute(pl, d, left, b); r.0.home == d.home && (r.1 == Finished ==> r.0.marker == Saved([]))
    decreases |left|, 0
  {
    if left != [] {
      var sub, rest := left[0], left[1..];
      ContinueEnds(pl, d, d.files, rest, b);
      ContinueEnds(pl, d, DeleteBelow(d.files, pl.old_ + [sub], b.deleting(sub)).0, rest, b);
      ContinueEnds(pl, d, Moved(pl, d.files, sub, b.walk).files, rest, b);
    }
  }

  lemma {:induction false} ContinueEnds(pl: Place, d: Disk, fs: Files, rest: seq<string>, b: Boot)
    ensures var r := Continue(pl, d.(files := fs), rest, b); r.0.home == d.home && (r.1 == Finished ==> r.0.marker == Saved([]))
    decreases |rest|, 1
  {
    var (d', alive) := Save(d.(files := fs), rest, b.saving(|rest|));
    ExecuteEnds(pl, d', rest, b);
  }

  /** A finished migration leaves its marker in the old folder, also one that was
      finished at a later start: the code removes it from the new one. */
  lemma {:induction false} MarkerStays(pl: Place, d: Disk, es: seq<Attempt>)
    requires d.home == Old
    ensures Run(pl, d, es).home == New ==> Run(pl, d, es).marker == Saved([])
  {
    if es != [] {
      var n := |es| - 1;
      MarkerStays(pl, d, es[..n]);
      AttemptMarker(pl, Run(pl, d, es[..n]), es[n]);
    }
  }

  /** If the player sets the old folder again by hand, the next start takes the new
      one back. */
  lemma OldMarkerStays(pl: Place, d: Disk, es: seq<Attempt>, b: Boot)
    requires d.home == Old && Run(pl, d, es).home == New
    requires b.savingEnd == Written && b.switches
    ensures Run(pl, d, es).marker == Saved([]) && Resume(pl, Run(pl, d, es).(home := Old), b).home == New
  {
    MarkerStays(pl, d, es);
  }

  lemma AttemptMarker(pl: Place, d: Disk, e: Attempt)
    requires d.home == New ==> d.marker == Saved([])
    ensures var d' := Tried(pl, d, e); d'.home == New ==> d'.marker == Saved([])
  {
    if d.home == Old {
      var left := if e.Choose? || !d.marker.Saved? then pl.Subs() else d.marker.left;
      var d1 := if e.Choose? then d.(marker := Saved(left)) else d;
      ExecuteEnds(pl, d1, left, e.boot);
    }
  }

  // -------------------------------------------------------------------------
  // The old data
  // -------------------------------------------------------------------------

  lemma {:induction false} ExecuteKeepsOld(pl: Place, d: Disk, left: seq<string>, b: Boot, s: string, p: Path)
    requires Apart(pl.old_, pl.new_) && s !in pl.deletes && Under(pl.old_ + [s], p)
    ensures SameAt(d.files, Execute(pl, d, left, b).0.files, p)
    decreases |left|, 0
  {
    if left != [] {
      var sub, rest := left[0], left[1..];
      ContinueKeepsOld(pl, d, d.files, rest, b, s, p);
      WalkKeepsOld(pl, d.files, sub, b.walk, s, p);
      ContinueKeepsOld(pl, d, Moved(pl, d.files, sub, b.walk).files, rest, b, s, p);
      if sub in pl.deletes {
        DeleteKeepsOld(pl, d.files, sub, b.deleting(sub), s, p);
        ContinueKeepsOld(pl, d, DeleteBelow(d.files, pl.old_ + [sub], b.deleting(sub)).0, rest, b, s, p);
      }
    }
  }

  lemma {:induction false} ContinueKeepsOld(pl: Place, d: Disk, fs: Files, rest: seq<string>, b: Boot, s: string, p: Path)
    requires Apart(pl.old_, pl.new_) && s !in pl.deletes && Under(pl.old_ + [s], p) && SameAt(d.files, fs, p)
    ensures SameAt(d.files, Continue(pl, d.(files := fs), rest, b).0.files, p)
    decreases |rest|, 1
  {
    var (d', alive) := Save(d.(files := fs), rest, b.saving(|rest|));
    ExecuteKeepsOld(pl, d', rest, b, s, p);
  }

  /** Nothing that can happen, errors included, changes a file of the old folder
      outside the cached data. */
  lemma {:induction false} OldDataIsSafe(pl: Place, d: Disk, es: seq<Attempt>, s: string, p: Path)
    requires Apart(pl.old_, pl.new_) && s !in pl.deletes && Under(pl.old_ + [s], p)
    ensures SameAt(d.files, Run(pl, d, es).files, p)
  {
    if es != [] {
      var n := |es| - 1;
      OldDataIsSafe(pl, d, es[..n], s, p);
      var before, b := Run(pl, d, es[..n]), es[n].boot;
      if before.home == Old {
        ExecuteKeepsOld(pl, before.(marker := Saved(pl.Subs())), pl.Subs(), b, s, p);
        if before.marker.Saved? {
          ExecuteKeepsOld(pl, before, before.marker.left, b, s, p);
        }
      }
    }
  }

  // -------------------------------------------------------------------------
  // The end that can still be reached
  // -------------------------------------------------------------------------

  /** A marker that can be read holds the list from some sub-folder on. */
  ghost predicate Listed(pl: Place, d: Disk) {
    d.marker.Saved? ==> exists k: nat :: k <= |pl.Subs()| && d.marker.left == pl.Subs()[k..]
  }

  lemma SubsFrom(pl: Place, k: nat)
    requires k < |pl.Subs()|
    ensures pl.Subs()[k..] == [pl.Subs()[k]] + pl.Subs()[k + 1..]
    ensures pl.Subs()[k..] != [] && pl.Subs()[k..][0] == pl.Subs()[k] && pl.Subs()[k..][1..] == pl.Subs()[k + 1..]
    ensures if k < |pl.moves| then pl.Subs()[k] == pl.moves[k] else pl.Subs()[k] in pl.deletes
  {
    if k >= |pl.moves| {
      assert pl.Subs()[k] == pl.deletes[k - |pl.moves|];
    }
  }

  lemma ListedFrom(pl: Place, d: Disk, k: nat)
    requires k <= |pl.Subs()| && d.marker == Saved(pl.Subs()[k..])
    ensures Listed(pl, d)
  {
  }

  /** The files once the `k`-th sub-folder, which is there, was tried. */
  function FilesAfter(pl: Place, fs: Files, k: nat, b: Boot): Files
    requires k < |pl.Subs()|
  {
    var sub := pl.Subs()[k];
    if sub in pl.deletes then DeleteBelow(fs, pl.old_ + [sub], b.deleting(sub)).0 else Moved(pl, fs, sub, b.walk).files
  }

  lemma FilesAfterOnTheWay(pl: Place, f0: Files, fs: Files, k: nat, b: Boot)
    requires Ready(pl, f0) && OnTheWay(pl, f0, fs) && k < |pl.Subs()|
    ensures OnTheWay(pl, f0, FilesAfter(pl, fs, k, b))
  {
    SubsFrom(pl, k);
    if pl.Subs()[k] in pl.deletes {
      DeleteOnTheWay(pl, f0, fs, pl.Subs()[k], b.deleting(pl.Subs()[k]));
    } else {
      MoveOnTheWay(pl, f0, fs, k, b.walk);
    }
  }

  /** What the loop does with the `k`-th sub-folder, and whether it goes on. */
  lemma OneSub(pl: Place, d: Disk, k: nat, b: Boot)
    requires k < |pl.Subs()|
    ensures var rest := pl.Subs()[k + 1..];
            var fs, r := FilesAfter(pl, d.files, k, b), Execute(pl, d, pl.Subs()[k..], b);
            || r == Continue(pl, d, rest, b)
            || r == Continue(pl, d.(files := fs), rest, b)
            || (r.0.files == fs && r.0.marker in {d.marker, Half, Saved(rest)})
  {
    SubsFrom(pl, k);
  }

  lemma {:induction false} ExecuteOnTheWay(pl: Place, f0: Files, d: Disk, k: nat, b: Boot)
    requires Ready(pl, f0) && OnTheWay(pl, f0, d.files) && Listed(pl, d) && k <= |pl.Subs()|
    ensures OnTheWay(pl, f0, Execute(pl, d, pl.Subs()[k..], b).0.files) && Listed(pl, Execute(pl, d, pl.Subs()[k..], b).0)
    decreases |pl.Subs()| - k, 1
  {
    if k < |pl.Subs()| {
      FilesAfterOnTheWay(pl, f0, d.files, k, b);
      ContinueOnTheWay(pl, f0, d, d.files, k + 1, b);
      ContinueOnTheWay(pl, f0, d, FilesAfter(pl, d.files, k, b), k + 1, b);
      ListedFrom(pl, d.(marker := Saved(pl.Subs()[k + 1..])), k + 1);
      OneSub(pl, d, k, b);
    } else {
      EndOnTheWay(pl, d, b);
    }
  }

  lemma EndOnTheWay(pl: Place, d: Disk, b: Boot)
    requires Listed(pl, d)
    ensures pl.Subs()[|pl.Subs()|..] == []
    ensures Execute(pl, d, [], b).0.files == d.files && Listed(pl, Execute(pl, d, [], b).0)
  {
    ListedFrom(pl, d.(marker := Saved([])), |pl.Subs()|);
  }

  lemma {:induction false} ContinueOnTheWay(pl: Place, f0: Files, d: Disk, fs: Files, k: nat, b: Boot)
    requires Ready(pl, f0) && OnTheWay(pl, f0, fs) && Listed(pl, d) && k <= |pl.Subs()|
    ensures var d' := Continue(pl, d.(files := fs), pl.Subs()[k..], b).0; OnTheWay(pl, f0, d'.files) && Listed(pl, d')
    decreases |pl.Subs()| - k, 2
  {
    var rest := pl.Subs()[k..];
    var (d', alive) := Save(d.(files := fs), rest, b.saving(|rest|));
    ExecuteOnTheWay(pl, f0, d', k, b);
  }

  lemma ChoiceOnTheWay(pl: Place, f0: Files, d: Disk, b: Boot)
    requires Ready(pl, f0) && OnTheWay(pl, f0, d.files) && Listed(pl, d)
    ensures OnTheWay(pl, f0, SetAppDir(pl, d, b).files) && Listed(pl, SetAppDir(pl, d, b))
  {
    var d' := d.(marker := Saved(pl.Subs()));
    assert pl.Subs()[0..] == pl.Subs();
    ListedFrom(pl, d', 0);
    ExecuteOnTheWay(pl, f0, d', 0, b);
    Choices(pl, d, b);
  }

  lemma Choices(pl: Place, d: Disk, b: Boot)
    ensures var r, now := Execute(pl, d.(marker := Saved(pl.Subs())), pl.Subs(), b).0, SetAppDir(pl, d, b);
            || (now.files == d.files && now.marker in {d.marker, Half})
            || (now.files == r.files && now.marker == r.marker)
  {
  }

  lemma StartOnTheWay(pl: Place, f0: Files, d: Disk, b: Boot)
    requires Ready(pl, f0) && OnTheWay(pl, f0, d.files) && Listed(pl, d)
    ensures OnTheWay(pl, f0, Resume(pl, d, b).files) && Listed(pl, Resume(pl, d, b))
  {
    if d.marker.Saved? {
      var k: nat :| k <= |pl.Subs()| && d.marker.left == pl.Subs()[k..];
      StartFrom(pl, f0, d, k, b);
    }
  }

  lemma StartFrom(pl: Place, f0: Files, d: Disk, k: nat, b: Boot)
    requires Ready(pl, f0) && OnTheWay(pl, f0, d.files) && Listed(pl, d) && k <= |pl.Subs()| && d.marker == Saved(pl.Subs()[k..])
    ensures OnTheWay(pl, f0, Resume(pl, d, b).files) && Listed(pl, Resume(pl, d, b))
  {
    ExecuteOnTheWay(pl, f0, d, k, b);
  }

  lemma AttemptOnTheWay(pl: Place, f0: Files, d: Disk, e: Attempt)
    requires Ready(pl, f0) && OnTheWay(pl, f0, d.files) && Listed(pl, d)
    ensures OnTheWay(pl, f0, Tried(pl, d, e).files) && Listed(pl, Tried(pl, d, e))
  {
    ChoiceOnTheWay(pl, f0, d, e.boot);
    StartOnTheWay(pl, f0, d, e.boot);
  }

  /** In every run whatever: the old data is untouched, and copying what is missing
      would lead to exactly the end of an undisturbed migration. */
  lemma {:induction false} RunOnTheWay(pl: Place, d: Disk, es: seq<Attempt>)
    requires Ready(pl, d.files) && !d.marker.Saved?
    ensures OnTheWay(pl, d.files, Run(pl, d, es).files) && Listed(pl, Run(pl, d, es))
  {
    if es != [] {
      var n := |es| - 1;
      RunOnTheWay(pl, d, es[..n]);
      AttemptOnTheWay(pl, d.files, Run(pl, d, es[..n]), es[n]);
    }
  }

  // -------------------------------------------------------------------------
  // What may be taken for a user file
  // -------------------------------------------------------------------------

  /** What the new folder has under the name of the `i`-th user file is that file, or
      was there before the migration. */
  ghost predicate Genuine(pl: Place, f0: Files, now: Files, i: nat)
    requires i < |AllJobs(pl, f0)|
  {
    var j := AllJobs(pl, f0)[i];
    && j.to in now
    && ((j.from in f0 && now[j.to] == f0[j.from]) || (j.to in f0 && now[j.to] == f0[j.to]))
  }

  /** In every run whatever, at every moment: what the new folder has under the name of
      a user file is genuine, or that name is the temporary name of a user file still
      missing from the new folder, or the temporary name of such a name, and so on
      through names of user files. */
  lemma HalfCopiesAreNotMistaken(pl: Place, d: Disk, es: seq<Attempt>, i: nat)
    requires Ready(pl, d.files) && !d.marker.Saved?
    requires i < |AllJobs(pl, d.files)| && AllJobs(pl, d.files)[i].to in Run(pl, d, es).files
    ensures Orderly(AllJobs(pl, d.files))
    ensures var now := Run(pl, d, es).files;
            Genuine(pl, d.files, now, i) || Stale(now, AllJobs(pl, d.files), AllJobs(pl, d.files)[i].to)
  {
    RunOnTheWay(pl, d, es);
    AllJobsOrderly(pl, d.files);
    GenuineOrStale(pl, d.files, Run(pl, d, es).files, i);
  }

  lemma GenuineOrStale(pl: Place, f0: Files, now: Files, i: nat)
    requires Ready(pl, f0) && OnTheWay(pl, f0, now)
    requires i < |AllJobs(pl, f0)| && AllJobs(pl, f0)[i].to in now
    ensures Orderly(AllJobs(pl, f0))
    ensures Genuine(pl, f0, now, i) || Stale(now, AllJobs(pl, f0), AllJobs(pl, f0)[i].to)
  {
    var jobs := AllJobs(pl, f0);
    AllJobsOrderly(pl, f0);
    SourcesOfAll(pl, f0, f0);
    SourcesOfAll(pl, f0, now);
    assert !IsTarget(jobs, i, jobs[i].to);
    if Displaced(now, jobs, i, jobs[i].to) {
      DisplacedIsStale(now, jobs, i, jobs[i].to);
    } else {
      OthersStay(now, jobs, i, jobs[i].to);
      TargetStays(now, jobs, i, |jobs|);
      EveryFileArrives(f0, jobs, i);
      TargetNotCached(pl, f0, i);
      assert SameAt(Complete(now, jobs), Complete(f0, jobs), jobs[i].to);
    }
  }

  /** In every run whatever, errors included: when a walk from the start finds a target
      in its place, with all targets before it there, then what it skips is genuine. */
  lemma SkippedIsGenuine(pl: Place, d: Disk, es: seq<Attempt>, i: nat)
    requires Ready(pl, d.files) && !d.marker.Saved? && i < |AllJobs(pl, d.files)|
    requires TargetsThere(Run(pl, d, es).files, AllJobs(pl, d.files), i + 1)
    ensures Genuine(pl, d.files, Run(pl, d, es).files, i)
  {
    var now, jobs := Run(pl, d, es).files, AllJobs(pl, d.files);
    RunOnTheWay(pl, d, es);
    AllJobsOrderly(pl, d.files);
    SourcesOfAll(pl, d.files, d.files);
    SourcesOfAll(pl, d.files, now);
    NothingToDo(now, jobs, i);
    TargetStays(now, jobs, i, |jobs|);
    EveryFileArrives(d.files, jobs, i);
    TargetNotCached(pl, d.files, i);
    assert SameAt(Complete(now, jobs), Complete(d.files, jobs), jobs[i].to);
  }

  /** The file `p` of the sub-folder `s`. */
  ghost predicate UserFile(pl: Place, f0: Files, s: string, p: Path) {
    p in f0 && Under(pl.old_ + [s], p) && Under(pl.old_, p)
  }

  /** User files of one sub-folder, each with the temporary name of the one before. */
  ghost predicate Chained(pl: Place, f0: Files, s: string, ps: seq<Path>) {
    && ps != []
    && (forall l | 0 <= l < |ps| :: UserFile(pl, f0, s, ps[l]))
    && forall l | 0 < l < |ps| :: Follows(pl, ps[l - 1], ps[l])
  }

  predicate Follows(pl: Place, p: Path, q: Path)
    requires Under(pl.old_, p) && Under(pl.old_, q)
  {
    Target(pl, q) == Tmp(Target(pl, p))
  }

  /** The first of them is missing in the new folder, and all others are there. */
  ghost predicate ChainOnDisk(pl: Place, f0: Files, now: Files, s: string, ps: seq<Path>) {
    && Chained(pl, f0, s, ps)
    && Target(pl, ps[0]) !in now
    && forall l | 0 < l < |ps| :: Target(pl, ps[l]) in now
  }

  lemma ChainBehind(pl: Place, f0: Files, now: Files, i: nat) returns (s: string, ps: seq<Path>)
    requires Ready(pl, f0) && OnTheWay(pl, f0, now)
    requires i < |AllJobs(pl, f0)| && AllJobs(pl, f0)[i].to in now && !Genuine(pl, f0, now, i)
    ensures s in pl.moves && ChainOnDisk(pl, f0, now, s, ps)
    ensures UserFile(pl, f0, s, AllJobs(pl, f0)[i].from) && ps[|ps| - 1] == AllJobs(pl, f0)[i].from
  {
    var t := AllJobs(pl, f0)[i].to;
    GenuineOrStale(pl, f0, now, i);
    var x, n;
    s, x, n := MissingBefore(pl, f0, now, t);
    assert NameThere(now, x, n);
    var l := NearestMissing(now, x, n);
    FewerFiles(pl, f0, s, x, l, n);
    ps := ChainBetween(pl, f0, s, x, l, n);
    NamesOnDisk(pl, f0, now, s, ps, x, l, n);
    LastName(pl, f0, s, ps, x, l, n, i);
  }

  lemma LastName(pl: Place, f0: Files, s: string, ps: seq<Path>, x: Path, l: nat, n: nat, i: nat)
    requires Ready(pl, f0) && Chained(pl, f0, s, ps) && i < |AllJobs(pl, f0)|
    requires x != [] && l <= n && |ps| == n - l + 1 && NamesFrom(pl, ps, x, l) && TmpOf(x, n) == AllJobs(pl, f0)[i].to
    ensures UserFile(pl, f0, s, AllJobs(pl, f0)[i].from) && ps[|ps| - 1] == AllJobs(pl, f0)[i].from
  {
    NamesLast(pl, ps, x, l);
    JobIsUserFile(pl, f0, i);
    SameTarget(pl, ps[|ps| - 1], AllJobs(pl, f0)[i].from);
  }

  lemma NamesLast(pl: Place, ps: seq<Path>, x: Path, l: nat)
    requires x != [] && ps != [] && NamesFrom(pl, ps, x, l)
    ensures NameAt(pl, ps[|ps| - 1], x, l + |ps| - 1)
  {
    assert NameAt(pl, ps[|ps| - 1], x, l + (|ps| - 1));
  }

  /** `p` goes to the `q`-th name from `x` on. */
  predicate NameAt(pl: Place, p: Path, x: Path, q: nat)
    requires x != []
  {
    Under(pl.old_, p) && Target(pl, p) == TmpOf(x, q)
  }

  /** A user file of `s` does. */
  ghost predicate FileAt(pl: Place, f0: Files, s: string, x: Path, q: nat)
    requires x != []
  {
    exists p :: UserFile(pl, f0, s, p) && NameAt(pl, p, x, q)
  }

  ghost predicate FilesAt(pl: Place, f0: Files, s: string, x: Path, l: nat, n: nat)
    requires x != []
  {
    forall q | l <= q <= n :: FileAt(pl, f0, s, x, q)
  }

  lemma FewerFiles(pl: Place, f0: Files, s: string, x: Path, l: nat, n: nat)
    requires x != [] && FilesAt(pl, f0, s, x, 0, n)
    ensures FilesAt(pl, f0, s, x, l, n)
  {
  }

  predicate NameThere(fs: Files, x: Path, q: nat)
    requires x != []
  {
    TmpOf(x, q) in fs
  }

  lemma MissingBefore(pl: Place, f0: Files, now: Files, t: Path) returns (s: string, x: Path, n: nat)
    requires Ready(pl, f0) && Orderly(AllJobs(pl, f0))
    requires t in now && IsTarget(AllJobs(pl, f0), |AllJobs(pl, f0)|, t) && Stale(now, AllJobs(pl, f0), t)
    ensures s in pl.moves && x != [] && x !in now && n > 0 && TmpOf(x, n) == t && FilesAt(pl, f0, s, x, 0, n)
  {
    var jobs := AllJobs(pl, f0);
    var m: nat, k: nat :| StaleBy(now, jobs, t, m, k);
    JobIsUserFile(pl, f0, m);
    s, x, n := jobs[m].from[|pl.old_|], jobs[m].to, k;
    forall q | 0 <= q <= n ensures FileAt(pl, f0, s, x, q) {
      assert IsTarget(jobs, |jobs|, TmpOf(x, q));
      NamedFile(pl, f0, m, q);
    }
  }

  /** Temporary files lie in the folder of their files. */
  lemma NamedFile(pl: Place, f0: Files, m: nat, q: nat)
    requires Ready(pl, f0) && m < |AllJobs(pl, f0)| && AllJobs(pl, f0)[m].to != []
    requires |AllJobs(pl, f0)[m].from| > |pl.old_|
    requires IsTarget(AllJobs(pl, f0), |AllJobs(pl, f0)|, TmpOf(AllJobs(pl, f0)[m].to, q))
    ensures FileAt(pl, f0, AllJobs(pl, f0)[m].from[|pl.old_|], AllJobs(pl, f0)[m].to, q)
  {
    var jobs, x := AllJobs(pl, f0), AllJobs(pl, f0)[m].to;
    var i: nat :| i < |jobs| && jobs[i].to == TmpOf(x, q);
    JobIsUserFile(pl, f0, m);
    JobIsUserFile(pl, f0, i);
    SameFolder(x, q, |pl.new_|);
    assert NameAt(pl, jobs[i].from, x, q);
  }

  lemma SameFolder(x: Path, q: nat, l: nat)
    requires l < |x| - 1
    ensures |TmpOf(x, q)| == |x| && TmpOf(x, q)[l] == x[l]
  {
    TmpOfLength(x, q);
    assert TmpOf(x, q)[l] == TmpOf(x, q)[..|x| - 1][l] == x[..|x| - 1][l];
  }

  lemma NamesOnDisk(pl: Place, f0: Files, now: Files, s: string, ps: seq<Path>, x: Path, l: nat, n: nat)
    requires Chained(pl, f0, s, ps) && x != [] && l < n && |ps| == n - l + 1 && NamesFrom(pl, ps, x, l)
    requires BackTo(now, x, l, n)
    ensures ChainOnDisk(pl, f0, now, s, ps)
  {
    NameOnDisk(pl, now, ps[0], x, l);
    forall q | 0 < q < |ps| ensures Target(pl, ps[q]) in now {
      NameOnDisk(pl, now, ps[q], x, l + q);
    }
  }

  lemma NameOnDisk(pl: Place, now: Files, p: Path, x: Path, q: nat)
    requires x != [] && NameAt(pl, p, x, q)
    ensures Target(pl, p) in now <==> NameThere(now, x, q)
  {
  }

  ghost predicate NamesFrom(pl: Place, ps: seq<Path>, x: Path, l: nat)
    requires x != []
  {
    forall q | 0 <= q < |ps| :: NameAt(pl, ps[q], x, l + q)
  }

  lemma {:induction false} ChainBetween(pl: Place, f0: Files, s: string, x: Path, l: nat, n: nat) returns (ps: seq<Path>)
    requires x != [] && l <= n && FilesAt(pl, f0, s, x, l, n)
    ensures Chained(pl, f0, s, ps) && |ps| == n - l + 1 && NamesFrom(pl, ps, x, l)
    decreases n
  {
    assert FileAt(pl, f0, s, x, n);
    var p :| UserFile(pl, f0, s, p) && NameAt(pl, p, x, n);
    if n == l {
      ps := [p];
    } else {
      ps := ChainBetween(pl, f0, s, x, l, n - 1);
      NamesLast(pl, ps, x, l);
      FollowsName(pl, ps[|ps| - 1], p, x, n - 1);
      ChainedSnoc(pl, f0, s, ps, p);
      NamesSnoc(pl, ps, x, l, p);
      ps := ps + [p];
    }
  }

  lemma ChainedSnoc(pl: Place, f0: Files, s: string, ps: seq<Path>, p: Path)
    requires Chained(pl, f0, s, ps) && UserFile(pl, f0, s, p) && Follows(pl, ps[|ps| - 1], p)
    ensures Chained(pl, f0, s, ps + [p])
  {
    var qs := ps + [p];
    forall q | 0 < q < |qs| ensures Follows(pl, qs[q - 1], qs[q]) {
      if q < |ps| {
        assert Follows(pl, ps[q - 1], ps[q]);
      }
    }
  }

  lemma NamesSnoc(pl: Place, ps: seq<Path>, x: Path, l: nat, p: Path)
    requires x != [] && NamesFrom(pl, ps, x, l) && NameAt(pl, p, x, l + |ps|)
    ensures NamesFrom(pl, ps + [p], x, l)
  {
    var qs := ps + [p];
    forall q | 0 <= q < |qs| ensures NameAt(pl, qs[q], x, l + q) {
      assert q < |ps| ==> NameAt(pl, ps[q], x, l + q);
    }
  }

  lemma FollowsName(pl: Place, p: Path, q: Path, x: Path, n: nat)
    requires x != [] && NameAt(pl, p, x, n) && NameAt(pl, q, x, n + 1)
    ensures Follows(pl, p, q)
  {
    TmpOfNext(x, n);
  }

  lemma SameTarget(pl: Place, p: Path, q: Path)
    requires Under(pl.old_, p) && Under(pl.old_, q) && Target(pl, p) == Target(pl, q)
    ensures p == q
  {
    assert Target(pl, p)[|pl.new_|..] == p[|pl.old_|..] && Target(pl, q)[|pl.new_|..] == q[|pl.old_|..];
    assert p == pl.old_ + p[|pl.old_|..] && q == pl.old_ + q[|pl.old_|..];
  }

  lemma {:induction false} NearestMissing(fs: Files, x: Path, n: nat) returns (l: nat)
    requires x != [] && x !in fs && n > 0 && NameThere(fs, x, n)
    ensures l < n && BackTo(fs, x, l, n)
  {
    if !NameThere(fs, x, n - 1) {
      l := n - 1;
    } else {
      assert n > 1 by { assert TmpOf(x, 0) == x; }
      l := NearestMissing(fs, x, n - 1);
    }
  }

  /** Of the names from the `l`-th to the `n`-th only the first is missing. */
  ghost predicate BackTo(fs: Files, x: Path, l: nat, n: nat)
    requires x != []
  {
    !NameThere(fs, x, l) && forall q | l < q <= n :: NameThere(fs, x, q)
  }

  lemma JobIsUserFile(pl: Place, f0: Files, i: nat)
    requires Ready(pl, f0) && i < |AllJobs(pl, f0)|
    ensures var j := AllJobs(pl, f0)[i];
            && |j.from| > |pl.old_| && j.from[|pl.old_|] in pl.moves && UserFile(pl, f0, j.from[|pl.old_|], j.from)
            && j.to == Target(pl, j.from) && |j.to| > |pl.new_| + 1 && j.to[|pl.new_|] == j.from[|pl.old_|]
  {
    var j := AllJobs(pl, f0)[i];
    AllJobsOrderly(pl, f0);
    JobsInNames(f0, pl.old_, pl.new_, pl.moves, pl.depth + 1);
    assert Mirrors(f0, pl.old_, pl.new_, j);
    var s := j.from[|pl.old_|];
    assert s in pl.Subs();
    InSub(pl.old_, s, j.from);
  }

  // -------------------------------------------------------------------------
  // A fresh attempt repairs
  // -------------------------------------------------------------------------

  lemma {:induction false} RunConcat(pl: Place, d: Disk, a: seq<Attempt>, b: seq<Attempt>)
    ensures Run(pl, d, a + b) == Run(pl, Run(pl, d, a), b)
  {
    if b == [] {
      assert a + b == a;
    } else {
      var n := |b| - 1;
      assert (a + b)[..|a + b| - 1] == a + b[..n];
      RunConcat(pl, d, a, b[..n]);
    }
  }

  /** The player chooses the new folder once more, the list is saved anew, and from
      then on nothing fails, though the launcher may still crash. */
  ghost predicate Fresh(pl: Place, es: seq<Attempt>) {
    && es != [] && es[0].Choose? && es[0].boot.saving(|pl.Subs()|) != DiesBefore && OnlyCrashes(es)
  }

  lemma FreshKeeps(pl: Place, f0: Files, d: Disk, e: Attempt)
    requires Ready(pl, f0) && OnTheWay(pl, f0, d.files) && d.home == Old
    requires e.Choose? && e.boot.saving(|pl.Subs()|) != DiesBefore && NoErrors(e.boot.walk)
    ensures Keeps(pl, f0, SetAppDir(pl, d, e.boot))
  {
    var b := e.boot;
    var (d', alive) := Save(d, pl.Subs(), b.saving(|pl.Subs()|));
    if alive {
      FirstSub(pl, f0, d');
      ExecuteKeeps(pl, f0, d', 0, b);
      ConcludeKeeps(pl, f0, Execute(pl, d', pl.Subs(), b), b);
    }
  }

  lemma {:induction false} FreshRunKeeps(pl: Place, f0: Files, d: Disk, es: seq<Attempt>)
    requires Ready(pl, f0) && OnTheWay(pl, f0, d.files) && d.home == Old && Fresh(pl, es)
    ensures Keeps(pl, f0, Run(pl, d, es))
  {
    var n := |es| - 1;
    if n == 0 {
      assert es[..0] == [];
      FreshKeeps(pl, f0, d, es[0]);
    } else {
      assert es[..n][0] == es[0];
      FreshRunKeeps(pl, f0, d, es[..n]);
      EventKeeps(pl, f0, Run(pl, d, es[..n]), es[n]);
    }
  }

  /** Whatever went wrong before, as long as the launcher is still in the old folder:
      after a fresh attempt without errors the new folder is exactly what an
      undisturbed migration leaves, so nothing is lost and no half-written file is left. */
  lemma FreshAttemptRepairs(pl: Place, d: Disk, before: seq<Attempt>, es: seq<Attempt>)
    requires Ready(pl, d.files) && !d.marker.Saved? && Run(pl, d, before).home == Old && Fresh(pl, es)
    requires Run(pl, d, before + es).home == New
    ensures SameUncached(pl, Run(pl, d, before + es).files, Complete(d.files, AllJobs(pl, d.files)))
  {
    RunConcat(pl, d, before, es);
    RunOnTheWay(pl, d, before);
    FreshRunKeeps(pl, d.files, Run(pl, d, before), es);
  }

  /** For one user file: it is in the new folder then, with its content or with what
      was there before. */
  lemma FreshAttemptBringsFile(pl: Place, d: Disk, before: seq<Attempt>, es: seq<Attempt>, i: nat)
    requires Ready(pl, d.files) && !d.marker.Saved? && Run(pl, d, before).home == Old && Fresh(pl, es)
    requires Run(pl, d, before + es).home == New && i < |AllJobs(pl, d.files)|
    ensures Genuine(pl, d.files, Run(pl, d, before + es).files, i)
  {
    FreshAttemptRepairs(pl, d, before, es);
    AllJobsOrderly(pl, d.files);
    SourcesOfAll(pl, d.files, d.files);
    EveryFileArrives(d.files, AllJobs(pl, d.files), i);
    TargetNotCached(pl, d.files, i);
    assert SameAt(Run(pl, d, before + es).files, Complete(d.files, AllJobs(pl, d.files)), AllJobs(pl, d.files)[i].to);
  }
}
