/**
 * The migration of the data folder (backend/data_migration.go) when files cannot be
 * read or written: the old data is safe all the same, but a folder in which
 * something failed is never tried again.
 */
module MigrationErrors {
  import opened MigrationCopy
  import opened MigrationTree
  import opened MigrationWalk
  import opened Migration
  import opened MigrationAnyRun

  /** `s` is not on the list of the marker any more. */
  ghost predicate Dropped(d: Disk, s: string) {
    d.marker.Saved? ==> s !in d.marker.left
  }

  /** The loop touches only the sub-folders on its list. */
  lemma {:induction false} ExecuteFrame(pl: Place, d: Disk, left: seq<string>, b: Boot, s: string, p: Path)
    requires Apart(pl.old_, pl.new_) && s !in left && Dropped(d, s) && Under(pl.new_ + [s], p)
    ensures var d' := Execute(pl, d, left, b).0;
            SameAt(d.files, d'.files, p) && Dropped(d', s)
    decreases |left|, 0
  {
    if left != [] {
      var sub, rest := left[0], left[1..];
      OtherSub(pl.new_, s, sub, p);
      NotInOld(pl, s, sub, p);
      WalkOutside(d.files, pl.old_ + [sub], pl.new_ + [sub], b.walk, pl.depth, p);
      ContinueFrame(pl, d, d.files, rest, b, s, p);
      var fs := DeleteBelow(d.files, pl.old_ + [sub], b.deleting(sub)).0;
      ContinueFrame(pl, d, fs, rest, b, s, p);
      ContinueFrame(pl, d, Moved(pl, d.files, sub, b.walk).files, rest, b, s, p);
    }
  }

  lemma {:induction false} ContinueFrame(pl: Place, d: Disk, fs: Files, rest: seq<string>, b: Boot, s: string, p: Path)
    requires Apart(pl.old_, pl.new_) && s !in rest && Dropped(d, s) && Under(pl.new_ + [s], p) && SameAt(d.files, fs, p)
    ensures var d' := Continue(pl, d.(files := fs), rest, b).0;
            SameAt(d.files, d'.files, p) && Dropped(d', s)
    decreases |rest|, 1
  {
    var (d', alive) := Save(d.(files := fs), rest, b.saving(|rest|));
    if alive {
      ExecuteFrame(pl, d', rest, b, s, p);
    }
  }

  lemma NotInOld(pl: Place, s: string, sub: string, p: Path)
    requires Apart(pl.old_, pl.new_) && Under(pl.new_ + [s], p)
    ensures !Under(pl.old_ + [sub], p)
  {
    if Under(pl.old_ + [sub], p) {
      BelowBelow(pl.new_, s, p);
      BelowBelow(pl.old_, sub, p);
      Comparable(pl.old_, pl.new_, p);
    }
  }

  /** A sub-folder that is off the list is never looked at again: however often the
      launcher is started, a file arrives in the new place exactly if it had arrived
      by then. */
  lemma {:induction false} FailedSubIsSkipped(pl: Place, d: Disk, es: seq<Attempt>, s: string, p: Path)
    requires Apart(pl.old_, pl.new_) && Dropped(d, s) && Under(pl.new_ + [s], p)
    requires forall i | 0 <= i < |es| :: es[i].StartUp?
    ensures SameAt(d.files, Run(pl, d, es).files, p) && Dropped(Run(pl, d, es), s)
  {
    if es != [] {
      var n := |es| - 1;
      FailedSubIsSkipped(pl, d, es[..n], s, p);
      var before := Run(pl, d, es[..n]);
      if before.home == Old && before.marker.Saved? {
        ExecuteFrame(pl, before, before.marker.left, es[n].boot, s, p);
      }
    }
  }

  // -------------------------------------------------------------------------
  // A start at which everything works
  // -------------------------------------------------------------------------

  ghost predicate Smooth(b: Boot) {
    && SmoothWalk(b.walk)
    && (forall s :: !b.deleting(s).DiesKeeping?)
    && (forall n :: b.saving(n) == Written)
    && b.savingEnd == Written && b.switches
  }

  ghost predicate SmoothWalk(w: Luck) {
    forall p :: w.copy(p) == Works && w.enter(p) == Opened
  }

  /** No death, though anything may fail. */
  ghost predicate Survives(b: Boot) {
    && SurvivingWalk(b.walk)
    && (forall s :: !b.deleting(s).DiesKeeping?)
    && (forall n :: b.saving(n) == Written)
    && b.savingEnd == Written
  }

  ghost predicate SurvivingWalk(w: Luck) {
    forall p :: !w.copy(p).Dies? && w.enter(p) != DiesThere
  }

  lemma {:induction false} PlanLives(fs: Files, src: Path, dst: Path, w: Luck, h: nat)
    requires SurvivingWalk(w)
    ensures Deathless(Plan(fs, src, dst, w, h))
    decreases h, 1
  {
    EntriesLive(fs, src, dst, Listing(Names(fs, src)), w, h);
  }

  lemma {:induction false} EntriesLive(fs: Files, src: Path, dst: Path, names: seq<string>, w: Luck, h: nat)
    requires SurvivingWalk(w)
    ensures Deathless(PlanEntries(fs, src, dst, names, w, h))
    decreases h, 0, |names|
  {
    if names != [] {
      var k := |names| - 1;
      EntriesLive(fs, src, dst, names[..k], w, h);
      if src + [names[k]] !in fs && h > 0 {
        PlanLives(fs, src + [names[k]], dst + [names[k]], w, h - 1);
      }
    }
  }

  lemma MoveLives(pl: Place, fs: Files, s: string, w: Luck)
    requires SurvivingWalk(w)
    ensures !Moved(pl, fs, s, w).died
  {
    PlanLives(fs, pl.old_ + [s], pl.new_ + [s], w, pl.depth);
    PerformLives(Progress(fs, false, false), Plan(fs, pl.old_ + [s], pl.new_ + [s], w, pl.depth));
  }

  lemma SmoothMove(pl: Place, f0: Files, fs: Files, k: nat, w: Luck)
    requires Ready(pl, f0) && OldKept(pl, f0, fs) && k < |pl.moves| && SmoothWalk(w)
    ensures !Moved(pl, fs, pl.moves[k], w).died && !Moved(pl, fs, pl.moves[k], w).failed
    ensures OldKept(pl, f0, Moved(pl, fs, pl.moves[k], w).files)
  {
    MoveLives(pl, fs, pl.moves[k], w);
    MovedIsSound(pl, f0, fs, k, w);
    forall s, p | s in pl.moves && Under(pl.old_ + [s], p) ensures SameAt(f0, Moved(pl, fs, pl.moves[k], w).files, p) {
      assert SameBelow(f0, fs, pl.old_ + [s]);
      WalkKeepsOld(pl, fs, pl.moves[k], w, s, p);
    }
  }

  lemma SmoothDelete(pl: Place, f0: Files, fs: Files, sub: string, e: DeleteEvent)
    requires Ready(pl, f0) && OldKept(pl, f0, fs) && sub in pl.deletes
    ensures OldKept(pl, f0, DeleteBelow(fs, pl.old_ + [sub], e).0)
  {
    forall s, p | s in pl.moves && Under(pl.old_ + [s], p) ensures SameAt(f0, DeleteBelow(fs, pl.old_ + [sub], e).0, p) {
      assert SameBelow(f0, fs, pl.old_ + [s]);
      DeleteKeepsOld(pl, fs, sub, e, s, p);
    }
  }

  /** It comes to the end of the list, whatever sub-folders are still on it. */
  lemma {:induction false} SmoothFinishes(pl: Place, f0: Files, d: Disk, k: nat, b: Boot)
    requires Ready(pl, f0) && OldKept(pl, f0, d.files) && k <= |pl.Subs()| && Smooth(b)
    ensures Execute(pl, d, pl.Subs()[k..], b).1 == Finished
    decreases |pl.Subs()| - k
  {
    if k < |pl.Subs()| {
      var sub, rest := pl.Subs()[k], pl.Subs()[k + 1..];
      assert pl.Subs()[k..][0] == sub && pl.Subs()[k..][1..] == rest;
      if Names(d.files, pl.old_ + [sub]) == {} {
        SmoothFinishes(pl, f0, d.(marker := Saved(rest)), k + 1, b);
      } else if sub in pl.deletes {
        SmoothDelete(pl, f0, d.files, sub, b.deleting(sub));
        var (fs, alive) := DeleteBelow(d.files, pl.old_ + [sub], b.deleting(sub));
        SmoothFinishes(pl, f0, d.(files := fs, marker := Saved(rest)), k + 1, b);
      } else {
        assert sub == pl.moves[k];
        SmoothMove(pl, f0, d.files, k, b.walk);
        SmoothFinishes(pl, f0, d.(files := Moved(pl, d.files, sub, b.walk).files, marker := Saved(rest)), k + 1, b);
      }
    }
  }

  // -------------------------------------------------------------------------
  // Where the loop stands
  // -------------------------------------------------------------------------

  /** All files of the `n`-th sub-folder are in the new place. */
  ghost predicate AllThere(pl: Place, f0: Files, fs: Files, n: nat) {
    forall i | Upto(pl, f0, n) <= i < Upto(pl, f0, n + 1) && i < |AllJobs(pl, f0)| :: AllJobs(pl, f0)[i].to in fs
  }

  /** The new place of the `n`-th sub-folder is the same. */
  ghost predicate SameNew(pl: Place, a: Files, b: Files, n: nat)
    requires n < |pl.moves|
  {
    SameBelow(a, b, pl.new_ + [pl.moves[n]])
  }

  /** The loop that starts at `d` with the `j`-th sub-folder comes to the `k`-th one at
      `now`: those between are done, and the new places of the others are as they were. */
  ghost predicate ComesTo(pl: Place, f0: Files, d: Disk, j: nat, b: Boot, k: nat, now: Disk) {
    && j <= k <= |pl.moves| && now.home == d.home && now.marker == Saved(pl.Subs()[k..])
    && Execute(pl, d, pl.Subs()[j..], b) == Execute(pl, now, pl.Subs()[k..], b)
    && OldKept(pl, f0, now.files)
    && (forall n | 0 <= n < |pl.moves| && (n < j || k <= n) :: SameNew(pl, d.files, now.files, n))
    && (forall n | j <= n < k :: AllThere(pl, f0, now.files, n))
  }

  /** The loop does not get past the `k`-th sub-folder. */
  ghost predicate StopsAt(pl: Place, d: Disk, k: nat, b: Boot)
    requires k < |pl.moves|
  {
    var r := Moved(pl, d.files, pl.moves[k], b.walk);
    (Names(d.files, pl.old_ + [pl.moves[k]]) != {} && (r.died || r.failed)) || b.saving(|pl.Subs()[k + 1..]|) != Written
  }

  /** The disk with the `k`-th sub-folder done. */
  function Past(pl: Place, d: Disk, k: nat, b: Boot): Disk
    requires k < |pl.moves|
  {
    var s := pl.moves[k];
    Disk(if Names(d.files, pl.old_ + [s]) == {} then d.files else Moved(pl, d.files, s, b.walk).files, d.home, Saved(pl.Subs()[k + 1..]))
  }

  lemma PastIsNext(pl: Place, f0: Files, d: Disk, k: nat, b: Boot)
    requires Ready(pl, f0) && k < |pl.moves| && !StopsAt(pl, d, k, b)
    ensures Execute(pl, d, pl.Subs()[k..], b) == Execute(pl, Past(pl, d, k, b), pl.Subs()[k + 1..], b)
  {
    SubsFrom(pl, k);
    var rest := pl.Subs()[k + 1..];
    var fs := Past(pl, d, k, b).files;
    assert pl.moves[k] in pl.moves;
    assert Execute(pl, d, pl.Subs()[k..], b) == Continue(pl, d.(files := fs), rest, b);
    assert Save(d.(files := fs), rest, b.saving(|rest|)) == (Past(pl, d, k, b), true);
  }

  lemma MoveKeepsOld(pl: Place, f0: Files, fs: Files, k: nat, w: Luck)
    requires Ready(pl, f0) && OldKept(pl, f0, fs) && k < |pl.moves|
    ensures OldKept(pl, f0, Moved(pl, fs, pl.moves[k], w).files)
  {
    forall s, p | s in pl.moves && Under(pl.old_ + [s], p) ensures SameAt(f0, Moved(pl, fs, pl.moves[k], w).files, p) {
      assert SameBelow(f0, fs, pl.old_ + [s]);
      WalkKeepsOld(pl, fs, pl.moves[k], w, s, p);
    }
  }

  lemma MovesAreDistinct(pl: Place, f0: Files, n: nat, k: nat)
    requires Ready(pl, f0) && n < |pl.moves| && k < |pl.moves| && n != k
    ensures pl.moves[n] != pl.moves[k]
  {
  }

  lemma MoveKeepsOthers(pl: Place, f0: Files, fs: Files, k: nat, w: Luck, n: nat)
    requires Ready(pl, f0) && k < |pl.moves| && n < |pl.moves| && n != k
    ensures SameNew(pl, fs, Moved(pl, fs, pl.moves[k], w).files, n)
  {
    MovesAreDistinct(pl, f0, n, k);
    forall p | Under(pl.new_ + [pl.moves[n]], p) ensures SameAt(fs, Moved(pl, fs, pl.moves[k], w).files, p) {
      OtherSub(pl.new_, pl.moves[n], pl.moves[k], p);
      WalkOutside(fs, pl.old_ + [pl.moves[k]], pl.new_ + [pl.moves[k]], w, pl.depth, p);
    }
  }

  /** The `i`-th user file is one of the `n`-th sub-folder. */
  lemma JobOfNth(pl: Place, f0: Files, n: nat, i: nat)
    requires Ready(pl, f0) && n < |pl.moves| && Upto(pl, f0, n) <= i < Upto(pl, f0, n + 1)
    ensures i < |AllJobs(pl, f0)| && AllJobs(pl, f0)[i] in SubJobs(pl, f0, pl.moves[n])
    ensures var x := i - Upto(pl, f0, n); x < |SubJobs(pl, f0, pl.moves[n])| && AllJobs(pl, f0)[i] == SubJobs(pl, f0, pl.moves[n])[x]
    ensures Under(pl.old_ + [pl.moves[n]], AllJobs(pl, f0)[i].from) && Under(pl.new_ + [pl.moves[n]], AllJobs(pl, f0)[i].to)
  {
    var src, dst, x := pl.old_ + [pl.moves[n]], pl.new_ + [pl.moves[n]], i - Upto(pl, f0, n);
    JobsOfSub(pl, f0, n);
    assert AllJobs(pl, f0)[i] == AllJobs(pl, f0)[Upto(pl, f0, n)..Upto(pl, f0, n + 1)][x];
    JobsMirror(f0, src, dst, pl.depth);
    MirrorTarget(f0, src, dst, SubJobs(pl, f0, pl.moves[n])[x]);
  }

  lemma AllThereStays(pl: Place, f0: Files, a: Files, b: Files, n: nat)
    requires Ready(pl, f0) && n < |pl.moves| && SameNew(pl, a, b, n) && AllThere(pl, f0, a, n)
    ensures AllThere(pl, f0, b, n)
  {
    forall i | Upto(pl, f0, n) <= i < Upto(pl, f0, n + 1) && i < |AllJobs(pl, f0)| ensures AllJobs(pl, f0)[i].to in b {
      JobOfNth(pl, f0, n, i);
      assert SameAt(a, b, AllJobs(pl, f0)[i].to);
    }
  }

  /** A walk that returns no error has brought every file. */
  lemma WalkBrings(pl: Place, f0: Files, fs: Files, k: nat, w: Luck)
    requires Ready(pl, f0) && OldKept(pl, f0, fs) && k < |pl.moves|
    requires !Moved(pl, fs, pl.moves[k], w).died && !Moved(pl, fs, pl.moves[k], w).failed
    ensures AllThere(pl, f0, Moved(pl, fs, pl.moves[k], w).files, k)
  {
    MovedIsSound(pl, f0, fs, k, w);
    forall i | Upto(pl, f0, k) <= i < Upto(pl, f0, k + 1) && i < |AllJobs(pl, f0)|
      ensures AllJobs(pl, f0)[i].to in Moved(pl, fs, pl.moves[k], w).files
    {
      JobOfNth(pl, f0, k, i);
      SubIsDone(pl, f0, fs, k, i - Upto(pl, f0, k));
    }
  }

  lemma PastKeeps(pl: Place, f0: Files, d: Disk, k: nat, b: Boot)
    requires Ready(pl, f0) && OldKept(pl, f0, d.files) && k < |pl.moves| && !StopsAt(pl, d, k, b)
    ensures var fs := Past(pl, d, k, b).files;
            && OldKept(pl, f0, fs) && AllThere(pl, f0, fs, k)
            && forall n | 0 <= n < |pl.moves| && n != k :: SameNew(pl, d.files, fs, n)
  {
    if Names(d.files, pl.old_ + [pl.moves[k]]) == {} {
      NothingInSub(pl, f0, d.files, k);
    } else {
      MoveKeepsOld(pl, f0, d.files, k, b.walk);
      WalkBrings(pl, f0, d.files, k, b.walk);
      forall n | 0 <= n < |pl.moves| && n != k ensures SameNew(pl, d.files, Past(pl, d, k, b).files, n) {
        MoveKeepsOthers(pl, f0, d.files, k, b.walk, n);
      }
    }
  }

  lemma ComesPast(pl: Place, f0: Files, d: Disk, j: nat, b: Boot, k: nat, now: Disk)
    requires Ready(pl, f0) && k < |pl.moves| && ComesTo(pl, f0, d, j, b, k, now) && !StopsAt(pl, now, k, b)
    ensures ComesTo(pl, f0, d, j, b, k + 1, Past(pl, now, k, b))
  {
    var next := Past(pl, now, k, b);
    PastIsNext(pl, f0, now, k, b);
    PastKeeps(pl, f0, now, k, b);
    forall n | 0 <= n < |pl.moves| && (n < j || k + 1 <= n) ensures SameNew(pl, d.files, next.files, n) {
      SameNewChain(pl, d.files, now.files, next.files, n);
    }
    forall n | j <= n < k + 1 ensures AllThere(pl, f0, next.files, n) {
      if n < k {
        AllThereStays(pl, f0, now.files, next.files, n);
      }
    }
  }

  lemma SameNewChain(pl: Place, a: Files, b: Files, c: Files, n: nat)
    requires n < |pl.moves| && SameNew(pl, a, b, n) && SameNew(pl, b, c, n)
    ensures SameNew(pl, a, c, n)
  {
    forall p | Under(pl.new_ + [pl.moves[n]], p) ensures SameAt(a, c, p) {
      assert SameAt(a, b, p) && SameAt(b, c, p);
    }
  }

  /** How far the loop gets on its way to the `k`-th sub-folder. */
  lemma {:induction false} LoopComesTo(pl: Place, f0: Files, d: Disk, j: nat, b: Boot, k: nat) returns (m: nat, now: Disk)
    requires Ready(pl, f0) && OldKept(pl, f0, d.files) && j <= k <= |pl.moves| && d.marker == Saved(pl.Subs()[j..])
    ensures m <= k && ComesTo(pl, f0, d, j, b, m, now) && (m == k || StopsAt(pl, now, m, b))
    decreases k
  {
    if k == j {
      m, now := j, d;
    } else {
      m, now := LoopComesTo(pl, f0, d, j, b, k - 1);
      if m == k - 1 && !StopsAt(pl, now, m, b) {
        ComesPast(pl, f0, d, j, b, m, now);
        m, now := k, Past(pl, now, m, b);
      }
    }
  }

  /** Deleting reports no error. */
  lemma {:induction false} DeletingDoesNotFail(pl: Place, d: Disk, k: nat, b: Boot)
    requires |pl.moves| <= k <= |pl.Subs()|
    ensures Execute(pl, d, pl.Subs()[k..], b).1 != Failed
    decreases |pl.Subs()| - k
  {
    if k < |pl.Subs()| {
      SubsFrom(pl, k);
      var rest := pl.Subs()[k + 1..];
      DeletingDoesNotFail(pl, d.(marker := Saved(rest)), k + 1, b);
      DeletingDoesNotFail(pl, d.(files := DeleteBelow(d.files, pl.old_ + [pl.Subs()[k]], b.deleting(pl.Subs()[k])).0, marker := Saved(rest)), k + 1, b);
    }
  }

  // -------------------------------------------------------------------------
  // What an error costs
  // -------------------------------------------------------------------------

  /** The walk through the `k`-th sub-folder fails, and the error is saved. */
  ghost predicate FailsAt(pl: Place, d: Disk, k: nat, b: Boot) {
    && k < |pl.moves| && d.home == Old && d.marker == Saved(pl.Subs()[k..])
    && Names(d.files, pl.old_ + [pl.moves[k]]) != {}
    && !Moved(pl, d.files, pl.moves[k], b.walk).died && Moved(pl, d.files, pl.moves[k], b.walk).failed
    && b.saving(|pl.Subs()[k + 1..]|) == Written
  }

  lemma FailureLeaves(pl: Place, f0: Files, d: Disk, k: nat, b: Boot)
    requires Ready(pl, f0) && FailsAt(pl, d, k, b)
    ensures Execute(pl, d, pl.Subs()[k..], b) == (Disk(Moved(pl, d.files, pl.moves[k], b.walk).files, Old, Saved(pl.Subs()[k + 1..])), Failed)
  {
    SubsFrom(pl, k);
    assert pl.moves[k] in pl.moves;
  }

  lemma StopIsFailure(pl: Place, f0: Files, d: Disk, k: nat, b: Boot)
    requires Ready(pl, f0) && k < |pl.moves| && d.home == Old && d.marker == Saved(pl.Subs()[k..]) && StopsAt(pl, d, k, b)
    ensures Execute(pl, d, pl.Subs()[k..], b).1 == Died || FailsAt(pl, d, k, b)
  {
    SubsFrom(pl, k);
    assert pl.moves[k] in pl.moves;
  }

  /** The attempt `e` returns an error. */
  ghost predicate Fails(pl: Place, d: Disk, e: Attempt) {
    && d.home == Old
    && match e
       case Choose(b) => b.saving(|pl.Subs()|) == Written && Execute(pl, d.(marker := Saved(pl.Subs())), pl.Subs(), b).1 == Failed
       case StartUp(b) => d.marker.Saved? && Execute(pl, d, d.marker.left, b).1 == Failed
  }

  /** The attempt runs the loop from the `j`-th sub-folder on. */
  ghost predicate Begins(pl: Place, d: Disk, e: Attempt, j: nat) {
    && d.home == Old && j <= |pl.Subs()|
    && match e
       case Choose(b) => j == 0 && b.saving(|pl.Subs()|) == Written
       case StartUp(b) => d.marker == Saved(pl.Subs()[j..])
  }

  function AtBegin(pl: Place, d: Disk, j: nat): Disk
    requires j <= |pl.Subs()|
  {
    d.(marker := Saved(pl.Subs()[j..]))
  }

  lemma BeginsLoop(pl: Place, d: Disk, e: Attempt, j: nat)
    requires Begins(pl, d, e, j)
    ensures Tried(pl, d, e) == Conclude(Execute(pl, AtBegin(pl, d, j), pl.Subs()[j..], e.boot), e.boot)
    ensures Fails(pl, d, e) <==> Execute(pl, AtBegin(pl, d, j), pl.Subs()[j..], e.boot).1 == Failed
  {
    assert pl.Subs()[0..] == pl.Subs();
  }

  lemma SomeBegin(pl: Place, d: Disk, e: Attempt) returns (j: nat)
    requires d.home == Old && Listed(pl, d) && if e.Choose? then e.boot.saving(|pl.Subs()|) == Written else d.marker.Saved?
    ensures Begins(pl, d, e, j)
  {
    if e.Choose? {
      j := 0;
    } else {
      j :| j <= |pl.Subs()| && d.marker.left == pl.Subs()[j..];
    }
  }

  /** The attempt returned the error of the `k`-th sub-folder, which is off the list. */
  ghost predicate FailedIn(pl: Place, d: Disk, e: Attempt, k: nat) {
    exists dk :: FailsAt(pl, dk, k, e.boot) && FailedWith(pl, d, e, k, dk)
  }

  ghost predicate FailedWith(pl: Place, d: Disk, e: Attempt, k: nat, dk: Disk)
    requires k < |pl.moves|
  {
    && SameNew(pl, d.files, dk.files, k)
    && Tried(pl, d, e) == Disk(Moved(pl, dk.files, pl.moves[k], e.boot.walk).files, Old, Saved(pl.Subs()[k + 1..]))
  }

  /** Every failed attempt failed in one of the user's sub-folders. */
  lemma FailureInSub(pl: Place, f0: Files, d: Disk, e: Attempt) returns (j: nat, k: nat, dk: Disk)
    requires Ready(pl, f0) && OldKept(pl, f0, d.files) && Listed(pl, d) && Fails(pl, d, e)
    ensures Begins(pl, d, e, j) && ComesTo(pl, f0, AtBegin(pl, d, j), j, e.boot, k, dk)
    ensures FailsAt(pl, dk, k, e.boot) && FailedWith(pl, d, e, k, dk)
  {
    j := SomeBegin(pl, d, e);
    BeginsLoop(pl, d, e, j);
    var start := AtBegin(pl, d, j);
    if j > |pl.moves| {
      DeletingDoesNotFail(pl, start, j, e.boot);
      assert false;
    }
    k, dk := LoopComesTo(pl, f0, start, j, e.boot, |pl.moves|);
    if k == |pl.moves| {
      DeletingDoesNotFail(pl, dk, k, e.boot);
      assert false;
    }
    StopIsFailure(pl, f0, dk, k, e.boot);
    FailureLeaves(pl, f0, dk, k, e.boot);
  }

  lemma SmoothPasses(pl: Place, f0: Files, d: Disk, k: nat, b: Boot)
    requires Ready(pl, f0) && OldKept(pl, f0, d.files) && k < |pl.moves| && Smooth(b)
    ensures !StopsAt(pl, d, k, b)
  {
    SmoothMove(pl, f0, d.files, k, b.walk);
  }

  /** What a start at which everything works leaves: the sub-folders on its list are
      there, and the others are as they were. */
  lemma SmoothLeaves(pl: Place, f0: Files, d: Disk, k: nat, b: Boot)
    requires Ready(pl, f0) && OldKept(pl, f0, d.files) && Smooth(b) && d.home == Old
    requires k <= |pl.moves| && d.marker == Saved(pl.Subs()[k..])
    ensures var end := Resume(pl, d, b);
            && end.home == New
            && (forall n | 0 <= n < k :: SameNew(pl, d.files, end.files, n))
            && forall n | k <= n < |pl.moves| :: AllThere(pl, f0, end.files, n)
  {
    SmoothFinishes(pl, f0, d, k, b);
    ExecuteEnds(pl, d, pl.Subs()[k..], b);
    var m, now := LoopComesTo(pl, f0, d, k, b, |pl.moves|);
    if m < |pl.moves| {
      SmoothPasses(pl, f0, now, m, b);
      assert false;
    }
    var end := Resume(pl, d, b);
    forall n | 0 <= n < |pl.moves| ensures SameNew(pl, now.files, end.files, n) {
      DeletingKeepsNew(pl, f0, now, b, n);
    }
    forall n | 0 <= n < k ensures SameNew(pl, d.files, end.files, n) {
      SameNewChain(pl, d.files, now.files, end.files, n);
    }
    forall n | k <= n < |pl.moves| ensures AllThere(pl, f0, end.files, n) {
      AllThereStays(pl, f0, now.files, end.files, n);
    }
  }

  lemma DeletingKeepsNew(pl: Place, f0: Files, d: Disk, b: Boot, n: nat)
    requires Ready(pl, f0) && n < |pl.moves| && d.marker == Saved(pl.Subs()[|pl.moves|..])
    ensures SameNew(pl, d.files, Execute(pl, d, pl.Subs()[|pl.moves|..], b).0.files, n)
  {
    OnList(pl, f0, |pl.moves|, n);
    forall p | Under(pl.new_ + [pl.moves[n]], p) ensures SameAt(d.files, Execute(pl, d, pl.Subs()[|pl.moves|..], b).0.files, p) {
      ExecuteFrame(pl, d, pl.Subs()[|pl.moves|..], b, pl.moves[n], p);
    }
  }

  lemma NotAgain(pl: Place, f0: Files, k: nat)
    requires Ready(pl, f0) && k < |pl.moves|
    ensures pl.moves[k] !in pl.Subs()[k + 1..]
  {
    var s, rest := pl.moves[k], pl.Subs()[k + 1..];
    forall i | 0 <= i < |rest| ensures rest[i] != s {
      assert rest[i] == pl.Subs()[k + 1 + i];
      assert s in pl.moves;
      if k + 1 + i >= |pl.moves| {
        assert rest[i] == pl.deletes[k + 1 + i - |pl.moves|];
      }
    }
  }

  lemma OnList(pl: Place, f0: Files, j: nat, n: nat)
    requires Ready(pl, f0) && n < |pl.moves| && j <= |pl.Subs()|
    ensures pl.moves[n] in pl.Subs()[j..] <==> j <= n
  {
    if j <= n {
      assert pl.Subs()[j..][n - j] == pl.moves[n];
    } else {
      NotAgain(pl, f0, n);
      assert pl.Subs()[j..] == pl.Subs()[n + 1..][j - n - 1..];
    }
  }

  /** After any run, when an attempt returns an error, it is that of one sub-folder. The
      next start at which everything works takes the new folder all the same, and does
      not copy what is missing: a file of that sub-folder is in the new place if and only
      if it was there when the error was returned. */
  lemma FailureThenRestart(pl: Place, d: Disk, es: seq<Attempt>, e: Attempt, b2: Boot)
    requires Ready(pl, d.files) && !d.marker.Saved? && Fails(pl, Run(pl, d, es), e) && Smooth(b2)
    ensures var before := Run(pl, d, es);
            var failed := Tried(pl, before, e);
            var end := Resume(pl, failed, b2);
            && failed.home == Old && end.home == New
            && exists k: nat :: k < |pl.moves| && FailedIn(pl, before, e, k) && SameNew(pl, failed.files, end.files, k)
  {
    var before := Run(pl, d, es);
    RunOnTheWay(pl, d, es);
    var j, k, dk := FailureInSub(pl, d.files, before, e);
    MoveKeepsOld(pl, d.files, dk.files, k, e.boot.walk);
    SmoothLeaves(pl, d.files, Tried(pl, before, e), k + 1, b2);
    assert FailedIn(pl, before, e, k);
  }

  /** The other sub-folders do not suffer: those on the list of the failed attempt
      arrive with every file, and each is genuine; those that were off the list already
      stay as they are. */
  lemma OtherSubsArrive(pl: Place, d: Disk, es: seq<Attempt>, e: Attempt, k: nat, b2: Boot, n: nat, i: nat)
    requires Ready(pl, d.files) && !d.marker.Saved? && Fails(pl, Run(pl, d, es), e) && Smooth(b2)
    requires FailedIn(pl, Run(pl, d, es), e, k)
    requires n < |pl.moves| && n != k && Upto(pl, d.files, n) <= i < Upto(pl, d.files, n + 1) && i < |AllJobs(pl, d.files)|
    ensures var before := Run(pl, d, es);
            var end := Resume(pl, Tried(pl, before, e), b2);
            if e.StartUp? && before.marker.Saved? && pl.moves[n] !in before.marker.left
            then SameAt(before.files, end.files, AllJobs(pl, d.files)[i].to)
            else Genuine(pl, d.files, end.files, i)
  {
    var before := Run(pl, d, es);
    var failed := Tried(pl, before, e);
    RunOnTheWay(pl, d, es);
    AttemptOnTheWay(pl, d.files, before, e);
    AttemptOnTheWay(pl, d.files, failed, StartUp(b2));
    var j := OthersThere(pl, d.files, before, e, k, b2, n);
    OnList(pl, d.files, j, n);
    JobOfNth(pl, d.files, n, i);
    if n >= j {
      AllThereIsGenuine(pl, d.files, Resume(pl, failed, b2).files, n, i);
    } else {
      assert e.StartUp?;
      assert SameNew(pl, before.files, Resume(pl, failed, b2).files, n);
    }
  }

  lemma OthersThere(pl: Place, f0: Files, d: Disk, e: Attempt, k: nat, b2: Boot, n: nat) returns (j: nat)
    requires Ready(pl, f0) && OldKept(pl, f0, d.files) && Listed(pl, d) && Fails(pl, d, e) && Smooth(b2)
    requires FailedIn(pl, d, e, k) && n < |pl.moves| && n != k
    ensures Begins(pl, d, e, j)
    ensures var end := Resume(pl, Tried(pl, d, e), b2);
            if n < j then SameNew(pl, d.files, end.files, n) else AllThere(pl, f0, end.files, n)
  {
    var k2, dk;
    j, k2, dk := FailureInSub(pl, f0, d, e);
    SameFailure(pl, d, e, k, k2, dk);
    var failed := Tried(pl, d, e);
    MoveKeepsOld(pl, f0, dk.files, k, e.boot.walk);
    SmoothLeaves(pl, f0, failed, k + 1, b2);
    if n < k {
      MoveKeepsOthers(pl, f0, dk.files, k, e.boot.walk, n);
      SameNewChain(pl, dk.files, failed.files, Resume(pl, failed, b2).files, n);
      if n < j {
        SameNewChain(pl, d.files, dk.files, Resume(pl, failed, b2).files, n);
      } else {
        AllThereStays(pl, f0, dk.files, Resume(pl, failed, b2).files, n);
      }
    }
  }

  lemma SameFailure(pl: Place, d: Disk, e: Attempt, k: nat, k2: nat, dk: Disk)
    requires FailedIn(pl, d, e, k) && FailsAt(pl, dk, k2, e.boot) && FailedWith(pl, d, e, k2, dk)
    ensures k == k2
  {
    assert |pl.Subs()[k + 1..]| == |pl.Subs()[k2 + 1..]|;
  }

  /** Where all files of a sub-folder are there, none of them is wrong. */
  lemma AllThereIsGenuine(pl: Place, f0: Files, now: Files, n: nat, i: nat)
    requires Ready(pl, f0) && OnTheWay(pl, f0, now) && n < |pl.moves| && AllThere(pl, f0, now, n)
    requires Upto(pl, f0, n) <= i < Upto(pl, f0, n + 1) && i < |AllJobs(pl, f0)|
    ensures Genuine(pl, f0, now, i)
  {
    if !Genuine(pl, f0, now, i) {
      var s, ps := ChainBehind(pl, f0, now, i);
      JobOfNth(pl, f0, n, i);
      BelowBelow(pl.old_, s, AllJobs(pl, f0)[i].from);
      BelowBelow(pl.old_, pl.moves[n], AllJobs(pl, f0)[i].from);
      FileIsThere(pl, f0, now, n, ps[0]);
      assert false;
    }
  }

  lemma FileIsThere(pl: Place, f0: Files, now: Files, n: nat, p: Path)
    requires Ready(pl, f0) && n < |pl.moves| && AllThere(pl, f0, now, n) && UserFile(pl, f0, pl.moves[n], p)
    ensures Target(pl, p) in now
  {
    var m := JobInSub(pl, f0, pl.moves[n], p);
    JobsOfSub(pl, f0, n);
    var i := Upto(pl, f0, n) + m;
    JobOfNth(pl, f0, n, i);
    JobIsUserFile(pl, f0, i);
  }
}
