/**
 * The cached folders in the migration (backend/data_migration.go): they are deleted
 * in the old place, and nothing of them is copied.
 */
module MigrationCache {
  import opened MigrationCopy
  import opened MigrationTree
  import opened MigrationWalk
  import opened Migration
  import opened MigrationAnyRun

  /** The deletion of `s` leaves `p`, though the launcher lives on. */
  predicate LeavesFile(b: Boot, s: string, p: Path) {
    b.deleting(s).Partly? && p in b.deleting(s).kept
  }

  /** What the loop may do to a cached file of the old place. */
  ghost predicate CachedAfter(b: Boot, s: string, p: Path, before: Files, after: Files) {
    && (p in after ==> p in before && after[p] == before[p])
    && (LeavesFile(b, s, p) && p in before ==> p in after)
  }

  lemma CachedAgain(b: Boot, s: string, p: Path, x: Files, y: Files, z: Files)
    requires CachedAfter(b, s, p, x, y) && CachedAfter(b, s, p, y, z)
    ensures CachedAfter(b, s, p, x, z)
  {
  }

  lemma WalkKeepsCached(pl: Place, fs: Files, sub: string, b: Boot, s: string, p: Path)
    requires Apart(pl.old_, pl.new_) && Under(pl.old_ + [s], p)
    ensures CachedAfter(b, s, p, fs, Moved(pl, fs, sub, b.walk).files)
  {
    WalkKeepsOld(pl, fs, sub, b.walk, s, p);
  }

  lemma DeleteKeepsCached(pl: Place, fs: Files, sub: string, b: Boot, s: string, p: Path)
    requires Under(pl.old_ + [s], p)
    ensures CachedAfter(b, s, p, fs, DeleteBelow(fs, pl.old_ + [sub], b.deleting(sub)).0)
  {
    if sub != s {
      DeleteKeepsOld(pl, fs, sub, b.deleting(sub), s, p);
    }
  }

  /** A cached file does not come back, and what the deletion left stays. */
  lemma {:induction false} ExecuteCached(pl: Place, d: Disk, left: seq<string>, b: Boot, s: string, p: Path)
    requires Apart(pl.old_, pl.new_) && Under(pl.old_ + [s], p)
    ensures CachedAfter(b, s, p, d.files, Execute(pl, d, left, b).0.files)
    decreases |left|, 0
  {
    if left != [] {
      var sub, rest := left[0], left[1..];
      ContinueCached(pl, d, d.files, rest, b, s, p);
      if sub in pl.deletes {
        DeleteKeepsCached(pl, d.files, sub, b, s, p);
        ContinueCached(pl, d, DeleteBelow(d.files, pl.old_ + [sub], b.deleting(sub)).0, rest, b, s, p);
      } else {
        WalkKeepsCached(pl, d.files, sub, b, s, p);
        ContinueCached(pl, d, Moved(pl, d.files, sub, b.walk).files, rest, b, s, p);
      }
    }
  }

  lemma {:induction false} ContinueCached(pl: Place, d: Disk, fs: Files, rest: seq<string>, b: Boot, s: string, p: Path)
    requires Apart(pl.old_, pl.new_) && Under(pl.old_ + [s], p) && CachedAfter(b, s, p, d.files, fs)
    ensures CachedAfter(b, s, p, d.files, Continue(pl, d.(files := fs), rest, b).0.files)
    decreases |rest|, 1
  {
    var (d', alive) := Save(d.(files := fs), rest, b.saving(|rest|));
    ExecuteCached(pl, d', rest, b, s, p);
  }

  /** `s` is off the list that was saved last. */
  predicate OffList(d: Disk, s: string) {
    d.marker.Saved? && s !in d.marker.left
  }

  /** A cached folder that was on the list and is off it: a file of it is still there
      exactly if the deletion left it. */
  lemma {:induction false} CachedGoes(pl: Place, d: Disk, left: seq<string>, b: Boot, s: string, p: Path)
    requires Apart(pl.old_, pl.new_) && s in pl.deletes && Under(pl.old_ + [s], p)
    requires d.marker == Saved(left) && s in left && OffList(Execute(pl, d, left, b).0, s)
    ensures var after := Execute(pl, d, left, b).0.files; p in after <==> p in d.files && LeavesFile(b, s, p)
    decreases |left|
  {
    var sub, rest := left[0], left[1..];
    if sub == s {
      TurnOfCached(pl, d, left, b, s, p);
    } else {
      assert s in rest;
      var fs := if Names(d.files, pl.old_ + [sub]) == {} then d.files
                else if sub in pl.deletes then DeleteBelow(d.files, pl.old_ + [sub], b.deleting(sub)).0
                else Moved(pl, d.files, sub, b.walk).files;
      WalkKeepsOld(pl, d.files, sub, b.walk, s, p);
      DeleteKeepsOld(pl, d.files, sub, b.deleting(sub), s, p);
      assert Execute(pl, d, left, b) == Continue(pl, d.(files := fs), rest, b);
      CachedGoes(pl, d.(files := fs, marker := Saved(rest)), rest, b, s, p);
    }
  }

  lemma NothingNamed(fs: Files, dir: Path, p: Path)
    requires Names(fs, dir) == {} && Under(dir, p)
    ensures p !in fs
  {
    assert p[|dir|] !in Names(fs, dir);
  }

  lemma TurnOfCached(pl: Place, d: Disk, left: seq<string>, b: Boot, s: string, p: Path)
    requires Apart(pl.old_, pl.new_) && s in pl.deletes && Under(pl.old_ + [s], p)
    requires left != [] && left[0] == s && d.marker == Saved(left) && OffList(Execute(pl, d, left, b).0, s)
    ensures var after := Execute(pl, d, left, b).0.files; p in after <==> p in d.files && LeavesFile(b, s, p)
  {
    var rest := left[1..];
    if Names(d.files, pl.old_ + [s]) == {} {
      NothingNamed(d.files, pl.old_ + [s], p);
      ContinueCached(pl, d, d.files, rest, b, s, p);
    } else {
      var fs := DeleteBelow(d.files, pl.old_ + [s], b.deleting(s)).0;
      ContinueCached(pl, d.(files := fs), fs, rest, b, s, p);
      assert p in fs <==> p in d.files && LeavesFile(b, s, p);
    }
  }

  /** The list an attempt works on. */
  function ListOf(pl: Place, d: Disk, e: Attempt): seq<string> {
    if e.Choose? then pl.Subs() else if d.marker.Saved? then d.marker.left else []
  }

  /** After any attempt, however it ends: a file below a cached folder that was on its
      list and is off it now is there exactly if it was there before and the deletion
      left it. */
  lemma CachedFilesGoExactly(pl: Place, d: Disk, e: Attempt, s: string, p: Path)
    requires Apart(pl.old_, pl.new_) && s in pl.deletes && Under(pl.old_ + [s], p)
    requires d.home == Old && s in ListOf(pl, d, e) && OffList(Tried(pl, d, e), s)
    requires e.Choose? ==> e.boot.saving(|pl.Subs()|) == Written
    ensures p in Tried(pl, d, e).files
            <==> p in d.files && e.boot.deleting(s).Partly? && p in e.boot.deleting(s).kept
  {
    CachedGoes(pl, d.(marker := Saved(ListOf(pl, d, e))), ListOf(pl, d, e), e.boot, s, p);
  }

  // -------------------------------------------------------------------------
  // Over a whole run
  // -------------------------------------------------------------------------

  /** Deletions work, or the launcher dies in them. */
  ghost predicate Deletes(es: seq<Attempt>) {
    forall i, s | 0 <= i < |es| :: !es[i].boot.deleting(s).Partly?
  }

  ghost predicate NothingBelow(fs: Files, dir: Path) {
    forall p | Under(dir, p) :: p !in fs
  }

  lemma AttemptDeletes(pl: Place, d: Disk, e: Attempt, s: string)
    requires Apart(pl.old_, pl.new_) && s in pl.deletes && forall x :: !e.boot.deleting(x).Partly?
    requires OffList(d, s) ==> NothingBelow(d.files, pl.old_ + [s])
    ensures OffList(Tried(pl, d, e), s) ==> NothingBelow(Tried(pl, d, e).files, pl.old_ + [s])
  {
    if d.home == Old && OffList(Tried(pl, d, e), s) {
      forall p | Under(pl.old_ + [s], p) ensures p !in Tried(pl, d, e).files {
        if e.Choose? && e.boot.saving(|pl.Subs()|) != Written {
          assert p !in d.files;
        } else if s in ListOf(pl, d, e) {
          CachedFilesGoExactly(pl, d, e, s, p);
        } else {
          assert e.StartUp?;
          ExecuteCached(pl, d, ListOf(pl, d, e), e.boot, s, p);
        }
      }
    }
  }

  lemma {:induction false} RunDeletes(pl: Place, d: Disk, es: seq<Attempt>, s: string)
    requires Apart(pl.old_, pl.new_) && s in pl.deletes && !d.marker.Saved? && Deletes(es)
    ensures OffList(Run(pl, d, es), s) ==> NothingBelow(Run(pl, d, es).files, pl.old_ + [s])
  {
    if es != [] {
      var n := |es| - 1;
      RunDeletes(pl, d, es[..n], s);
      AttemptDeletes(pl, Run(pl, d, es[..n]), es[n], s);
    }
  }

  /** The program's cached folders: when the launcher has taken the new folder, after any
      run with crashes and errors, nothing is left of them in the old place, unless a
      deletion itself left something. */
  lemma NoCacheIsLeft(old_: Path, new_: Path, depth: nat, d: Disk, es: seq<Attempt>, s: string, p: Path)
    requires Apart(old_, new_) && d.home == Old && !d.marker.Saved? && Deletes(es)
    requires s in {"minecraft", "java", "cache", "fonts"} && Under(old_ + [s], p)
    ensures var end := Run(ProgramPlace(old_, new_, depth), d, es); end.home == New ==> p !in end.files
  {
    var pl := ProgramPlace(old_, new_, depth);
    assert s in DELETE_SUBS by {
      assert DELETE_SUBS[0] == "minecraft" && DELETE_SUBS[1] == "java" && DELETE_SUBS[2] == "cache" && DELETE_SUBS[3] == "fonts";
    }
    RunDeletes(pl, d, es, s);
    MarkerStays(pl, d, es);
  }

  /** The program's user data: in every run with crashes only it is in the new folder when
      the launcher has taken it. */
  lemma UserDataArrives(old_: Path, new_: Path, depth: nat, d: Disk, es: seq<Attempt>, s: string, p: Path)
    requires Ready(ProgramPlace(old_, new_, depth), d.files) && d.home == Old && !d.marker.Saved? && OnlyCrashes(es)
    requires s in {"installations", "skins", "skin-snapshots"} && p in d.files && Under(old_ + [s], p)
    ensures var end, t := Run(ProgramPlace(old_, new_, depth), d, es), new_ + p[|old_|..];
            && p in end.files && end.files[p] == d.files[p]
            && (end.home == New ==>
                  t in end.files && (end.files[t] == d.files[p] || (t in d.files && end.files[t] == d.files[t])))
  {
    assert s in MOVE_SUBS by {
      assert MOVE_SUBS[0] == "installations" && MOVE_SUBS[1] == "skins" && MOVE_SUBS[2] == "skin-snapshots";
    }
    UserFilesArrive(ProgramPlace(old_, new_, depth), d, es, s, p);
  }
}
