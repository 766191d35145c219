/**
 * The program of the migration (backend/data_migration.go): the loops and recursive
 * calls that change the disk step by step, each shown to do what the functions of
 * `MigrationCopy`, `MigrationTree` and `Migration` say.
 */
module MigrationProgram {
  import opened Common
  import opened MigrationCopy
  import opened MigrationTree
  import opened MigrationWalk
  import opened Migration

  // -------------------------------------------------------------------------
  // What the loops rely on
  // -------------------------------------------------------------------------

  /** A walk that has met an error goes on like one that has not. */
  lemma {:induction false} ErrorsAddUp(r: Progress, plan: seq<Action>)
    ensures Perform(r, plan) == Perform(r.(failed := false), plan).(failed := r.failed || Perform(r.(failed := false), plan).failed)
  {
    if plan != [] {
      ErrorsAddUp(r, plan[..|plan| - 1]);
    }
  }

  /** The entries from the first to the `k`-th. */
  lemma OneEntryMore(fs: Files, src: Path, dst: Path, names: seq<string>, k: nat, w: Luck, h: nat, start: Progress)
    requires k < |names|
    ensures Perform(start, PlanEntries(fs, src, dst, names[..k + 1], w, h))
         == var before := Perform(start, PlanEntries(fs, src, dst, names[..k], w, h));
            if before.died then before else Perform(before, PlanEntry(fs, src, dst, names[k], w, h))
  {
    assert names[..k + 1][..k] == names[..k];
    PerformConcat(start, PlanEntries(fs, src, dst, names[..k], w, h), PlanEntry(fs, src, dst, names[k], w, h));
  }

  /** Once the launcher is dead, the other entries change nothing. */
  lemma {:induction false} DeadEntries(fs: Files, src: Path, dst: Path, names: seq<string>, k: nat, w: Luck, h: nat, start: Progress)
    requires k <= |names| && Perform(start, PlanEntries(fs, src, dst, names[..k], w, h)).died
    ensures Perform(start, PlanEntries(fs, src, dst, names, w, h)) == Perform(start, PlanEntries(fs, src, dst, names[..k], w, h))
    decreases |names| - k
  {
    if k == |names| {
      assert names[..k] == names;
    } else {
      OneEntryMore(fs, src, dst, names, k, w, h, start);
      DeadEntries(fs, src, dst, names, k + 1, w, h, start);
    }
  }

  /** The entries done so far have not touched the source tree. */
  lemma EntriesKeepSource(fs: Files, src: Path, dst: Path, names: seq<string>, w: Luck, h: nat)
    requires Apart(src, dst)
    ensures SameBelow(fs, Perform(Progress(fs, false, false), PlanEntries(fs, src, dst, names, w, h)).files, src)
  {
    EntriesGoBelow(fs, src, dst, names, w, h);
    forall p | Under(src, p)
      ensures SameAt(fs, Perform(Progress(fs, false, false), PlanEntries(fs, src, dst, names, w, h)).files, p)
    {
      UnderOne(src, dst, p);
      PerformOutside(Progress(fs, false, false), PlanEntries(fs, src, dst, names, w, h), dst, p);
    }
  }

  /** One entry, performed on the disk as it is by then. */
  lemma EntryNow(fs: Files, now: Files, src: Path, dst: Path, name: string, w: Luck, h: nat)
    requires SameBelow(fs, now, src)
    ensures src + [name] in fs <==> src + [name] in now
    ensures PlanEntry(fs, src, dst, name, w, h) == PlanEntry(now, src, dst, name, w, h)
  {
    assert Under(src, src + [name]);
    assert SameAt(fs, now, src + [name]);
    EntryFrame(fs, now, src, dst, name, w, h);
  }

  /** `now` is what the first `k` entries have made of the disk `fs`. */
  ghost predicate After(fs: Files, src: Path, dst: Path, names: seq<string>, k: nat, w: Luck, h: nat, now: Progress) {
    k <= |names| && now == Perform(Progress(fs, false, false), PlanEntries(fs, src, dst, names[..k], w, h))
  }

  lemma NotOpened(fs: Files, src: Path, dst: Path, w: Luck, h: nat)
    requires w.enter(src) != Opened
    ensures Perform(Progress(fs, false, false), Plan(fs, src, dst, w, h)) == Progress(fs, w.enter(src).DiesThere?, w.enter(src).Unreadable?)
  {
    PerformOne(Progress(fs, false, false), Death);
    PerformOne(Progress(fs, false, false), Trouble);
  }

  lemma AfterNone(fs: Files, src: Path, dst: Path, names: seq<string>, w: Luck, h: nat)
    ensures After(fs, src, dst, names, 0, w, h, Progress(fs, false, false))
  {
    assert names[..0] == [];
  }

  lemma AfterAll(fs: Files, src: Path, dst: Path, k: nat, w: Luck, h: nat, now: Progress)
    requires w.enter(src) == Opened && After(fs, src, dst, Listing(Names(fs, src)), k, w, h, now)
    requires now.died || k == |Listing(Names(fs, src))|
    ensures now == Perform(Progress(fs, false, false), Plan(fs, src, dst, w, h))
  {
    var names := Listing(Names(fs, src));
    if now.died {
      DeadEntries(fs, src, dst, names, k, w, h, Progress(fs, false, false));
    } else {
      assert names[..k] == names;
    }
  }

  lemma EntryAfter(fs: Files, src: Path, dst: Path, names: seq<string>, k: nat, w: Luck, h: nat, now: Progress)
    requires Apart(src, dst) && After(fs, src, dst, names, k, w, h, now) && !now.died && k < |names|
    ensures After(fs, src, dst, names, k + 1, w, h, Perform(now, PlanEntry(now.files, src, dst, names[k], w, h)))
  {
    OneEntryMore(fs, src, dst, names, k, w, h, Progress(fs, false, false));
    EntriesKeepSource(fs, src, dst, names[..k], w, h);
    EntryNow(fs, now.files, src, dst, names[k], w, h);
  }

  /** One more entry; `r` is what it does on its own. */
  lemma NextAfter(fs: Files, src: Path, dst: Path, names: seq<string>, k: nat, w: Luck, h: nat, now: Progress, r: Progress)
    requires Apart(src, dst) && After(fs, src, dst, names, k, w, h, now) && !now.died && k < |names|
    requires r == Perform(Progress(now.files, false, false), PlanEntry(now.files, src, dst, names[k], w, h))
    ensures After(fs, src, dst, names, k + 1, w, h, Progress(r.files, r.died, now.failed || r.failed))
  {
    EntryAfter(fs, src, dst, names, k, w, h, now);
    ErrorsAddUp(now, PlanEntry(now.files, src, dst, names[k], w, h));
  }

  // -------------------------------------------------------------------------
  // The program
  // -------------------------------------------------------------------------

  class Mover {
    var files: Files
    var home: Side
    var marker: Marker

    ghost function Contents(): Disk
      reads this
    {
      Disk(files, home, marker)
    }

    constructor (d: Disk)
      ensures Contents() == d
    {
      files, home, marker := d.files, d.home, d.marker;
    }

    /** `copyFileWithProgress`: create the temporary file, fill it, rename it. */
    method CopyFileWithProgress(j: Job, how: Event) returns (failed: bool, alive: bool)
      requires j.to != []
      modifies this`files
      ensures Progress(files, !alive, failed) == CopyFile(old(files), j, how)
      ensures failed <==> j.from !in old(files) || how == Early || how == Late
      ensures alive <==> j.from !in old(files) || !how.Dies?
      ensures alive && !failed ==> files == (old(files) - {Tmp(j.to)})[j.to := old(files[j.from])]
      ensures forall p | p != j.to && p != Tmp(j.to) :: SameAt(old(files), files, p)
      ensures alive && failed ==> SameAt(old(files), files, j.to)
      ensures j.from in old(files) && how == Late ==> Tmp(j.to) !in files
      ensures !alive ==> files == if how.part.Some? then old(files)[Tmp(j.to) := how.part.value] else old(files)
    {
      if j.from !in files || how == Early || how == Dies(None) {
        return j.from !in files || how == Early, j.from !in files || how == Early;
      }
      var content, tmp := files[j.from], Tmp(j.to);
      var written := match how case Dies(Some(part)) => part case _ => content;
      files := files[tmp := written];
      match how {
        case Dies(_) =>
          return false, false;
        case Late =>
          files := files - {tmp};
          return true, true;
        case Works =>
          files := (files - {tmp})[j.to := files[tmp]];
          return false, true;
      }
    }

    /** `moveTreeWithProgress`: the entries in the order of their names; the first
        error is remembered. `h` bounds the depth. */
    method MoveTreeWithProgress(src: Path, dst: Path, w: Luck, h: nat) returns (failed: bool, alive: bool)
      requires Apart(src, dst)
      modifies this`files
      ensures Progress(files, !alive, failed) == Perform(Progress(old(files), false, false), Plan(old(files), src, dst, w, h))
      decreases h, 1
    {
      ghost var start := Progress(files, false, false);
      if w.enter(src) != Opened {
        NotOpened(files, src, dst, w, h);
        return w.enter(src).Unreadable?, w.enter(src).Unreadable?;
      }
      var entries := Listing(Names(files, src));
      failed, alive := false, true;
      AfterNone(files, src, dst, entries, w, h);
      var i := 0;
      while i < |entries| && alive
        invariant 0 <= i <= |entries|
        invariant After(start.files, src, dst, entries, i, w, h, Progress(files, !alive, failed))
        decreases |entries| - i
      {
        ghost var before := Progress(files, false, failed);
        var bad;
        bad, alive := MoveEntry(src, dst, entries[i], w, h);
        NextAfter(start.files, src, dst, entries, i, w, h, before, Progress(files, !alive, bad));
        failed, i := failed || bad, i + 1;
        assert After(start.files, src, dst, entries, i, w, h, Progress(files, !alive, failed));
      }
      AfterAll(start.files, src, dst, i, w, h, Progress(files, !alive, failed));
    }

    /** The body of that loop: one directory or file. */
    method MoveEntry(src: Path, dst: Path, name: string, w: Luck, h: nat) returns (failed: bool, alive: bool)
      requires Apart(src, dst)
      modifies this`files
      ensures Progress(files, !alive, failed) == Perform(Progress(old(files), false, false), PlanEntry(old(files), src, dst, name, w, h))
      decreases h, 0
    {
      var from, to := src + [name], dst + [name];
      failed, alive := false, true;
      if from !in files {
        if h > 0 {
          BelowApart(src, dst, name);
          failed, alive := MoveTreeWithProgress(from, to, w, h - 1);
        }
        return;
      }
      PerformOne(Progress(files, false, false), Copy(Job(from, to), w.copy(from)));
      if to !in files {
        failed, alive := CopyFileWithProgress(Job(from, to), w.copy(from));
      }
    }

    /** `SaveMigrationState`. */
    method SaveMigrationState(left: seq<string>, e: SaveEvent) returns (alive: bool)
      modifies this`marker
      ensures (Contents(), alive) == Save(old(Contents()), left, e)
      ensures alive <==> e == Written
      ensures marker == match e case Written => Saved(left) case DiesBefore => old(marker) case DiesHalf => Half
    {
      match e {
        case DiesBefore => return false;
        case DiesHalf =>
          marker := Half;
          return false;
        case Written =>
          marker := Saved(left);
          return true;
      }
    }

    /** Deletes the folder `dir`. */
    method RemoveAll(dir: Path, e: DeleteEvent) returns (alive: bool)
      modifies this`files
      ensures (files, alive) == DeleteBelow(old(files), dir, e)
      ensures alive <==> !e.DiesKeeping?
      ensures forall p :: p in files <==> p in old(files) && (!Under(dir, p) || (!e.Gone? && p in e.kept))
      ensures forall p | p in files :: files[p] == old(files)[p]
    {
      match e {
        case Gone =>
          files := map p | p in files && !Under(dir, p) :: files[p];
          return true;
        case Partly(kept) =>
          files := map p | p in files && (!Under(dir, p) || p in kept) :: files[p];
          return true;
        case DiesKeeping(kept) =>
          files := map p | p in files && (!Under(dir, p) || p in kept) :: files[p];
          return false;
      }
    }

    /** `executeMigration`: takes one sub-folder after the other off the list and saves
        what is left. */
    method ExecuteMigration(pl: Place, subs: seq<string>, b: Boot) returns (end: End)
      requires Apart(pl.old_, pl.new_)
      modifies this`files, this`marker
      ensures (Contents(), end) == Execute(pl, old(Contents()), subs, b)
      ensures home == old(home) && (end == Finished ==> marker == Saved([]))
    {
      var left := subs;
      while left != []
        invariant home == old(home)
        invariant Execute(pl, Contents(), left, b) == Execute(pl, old(Contents()), subs, b)
        decreases |left|
      {
        var sub := left[0];
        left := left[1..];
        var failed, alive := false, true;
        if Names(files, pl.old_ + [sub]) != {} {
          if sub in pl.deletes {
            alive := RemoveAll(pl.old_ + [sub], b.deleting(sub));
          } else {
            BelowApart(pl.old_, pl.new_, sub);
            failed, alive := MoveTreeWithProgress(pl.old_ + [sub], pl.new_ + [sub], b.walk, pl.depth);
          }
        }
        if !alive {
          return Died;
        }
        if failed {
          alive := SaveMigrationState(left, b.saving(|left|));
          return if alive then Failed else Died;
        }
        alive := SaveMigrationState(left, b.saving(|left|));
        if !alive {
          return Died;
        }
      }
      var alive := SaveMigrationState([], b.savingEnd);
      return if alive then Finished else Died;
    }

    /** `SetAppDir`. */
    method SetAppDir(pl: Place, b: Boot)
      requires Apart(pl.old_, pl.new_)
      modifies this
      ensures Contents() == Migration.SetAppDir(pl, old(Contents()), b)
      ensures old(home) == New ==> Contents() == old(Contents())
      ensures home == New && old(home) == Old ==> b.switches && marker == Saved([])
    {
      if home == New {
        return;
      }
      var alive := SaveMigrationState(pl.Subs(), b.saving(|pl.Subs()|));
      if !alive {
        return;
      }
      var end := ExecuteMigration(pl, pl.Subs(), b);
      if end == Finished && b.switches {
        home := New;
      }
    }

    /** `ResumeMigration`. */
    method ResumeMigration(pl: Place, b: Boot)
      requires Apart(pl.old_, pl.new_)
      modifies this
      ensures Contents() == Resume(pl, old(Contents()), b)
      ensures old(home) == New || !old(marker).Saved? ==> Contents() == old(Contents())
      ensures home == New && old(home) == Old ==> b.switches && marker == Saved([])
    {
      if home == New || !marker.Saved? {
        return;
      }
      var end := ExecuteMigration(pl, marker.left, b);
      if end == Finished && b.switches {
        home := New;
      }
    }
  }
}
