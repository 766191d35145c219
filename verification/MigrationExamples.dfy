/**
 * What can go wrong in the migration (backend/data_migration.go), on a concrete disk:
 * the player has three skins, called `a`, `a.tmp` and `a.tmp.tmp`.
 */
module MigrationExamples {
  import opened Common
  import opened MigrationCopy
  import opened MigrationTree
  import opened MigrationWalk
  import opened Migration
  import opened MigrationAnyRun
  import opened MigrationErrors
  import opened MigrationWrongFiles

  const A: Path := ["old", "skins", "a"]
  const B: Path := ["old", "skins", "a.tmp"]
  const C: Path := ["old", "skins", "a.tmp.tmp"]
  const NEW_A: Path := ["new", "skins", "a"]
  const NEW_B: Path := ["new", "skins", "a.tmp"]
  const NEW_C: Path := ["new", "skins", "a.tmp.tmp"]
  const SKINS: Files := map[A := [1], B := [2], C := [3]]

  function Folders(): Place {
    ProgramPlace(["old"], ["new"], 0)
  }

  function Untouched(): Disk {
    Disk(SKINS, Old, NoMarker)
  }

  /** A walk that meets the three copies with these outcomes, and all folders alike. */
  function Way(a: Event, b: Event, c: Event, e: Enter): Luck {
    Luck(p => if p == A then a else if p == B then b else c, _ => e)
  }

  /** A run of the launcher in which only the walk may go wrong. */
  function Calm(w: Luck): Boot {
    Boot(w, _ => Gone, _ => Written, Written, true)
  }

  function AllFine(): Luck {
    Way(Works, Works, Works, Opened)
  }

  // -------------------------------------------------------------------------
  // The disk
  // -------------------------------------------------------------------------

  lemma PathsDiffer()
    ensures "a" != "a.tmp" && "a" != "a.tmp.tmp" && "a.tmp" != "a.tmp.tmp" && "old" != "new"
    ensures Tmp(NEW_A) == NEW_B && Tmp(NEW_B) == NEW_C
    ensures NEW_A !in SKINS && NEW_B !in SKINS && NEW_C !in SKINS
  {
    assert |"a"| == 1 && |"a.tmp"| == 5 && |"a.tmp.tmp"| == 9;
    assert "old"[0] != "new"[0];
    assert "a" + ".tmp" == "a.tmp" && "a.tmp" + ".tmp" == "a.tmp.tmp";
    assert NEW_A[0] != A[0] && NEW_B[0] != A[0] && NEW_C[0] != A[0];
  }

  lemma NamesOfSkins()
    ensures Names(SKINS, ["old", "skins"]) == {"a", "a.tmp", "a.tmp.tmp"}
    ensures Names(SKINS, ["old", "installations"]) == {}
  {
    assert A[..2] == B[..2] == C[..2] == ["old", "skins"];
    assert A[2] == "a" && B[2] == "a.tmp" && C[2] == "a.tmp.tmp";
    assert Under(["old", "skins"], A) && Under(["old", "skins"], B) && Under(["old", "skins"], C);
    assert A in SKINS.Keys && B in SKINS.Keys && C in SKINS.Keys;
    assert "skins" != "installations" by { assert "skins"[0] != "installations"[0]; }
    assert forall p | p in SKINS.Keys :: p[1] == "skins";
    assert forall p | p in SKINS.Keys && Under(["old", "installations"], p) :: p[..2][1] == "installations";
  }

  lemma MinIs(m: string, s: set<string>)
    requires IsMin(m, s)
    ensures s != {} && Min(s) == m
  {
    MinUnique(m, Min(s), s);
  }

  lemma ListingOfSkins()
    ensures Listing({"a", "a.tmp", "a.tmp.tmp"}) == ["a", "a.tmp", "a.tmp.tmp"]
  {
    var a, b, c := "a", "a.tmp", "a.tmp.tmp";
    assert b == a + ".tmp" && c == a + ".tmp.tmp" && c == b + ".tmp";
    LessExtended(a, ".tmp");
    LessExtended(a, ".tmp.tmp");
    LessExtended(b, ".tmp");
    PathsDiffer();
    ListingOfThree(a, b, c);
  }

  lemma ListingOfThree(a: string, b: string, c: string)
    requires Less(a, b) && Less(a, c) && Less(b, c) && a != b && a != c && b != c
    ensures Listing({a, b, c}) == [a, b, c]
  {
    MinIs(a, {a, b, c});
    assert {a, b, c} - {a} == {b, c};
    MinIs(b, {b, c});
    assert {b, c} - {b} == {c};
    MinIs(c, {c});
    assert {c} - {c} == {};
    assert Listing({}) == [];
    assert Listing({c}) == [c];
    assert Listing({b, c}) == [b] + [c];
  }

  lemma SkinsAreReady()
    ensures Ready(Folders(), SKINS)
  {
    assert Apart(["old"], ["new"]) by { assert "old"[0] != "new"[0]; assert ["old"][0] != ["new"][0]; }
    forall p, q | p in SKINS && q in SKINS ensures !Under(p, q) {
      assert |p| == 3 && |q| == 3;
    }
    forall s | s in MOVE_SUBS + DELETE_SUBS ensures ["old"] + [s] !in SKINS {
      assert |["old"] + [s]| == 2;
    }
    ProgramPlaceIsReady(["old"], ["new"], 0, SKINS);
  }

  // -------------------------------------------------------------------------
  // The walk through it
  // -------------------------------------------------------------------------

  /** The old skins are there; the new folder may hold anything. */
  ghost predicate HasSkins(fs: Files) {
    SameBelow(SKINS, fs, ["old", "skins"])
  }

  lemma PlanOfSkins(fs: Files, a: Event, b: Event, c: Event)
    requires HasSkins(fs)
    ensures Plan(fs, ["old", "skins"], ["new", "skins"], Way(a, b, c, Opened), 0)
         == [Copy(Job(A, NEW_A), a), Copy(Job(B, NEW_B), b), Copy(Job(C, NEW_C), c)]
  {
    var src, dst, w := ["old", "skins"], ["new", "skins"], Way(a, b, c, Opened);
    WalkFrame(SKINS, fs, src, dst, w, 0);
    PlanIsEntries(w);
    EntriesOfThree(SKINS, src, dst, "a", "a.tmp", "a.tmp.tmp", w);
    EntryOfSkin("a", A, NEW_A, w);
    EntryOfSkin("a.tmp", B, NEW_B, w);
    EntryOfSkin("a.tmp.tmp", C, NEW_C, w);
    OutcomesOfSkins(a, b, c, Opened);
    JoinThree(Copy(Job(A, NEW_A), a), Copy(Job(B, NEW_B), b), Copy(Job(C, NEW_C), c));
  }

  lemma JoinThree(x: Action, y: Action, z: Action)
    ensures [x] + [y] + [z] == [x, y, z]
  {
  }

  lemma PlanIsEntries(w: Luck)
    requires w.enter(["old", "skins"]) == Opened
    ensures Plan(SKINS, ["old", "skins"], ["new", "skins"], w, 0)
         == PlanEntries(SKINS, ["old", "skins"], ["new", "skins"], ["a", "a.tmp", "a.tmp.tmp"], w, 0)
  {
    NamesOfSkins();
    ListingOfSkins();
  }

  lemma OutcomesOfSkins(a: Event, b: Event, c: Event, e: Enter)
    ensures var w := Way(a, b, c, e); w.copy(A) == a && w.copy(B) == b && w.copy(C) == c
  {
    PathsDiffer();
  }

  lemma EntriesOfThree(fs: Files, src: Path, dst: Path, a: string, b: string, c: string, w: Luck)
    ensures PlanEntries(fs, src, dst, [a, b, c], w, 0)
         == PlanEntry(fs, src, dst, a, w, 0) + PlanEntry(fs, src, dst, b, w, 0) + PlanEntry(fs, src, dst, c, w, 0)
  {
    assert [a, b, c][..2] == [a, b] && [a, b][..1] == [a] && [a][..0] == [];
    assert PlanEntries(fs, src, dst, [a], w, 0) == PlanEntry(fs, src, dst, a, w, 0);
  }

  lemma EntryOfSkin(name: string, p: Path, q: Path, w: Luck)
    requires p in SKINS && p == ["old", "skins", name] && q == ["new", "skins", name]
    ensures PlanEntry(SKINS, ["old", "skins"], ["new", "skins"], name, w, 0) == [Copy(Job(p, q), w.copy(p))]
  {
    assert ["old", "skins"] + [name] == p && ["new", "skins"] + [name] == q;
  }

  lemma PerformThree(r: Progress, x: Action, y: Action, z: Action)
    requires !r.died
    ensures var r1 := Act(r, x);
            var r2 := if r1.died then r1 else Act(r1, y);
            Perform(r, [x, y, z]) == if r2.died then r2 else Act(r2, z)
  {
    assert [x, y, z][..2] == [x, y] && [x, y][..1] == [x];
    PerformOne(r, x);
  }

  /** The state in which a start comes to the skins. */
  function AtSkins(fs: Files): Disk {
    Disk(fs, Old, Saved(Folders().Subs()[1..]))
  }

  lemma MovedSkins(fs: Files, w: Luck)
    ensures Moved(Folders(), fs, "skins", w)
         == Perform(Progress(fs, false, false), Plan(fs, ["old", "skins"], ["new", "skins"], w, 0))
  {
    assert ["old"] + ["skins"] == ["old", "skins"] && ["new"] + ["skins"] == ["new", "skins"];
  }

  lemma SkinsAreSecond()
    ensures Folders().moves[1] == "skins" && Folders().Subs()[1] == "skins" && "skins" !in Folders().deletes
    ensures Folders().Subs()[1..] == ["skins"] + Folders().Subs()[2..]
    ensures Folders().old_ + ["skins"] == ["old", "skins"] && Folders().new_ + ["skins"] == ["new", "skins"]
  {
    ProgramSubsDiffer();
    assert "skins" in MOVE_SUBS;
  }

  /** The first attempt finds no installations and saves that. */
  lemma FirstAttempt(w: Luck)
    ensures SetAppDir(Folders(), Untouched(), Calm(w)) == Resume(Folders(), AtSkins(SKINS), Calm(w))
  {
    var pl, d, b := Folders(), Untouched(), Calm(w);
    NamesOfSkins();
    assert pl.Subs()[0] == "installations" && pl.old_ + ["installations"] == ["old", "installations"];
    var d1 := d.(marker := Saved(pl.Subs()));
    assert Save(d, pl.Subs(), b.saving(|pl.Subs()|)) == (d1, true);
    assert Execute(pl, d1, pl.Subs(), b) == Continue(pl, d1, pl.Subs()[1..], b);
  }

  /** A start that dies among the skins leaves what was written. */
  lemma DiesAmongSkins(fs: Files, w: Luck)
    requires HasSkins(fs) && Moved(Folders(), fs, "skins", w).died
    ensures Resume(Folders(), AtSkins(fs), Calm(w)) == AtSkins(Moved(Folders(), fs, "skins", w).files)
  {
    SkinsAreSecond();
    NamesThere(fs);
    var left := Folders().Subs()[1..];
    assert left[0] == "skins";
  }

  lemma NamesThere(fs: Files)
    requires HasSkins(fs)
    ensures Names(fs, ["old", "skins"]) != {}
  {
    NamesOfSkins();
    SameNames(SKINS, fs, ["old", "skins"]);
    assert "a" in Names(fs, ["old", "skins"]);
  }

  lemma RunOfOne(d: Disk, e: Attempt)
    ensures Run(Folders(), d, [e]) == Tried(Folders(), d, e)
  {
    assert [e][..0] == [];
  }

  lemma RunOfMore(d: Disk, es: seq<Attempt>, e: Attempt)
    ensures Run(Folders(), d, es + [e]) == Tried(Folders(), Run(Folders(), d, es), e)
  {
    assert (es + [e])[..|es + [e]| - 1] == es;
  }

  // -------------------------------------------------------------------------
  // A lost skin
  // -------------------------------------------------------------------------

  lemma SkinsFail(fs: Files, w: Luck)
    requires HasSkins(fs) && !Moved(Folders(), fs, "skins", w).died && Moved(Folders(), fs, "skins", w).failed
    ensures FailsAt(Folders(), AtSkins(fs), 1, Calm(w))
  {
    SkinsAreSecond();
    NamesThere(fs);
  }

  lemma AllEarly(fs: Files)
    requires HasSkins(fs)
    ensures Moved(Folders(), fs, "skins", Way(Early, Early, Early, Opened)) == Progress(fs, false, true)
              || NEW_A in fs || NEW_B in fs || NEW_C in fs
  {
    MovedSkins(fs, Way(Early, Early, Early, Opened));
    PlanOfSkins(fs, Early, Early, Early);
    PerformThree(Progress(fs, false, false), Copy(Job(A, NEW_A), Early), Copy(Job(B, NEW_B), Early), Copy(Job(C, NEW_C), Early));
  }

  /** Two runs of the launcher, the first of which comes to the skins. */
  lemma RunOfTwo(w1: Luck, w2: Luck)
    ensures Run(Folders(), Untouched(), [Choose(Calm(w1))] + [StartUp(Calm(w2))])
         == Resume(Folders(), Resume(Folders(), AtSkins(SKINS), Calm(w1)), Calm(w2))
  {
    RunOfMore(Untouched(), [Choose(Calm(w1))], StartUp(Calm(w2)));
    RunOfOne(Untouched(), Choose(Calm(w1)));
    FirstAttempt(w1);
  }

  lemma OldKeptThere(fs: Files)
    requires forall p | p != [] && p[0] == "old" :: SameAt(SKINS, fs, p)
    ensures OldKept(Folders(), SKINS, fs) && HasSkins(fs)
  {
    forall s, p | Under(["old"] + s, p) ensures p != [] && p[0] == "old" {
      assert p[..1 + |s|][0] == (["old"] + s)[0];
    }
    assert ["old"] + ["skins"] == ["old", "skins"];
  }

  /** A start that fails at the skins saves a list without them. */
  lemma SkinsFailure(fs: Files, w: Luck)
    requires HasSkins(fs) && !Moved(Folders(), fs, "skins", w).died && Moved(Folders(), fs, "skins", w).failed
    ensures Resume(Folders(), AtSkins(fs), Calm(w)) == Disk(Moved(Folders(), fs, "skins", w).files, Old, Saved(Folders().Subs()[2..]))
  {
    SkinsAreReady();
    SkinsAreSecond();
    SkinsFail(fs, w);
    FailureLeaves(Folders(), SKINS, AtSkins(fs), 1, Calm(w));
  }

  lemma SkinsAfterwards(d: Disk, p: Path)
    requires OldKept(Folders(), SKINS, d.files) && d.home == Old && d.marker == Saved(Folders().Subs()[2..])
    requires Under(["new", "skins"], p)
    ensures var end := Resume(Folders(), d, Calm(AllFine())); end.home == New && SameAt(d.files, end.files, p)
  {
    SkinsAreReady();
    SkinsAreSecond();
    SmoothLeaves(Folders(), SKINS, d, 2, Calm(AllFine()));
    assert SameNew(Folders(), d.files, Resume(Folders(), d, Calm(AllFine())).files, 1);
  }

  lemma RestartAfterFailure(fs: Files, w: Luck, p: Path)
    requires OldKept(Folders(), SKINS, fs) && HasSkins(fs) && Under(["new", "skins"], p)
    requires !Moved(Folders(), fs, "skins", w).died && Moved(Folders(), fs, "skins", w).failed
    ensures var end := Resume(Folders(), Resume(Folders(), AtSkins(fs), Calm(w)), Calm(AllFine()));
            end.home == New && SameAt(Moved(Folders(), fs, "skins", w).files, end.files, p)
  {
    SkinsFailure(fs, w);
    SkinsAreReady();
    SkinsAreSecond();
    MoveKeepsOld(Folders(), SKINS, fs, 1, w);
    SkinsAfterwards(Resume(Folders(), AtSkins(fs), Calm(w)), p);
  }

  /** No skin can be read at the first attempt; at the next start all is well again,
      and the launcher takes the new folder without them. */
  lemma LostSkin(p: Path)
    requires p in {NEW_A, NEW_B, NEW_C}
    ensures Ready(Folders(), SKINS)
    ensures var end := Run(Folders(), Untouched(), [Choose(Calm(Way(Early, Early, Early, Opened)))] + [StartUp(Calm(AllFine()))]);
            end.home == New && p !in end.files
  {
    SkinsAreReady();
    PathsDiffer();
    NewSkins();
    OldKeptThere(SKINS);
    AllEarly(SKINS);
    RestartAfterFailure(SKINS, Way(Early, Early, Early, Opened), p);
    RunOfTwo(Way(Early, Early, Early, Opened), AllFine());
  }

  lemma NewSkins()
    ensures Under(["new", "skins"], NEW_A) && Under(["new", "skins"], NEW_B) && Under(["new", "skins"], NEW_C)
    ensures Under(["old", "skins"], A) && Under(["old", "skins"], B) && Under(["old", "skins"], C)
    ensures Under(["old"], A) && Under(["old"], B) && Under(["old"], C)
    ensures Target(Folders(), A) == NEW_A && Target(Folders(), B) == NEW_B && Target(Folders(), C) == NEW_C
  {
    assert NEW_A[..2] == NEW_B[..2] == NEW_C[..2] == ["new", "skins"];
    assert A[..2] == B[..2] == C[..2] == ["old", "skins"];
    assert A[..1] == B[..1] == C[..1] == ["old"];
    assert A[1..] == NEW_A[1..] && B[1..] == NEW_B[1..] && C[1..] == NEW_C[1..];
    assert NEW_A == ["new"] + NEW_A[1..] && NEW_B == ["new"] + NEW_B[1..] && NEW_C == ["new"] + NEW_C[1..];
  }

  // -------------------------------------------------------------------------
  // Half a file for good
  // -------------------------------------------------------------------------

  const HALF: Bytes := [8]

  /** The launcher dies while it writes `a`. */
  lemma DiesInA(fs: Files)
    requires HasSkins(fs) && NEW_A !in fs && A in fs
    ensures Moved(Folders(), fs, "skins", Way(Dies(Some(HALF)), Works, Works, Opened)) == Progress(fs[NEW_B := HALF], true, false)
  {
    MovedSkins(fs, Way(Dies(Some(HALF)), Works, Works, Opened));
    PlanOfSkins(fs, Dies(Some(HALF)), Works, Works);
    PerformThree(Progress(fs, false, false), Copy(Job(A, NEW_A), Dies(Some(HALF))), Copy(Job(B, NEW_B), Works), Copy(Job(C, NEW_C), Works));
    HalfOfA(fs);
  }

  lemma HalfOfA(fs: Files)
    requires A in fs && NEW_A !in fs
    ensures Act(Progress(fs, false, false), Copy(Job(A, NEW_A), Dies(Some(HALF)))) == Progress(fs[NEW_B := HALF], true, false)
  {
    PathsDiffer();
  }

  lemma StillHasSkins(fs: Files, p: Path, x: Bytes)
    requires HasSkins(fs) && p != [] && p[..1] == ["new"]
    ensures HasSkins(fs[p := x])
  {
    forall q | Under(["old", "skins"], q) ensures SameAt(SKINS, fs[p := x], q) {
      assert SameAt(SKINS, fs, q);
      assert q[..2][0] == "old" && p[..1][0] == "new" && "old"[0] != "new"[0];
    }
  }

  lemma AfterHalfA()
    ensures Run(Folders(), Untouched(), [Choose(Calm(Way(Dies(Some(HALF)), Works, Works, Opened)))]) == AtSkins(SKINS[NEW_B := HALF])
    ensures HasSkins(SKINS) && HasSkins(SKINS[NEW_B := HALF])
  {
    var w := Way(Dies(Some(HALF)), Works, Works, Opened);
    PathsDiffer();
    DiesInA(SKINS);
    FirstAttempt(w);
    DiesAmongSkins(SKINS, w);
    RunOfOne(Untouched(), Choose(Calm(w)));
    assert NEW_B[..1] == ["new"];
    StillHasSkins(SKINS, NEW_B, HALF);
  }

  /** The skins' folder cannot be read, or the file `a` cannot be opened. */
  lemma SecondFails(fs: Files, w: Luck)
    requires HasSkins(fs) && A in fs && NEW_A !in fs
    requires w == Way(Works, Works, Works, Unreadable) || w == Way(Early, Works, Works, Opened)
    ensures !Moved(Folders(), fs, "skins", w).died && Moved(Folders(), fs, "skins", w).failed
  {
    MovedSkins(fs, w);
    if w == Way(Works, Works, Works, Unreadable) {
      PerformOne(Progress(fs, false, false), Trouble);
    } else {
      PlanOfSkins(fs, Early, Works, Works);
      PerformThree(Progress(fs, false, false), Copy(Job(A, NEW_A), Early), Copy(Job(B, NEW_B), Works), Copy(Job(C, NEW_C), Works));
    }
  }

  /** The launcher dies while it writes `a`; at the next start either kind of error
      occurs; at the third all is well. Half of `a` is then the skin `a.tmp` in the new
      folder, for good, and the launcher uses that folder. */
  lemma HalfSkin(w: Luck)
    requires w == Way(Works, Works, Works, Unreadable) || w == Way(Early, Works, Works, Opened)
    ensures var end := Run(Folders(), Untouched(),
              [Choose(Calm(Way(Dies(Some(HALF)), Works, Works, Opened)))] + [StartUp(Calm(w))] + [StartUp(Calm(AllFine()))]);
            end.home == New && NEW_B in end.files && end.files[NEW_B] == HALF && HALF != SKINS[B]
  {
    var now := SKINS[NEW_B := HALF];
    var es := [Choose(Calm(Way(Dies(Some(HALF)), Works, Works, Opened)))];
    PathsDiffer();
    NewSkins();
    AfterHalfA();
    SkinsStay(now);
    SecondFails(now, w);
    RestartAfterFailure(now, w, NEW_B);
    RunOfMore(Untouched(), es, StartUp(Calm(w)));
    RunOfMore(Untouched(), es + [StartUp(Calm(w))], StartUp(Calm(AllFine())));
    HalfStays(w);
  }

  lemma HalfStays(w: Luck)
    requires w == Way(Works, Works, Works, Unreadable) || w == Way(Early, Works, Works, Opened)
    ensures var end := Resume(Folders(), Resume(Folders(), AtSkins(SKINS[NEW_B := HALF]), Calm(w)), Calm(AllFine()));
            NEW_B in end.files && end.files[NEW_B] == HALF
  {
    var now := SKINS[NEW_B := HALF];
    PathsDiffer();
    NewSkins();
    TmpOfA();
    AfterHalfA();
    NotOpened(w);
    SecondFails(now, w);
    assert [A, B][0] == A && !Begun(w, ["old", "skins"], [A, B][0]);
    WrongStays(now, [Choose(Calm(Way(Dies(Some(HALF)), Works, Works, Opened)))], w, [A, B]);
  }

  /** A start that fails at the skins has given them their turn. */
  lemma SkinsHaveTurn(fs: Files, w: Luck)
    requires HasSkins(fs) && !Moved(Folders(), fs, "skins", w).died && Moved(Folders(), fs, "skins", w).failed
    ensures HasTurn(Folders(), AtSkins(fs), StartUp(Calm(w)), 1)
  {
    SkinsAreReady();
    SkinsAreSecond();
    SkinsFailure(fs, w);
    OnList(Folders(), SKINS, 1, 1);
    OnList(Folders(), SKINS, 2, 1);
  }

  lemma WrongStays(fs: Files, es: seq<Attempt>, w: Luck, ps: seq<Path>)
    requires Run(Folders(), Untouched(), es) == AtSkins(fs) && HasSkins(fs)
    requires !Moved(Folders(), fs, "skins", w).died && Moved(Folders(), fs, "skins", w).failed
    requires WrongAtEnd(Folders(), SKINS, fs, "skins", ps)
    requires Survives(Calm(w)) && Interrupted(w, ["old", "skins"], ps)
    ensures var end := Resume(Folders(), Resume(Folders(), AtSkins(fs), Calm(w)), Calm(AllFine()));
            Stays(fs, end.files, Target(Folders(), ps[|ps| - 1]))
  {
    SkinsAreReady();
    SkinsAreSecond();
    SkinsHaveTurn(fs, w);
    RunOfOne(Resume(Folders(), AtSkins(fs), Calm(w)), StartUp(Calm(AllFine())));
    WrongFileStaysForGoodExactly(Folders(), Untouched(), es, StartUp(Calm(w)), 1, ps, [StartUp(Calm(AllFine()))]);
  }

  lemma TmpOfA()
    ensures Tmp(NEW_A) == NEW_B && Tmp(NEW_B) == NEW_C && A in SKINS && B in SKINS && C in SKINS
    ensures Chained(Folders(), SKINS, "skins", [A, B]) && Chained(Folders(), SKINS, "skins", [A, B, C])
  {
    PathsDiffer();
    NewSkins();
    assert ["old"] + ["skins"] == ["old", "skins"];
    assert Follows(Folders(), A, B) && Follows(Folders(), B, C);
  }

  lemma NotOpened(w: Luck)
    requires w == Way(Works, Works, Works, Unreadable) || w == Way(Early, Works, Works, Opened)
    ensures Survives(Calm(w)) && !Begun(w, ["old", "skins"], A)
  {
    assert A[..2] == ["old", "skins"];
    assert w.enter(A[..2]) == Opened || w.enter(A[..2]) == Unreadable;
  }

  lemma SkinsStay(fs: Files)
    requires fs == SKINS[NEW_B := HALF]
    ensures OldKept(Folders(), SKINS, fs) && HasSkins(fs)
  {
    PathsDiffer();
    OldKeptThere(fs);
  }

  // -------------------------------------------------------------------------
  // A wrong file whose owner is there
  // -------------------------------------------------------------------------

  /** An error on `a` and a crash in `a.tmp`; a crash in `a`; an error on `a.tmp`; and
      then all is well. The wrong file `a.tmp.tmp` is the temporary file of `a.tmp`, which
      is not missing before the third run but wrong itself. That run copies `a`, the only
      skin missing by then, and still `a.tmp.tmp` stays wrong for good. */
  lemma WrongAtTwoRemoves()
    ensures var es := [Choose(Calm(Way(Early, Dies(Some([9])), Works, Opened)))] + [StartUp(Calm(Way(Dies(Some(HALF)), Works, Works, Opened)))];
            var w := Way(Works, Early, Works, Opened);
            var now := Run(Folders(), Untouched(), es).files;
            var end := Run(Folders(), Untouched(), es + [StartUp(Calm(w))] + [StartUp(Calm(AllFine()))]);
            && NEW_A !in now && NEW_B in now && now[NEW_B] == HALF && NEW_C in now && now[NEW_C] == [9]
            && Begun(w, ["old", "skins"], A)
            && end.home == New && NEW_C in end.files && end.files[NEW_C] == [9] && [9] != SKINS[C]
  {
    var es := [Choose(Calm(Way(Early, Dies(Some([9])), Works, Opened)))] + [StartUp(Calm(Way(Dies(Some(HALF)), Works, Works, Opened)))];
    var w, now := Way(Works, Early, Works, Opened), SKINS[NEW_C := [9]][NEW_B := HALF];
    PathsDiffer();
    NewSkins();
    AfterTwoRuns();
    ThirdFails(now);
    RestartAfterFailure(now, w, NEW_C);
    RunOfMore(Untouched(), es, StartUp(Calm(w)));
    RunOfMore(Untouched(), es + [StartUp(Calm(w))], StartUp(Calm(AllFine())));
    TmpOfA();
    ThirdBegins();
    assert [A, B, C][1] == B && [A, B, C][2] == C;
    WrongStays(now, es, w, [A, B, C]);
  }

  lemma ThirdBegins()
    ensures var w := Way(Works, Early, Works, Opened);
            && Survives(Calm(w)) && Begun(w, ["old", "skins"], A) && Interrupted(w, ["old", "skins"], [A, B, C])
  {
    var w := Way(Works, Early, Works, Opened);
    OutcomesOfSkins(Works, Early, Works, Opened);
    assert [A, B, C][1] == B && !Begun(w, ["old", "skins"], [A, B, C][1]);
  }

  lemma AfterTwoRuns()
    ensures var es := [Choose(Calm(Way(Early, Dies(Some([9])), Works, Opened)))] + [StartUp(Calm(Way(Dies(Some(HALF)), Works, Works, Opened)))];
            var now := SKINS[NEW_C := [9]][NEW_B := HALF];
            Run(Folders(), Untouched(), es) == AtSkins(now) && HasSkins(now) && OldKept(Folders(), SKINS, now)
  {
    var w1, w2 := Way(Early, Dies(Some([9])), Works, Opened), Way(Dies(Some(HALF)), Works, Works, Opened);
    var now := SKINS[NEW_C := [9]][NEW_B := HALF];
    PathsDiffer();
    DiesInB();
    DiesInA(SKINS[NEW_C := [9]]);
    DiesAmongSkins(SKINS[NEW_C := [9]], w2);
    RunOfTwo(w1, w2);
    BothHalves(now);
  }

  lemma BothHalves(fs: Files)
    requires fs == SKINS[NEW_C := [9]][NEW_B := HALF]
    ensures OldKept(Folders(), SKINS, fs) && HasSkins(fs)
  {
    PathsDiffer();
    OldKeptThere(fs);
  }

  lemma ThirdFails(fs: Files)
    requires HasSkins(fs) && A in fs && B in fs && NEW_A !in fs && NEW_B in fs
    ensures var r := Moved(Folders(), fs, "skins", Way(Works, Early, Works, Opened)); !r.died && r.failed
  {
    var w := Way(Works, Early, Works, Opened);
    MovedSkins(fs, w);
    PlanOfSkins(fs, Works, Early, Works);
    PerformThree(Progress(fs, false, false), Copy(Job(A, NEW_A), Works), Copy(Job(B, NEW_B), Early), Copy(Job(C, NEW_C), Works));
    WritesA(fs);
    FailsInB(Act(Progress(fs, false, false), Copy(Job(A, NEW_A), Works)));
  }

  lemma WritesA(fs: Files)
    requires A in fs && NEW_A !in fs
    ensures var r := Act(Progress(fs, false, false), Copy(Job(A, NEW_A), Works)); !r.died && NEW_B !in r.files
  {
    PathsDiffer();
  }

  lemma FailsInB(r: Progress)
    requires !r.died && NEW_B !in r.files
    ensures var b := Act(r, Copy(Job(B, NEW_B), Early));
            var c := Act(b, Copy(Job(C, NEW_C), Works));
            !b.died && !c.died && c.failed
  {
  }

  lemma DiesInB()
    ensures HasSkins(SKINS) && HasSkins(SKINS[NEW_C := [9]])
    ensures Resume(Folders(), AtSkins(SKINS), Calm(Way(Early, Dies(Some([9])), Works, Opened))) == AtSkins(SKINS[NEW_C := [9]])
  {
    var w := Way(Early, Dies(Some([9])), Works, Opened);
    PathsDiffer();
    assert NEW_C[..1] == ["new"];
    StillHasSkins(SKINS, NEW_C, [9]);
    WalkDiesInB(SKINS);
    DiesAmongSkins(SKINS, w);
  }

  lemma WalkDiesInB(fs: Files)
    requires HasSkins(fs) && A in fs && B in fs && NEW_A !in fs && NEW_B !in fs
    ensures Moved(Folders(), fs, "skins", Way(Early, Dies(Some([9])), Works, Opened)) == Progress(fs[NEW_C := [9]], true, true)
  {
    MovedSkins(fs, Way(Early, Dies(Some([9])), Works, Opened));
    PlanOfSkins(fs, Early, Dies(Some([9])), Works);
    PerformThree(Progress(fs, false, false), Copy(Job(A, NEW_A), Early), Copy(Job(B, NEW_B), Dies(Some([9]))), Copy(Job(C, NEW_C), Works));
    PartOfB(fs);
  }

  lemma PartOfB(fs: Files)
    requires A in fs && B in fs && NEW_A !in fs && NEW_B !in fs
    ensures var r := Act(Progress(fs, false, false), Copy(Job(A, NEW_A), Early));
            r == Progress(fs, false, true) && Act(r, Copy(Job(B, NEW_B), Dies(Some([9])))) == Progress(fs[NEW_C := [9]], true, true)
  {
    PathsDiffer();
  }
}
