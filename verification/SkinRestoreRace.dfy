/**
 * A restore of the build skin that is still on its way while the build is launched
 * again (backend/build_skin.go). A restore runs in its own goroutine and retries for
 * up to a minute and a half; a launch takes a snapshot and puts the preset on before
 * the game counts as running. Each step below is one call of the Mojang API, one
 * access to the snapshot file or one look at the running games.
 *
 * One account and one build, with restoring switched on.
 */
module SkinRestoreRace {
  import opened Common
  import opened SkinSnapshot

  /** Where a launch is: its snapshot is taken, its preset is being tried, all tries are
      over, the game runs. */
  datatype Game = Idle | Taken(shot: Snapshot) | Trying(left: nat) | Ready | Playing

  /** Where a restore is: it has not yet read the snapshot, it is about to look whether
      the game runs, about to call the API, or about to delete the snapshot. */
  datatype Restore = Coming | Waits(held: Snapshot, left: nat) | Passed(held: Snapshot, left: nat) | Worked | Over

  datatype Moment = Moment(look: Look, snap: Option<Snapshot>, game: Game, restores: seq<Restore>, alive: bool)

  datatype Step =
    | Begin(shot: Option<Snapshot>)         // a launch, with a snapshot if there is a preset and the look was fetched
    | SaveShot | SaveFails
    | TryPreset(preset: Preset, how: Try)
    | StartGame
    | EndGame                               // the game ends or did not start: a restore begins
    | Load(i: nat) | Check(i: nat) | TryBack(i: nat, how: Try) | Delete(i: nat)
    | Die | EndsUnseen | Boot               // the launcher dies, the game ends meanwhile, the launcher starts

  /** A restore after a try that did not work. */
  function Spent(held: Snapshot, left: nat): Restore {
    if left <= 1 then Over else Waits(held, left - 1)
  }

  function Launched(m: Moment, e: Step): Moment {
    match m.game
    case Idle => if e.Begin? then m.(game := if e.shot.Some? then Taken(e.shot.value) else Ready) else m
    case Taken(shot) =>
      if e.SaveShot? then m.(snap := Some(shot), game := Trying(APPLY_ATTEMPTS))
      else if e.SaveFails? then m.(game := Ready)
      else m
    case Trying(left) =>
      if !e.TryPreset? then m
      else (match e.how
        case Works => m.(look := Wear(e.preset)(m.look), game := Ready)
        case Breaks(l) => m.(look := l, game := if left <= 1 then Ready else Trying(left - 1))
        case Guarded => m)
    case Ready =>
      if e.StartGame? then m.(game := Playing)
      else if e.EndGame? then m.(game := Idle, restores := m.restores + [Coming])
      else m
    case Playing => if e.EndGame? then m.(game := Idle, restores := m.restores + [Coming]) else m
  }

  /** The `i`-th restore goes on. */
  function GoesOn(m: Moment, i: nat, e: Step): Moment
    requires i < |m.restores|
  {
    match m.restores[i]
    case Coming =>
      if e.Load? then m.(restores := m.restores[i := if m.snap.Some? then Waits(m.snap.value, RESTORE_ATTEMPTS) else Over]) else m
    case Waits(held, left) =>
      if e.Check? then m.(restores := m.restores[i := if m.game == Playing then Spent(held, left) else Passed(held, left)]) else m
    case Passed(held, left) =>
      if !e.TryBack? then m
      else (match e.how
        case Works => m.(look := Back(held)(m.look), restores := m.restores[i := Worked])
        case Breaks(l) => m.(look := l, restores := m.restores[i := Spent(held, left)])
        case Guarded => m)
    case Worked => if e.Delete? then m.(snap := None, restores := m.restores[i := Over]) else m
    case Over => m
  }

  /** One step; a step that is not possible changes nothing. */
  function After(m: Moment, e: Step): Moment {
    if !m.alive then
      match e
      case EndsUnseen => m.(game := Idle)
      case Boot => m.(alive := true, restores := if m.game != Playing && m.snap.Some? then [Coming] else [])
      case _ => m
    else match e
      case Load(i) => if i < |m.restores| then GoesOn(m, i, e) else m
      case Check(i) => if i < |m.restores| then GoesOn(m, i, e) else m
      case TryBack(i, _) => if i < |m.restores| then GoesOn(m, i, e) else m
      case Delete(i) => if i < |m.restores| then GoesOn(m, i, e) else m
      case Die => m.(alive := false, restores := [], game := if m.game == Playing then Playing else Idle)
      case _ => Launched(m, e)
  }

  function Played(m: Moment, es: seq<Step>): Moment {
    if es == [] then m else After(Played(m, es[..|es| - 1]), es[|es| - 1])
  }

  // -------------------------------------------------------------------------
  // A restore that nothing interrupts
  // -------------------------------------------------------------------------

  function TrySteps(i: nat, tries: seq<Try>): seq<Step> {
    if tries == [] then [Delete(i)] else [Check(i)] + ([TryBack(i, tries[0])] + TrySteps(i, tries[1..]))
  }

  /** The moment after the `i`-th restore is over. */
  function Ending(m: Moment, i: nat, look: Look, outcome: Outcome): Moment
    requires i < |m.restores|
  {
    m.(look := look, snap := if outcome == Ok then None else m.snap, restores := m.restores[i := Over])
  }

  /** The moment after one look at the games and one call. */
  function TriedOnce(m: Moment, i: nat, t: Try): Moment {
    After(After(m, Check(i)), TryBack(i, t))
  }

  lemma PlayedTry(m: Moment, i: nat, tries: seq<Try>)
    requires tries != []
    ensures Played(m, TrySteps(i, tries)) == Played(TriedOnce(m, i, tries[0]), TrySteps(i, tries[1..]))
  {
    PlayedFirst(m, Check(i), [TryBack(i, tries[0])] + TrySteps(i, tries[1..]));
    PlayedFirst(After(m, Check(i)), TryBack(i, tries[0]), TrySteps(i, tries[1..]));
  }

  lemma {:induction false} NothingLeft(m: Moment, i: nat, tries: seq<Try>)
    requires m.alive && i < |m.restores| && (m.restores[i] == Worked || m.restores[i] == Over)
    ensures Played(m, TrySteps(i, tries)) == Ending(m, i, m.look, if m.restores[i] == Worked then Ok else Failed)
  {
    if tries == [] {
      PlayedOneMore(m, [], Delete(i));
      assert [] + [Delete(i)] == TrySteps(i, tries);
    } else {
      PlayedTry(m, i, tries);
      assert TriedOnce(m, i, tries[0]) == m;
      NothingLeft(m, i, tries[1..]);
    }
  }

  lemma OneTry(m: Moment, i: nat, held: Snapshot, left: nat, t: Try)
    requires m.alive && m.game != Playing && i < |m.restores| && m.restores[i] == Waits(held, left) && t != Guarded
    ensures TriedOnce(m, i, t) == (match t
              case Works => m.(look := Back(held)(m.look), restores := m.restores[i := Worked])
              case Breaks(l) => m.(look := l, restores := m.restores[i := Spent(held, left)]))
  {
    assert m.restores[i := Passed(held, left)][i := Worked] == m.restores[i := Worked];
    assert m.restores[i := Passed(held, left)][i := Spent(held, left)] == m.restores[i := Spent(held, left)];
  }

  lemma EndingAgain(m: Moment, i: nat, r: Restore, l: Look, look: Look, outcome: Outcome)
    requires i < |m.restores|
    ensures Ending(m.(look := l, restores := m.restores[i := r]), i, look, outcome) == Ending(m, i, look, outcome)
  {
    assert m.restores[i := r][i := Over] == m.restores[i := Over];
  }

  lemma {:induction false} TriesRefine(m: Moment, i: nat, held: Snapshot, left: nat, tries: seq<Try>)
    requires m.alive && m.game != Playing && i < |m.restores| && m.restores[i] == Waits(held, left) && left > 0
    requires (forall k | 0 <= k < |tries| :: tries[k] != Guarded) && Ended(tries, left) != Died
    ensures Played(m, TrySteps(i, tries)) == Ending(m, i, Retried(m.look, Back(held), tries, left), Ended(tries, left))
    decreases |tries|
  {
    var t, rest := tries[0], tries[1..];
    var next := TriedOnce(m, i, t);
    PlayedTry(m, i, tries);
    OneTry(m, i, held, left, t);
    EndingAgain(m, i, next.restores[i], next.look, Retried(m.look, Back(held), tries, left), Ended(tries, left));
    if t.Breaks? && left > 1 {
      TriesRefine(next, i, held, left - 1, rest);
    } else {
      NothingLeft(next, i, rest);
    }
  }

  /** A restore whose steps nothing else comes between is the single step that
      `SkinSnapshot.Restored` makes of it. */
  lemma RestoreAlone(m: Moment, i: nat, tries: seq<Try>, b: BuildId)
    requires m.alive && m.game == Idle && i < |m.restores| && m.restores[i] == Coming && m.snap.Some?
    requires (forall k | 0 <= k < |tries| :: tries[k] != Guarded) && Ended(tries, RESTORE_ATTEMPTS) != Died
    ensures var end := Played(m, [Load(i)] + TrySteps(i, tries));
            var whole := Restored(State(m.look, map[b := m.snap.value], {}), b, Restoring(true, tries)).0;
            && end.look == whole.look && end.restores == m.restores[i := Over] && end.game == Idle && end.alive
            && end.snap == if b in whole.snaps then Some(whole.snaps[b]) else None
  {
    var m1 := After(m, Load(i));
    PlayedFirst(m, Load(i), TrySteps(i, tries));
    TriesRefine(m1, i, m.snap.value, RESTORE_ATTEMPTS, tries);
    assert m1.restores[i := Over] == m.restores[i := Over];
  }

  function PresetSteps(p: Preset, tries: seq<Try>): seq<Step> {
    if tries == [] then [] else [TryPreset(p, tries[0])] + PresetSteps(p, tries[1..])
  }

  lemma {:induction false} NoMoreTries(m: Moment, p: Preset, tries: seq<Try>)
    requires m.alive && m.game == Ready
    ensures Played(m, PresetSteps(p, tries)) == m
  {
    if tries != [] {
      PlayedFirst(m, TryPreset(p, tries[0]), PresetSteps(p, tries[1..]));
      NoMoreTries(m, p, tries[1..]);
    }
  }

  lemma {:induction false} PresetTriesRefine(m: Moment, p: Preset, left: nat, tries: seq<Try>)
    requires m.alive && m.game == Trying(left) && left > 0
    requires (forall k | 0 <= k < |tries| :: tries[k] != Guarded) && Ended(tries, left) != Died
    ensures Played(m, PresetSteps(p, tries)) == m.(look := Retried(m.look, Wear(p), tries, left), game := Ready)
    decreases |tries|
  {
    var next := After(m, TryPreset(p, tries[0]));
    PlayedFirst(m, TryPreset(p, tries[0]), PresetSteps(p, tries[1..]));
    if next.game == Ready {
      NoMoreTries(next, p, tries[1..]);
    } else {
      PresetTriesRefine(next, p, left - 1, tries[1..]);
    }
  }

  /** The steps of a launch that nothing comes between are the single step that
      `SkinSnapshot.Applied` makes of it. */
  lemma LaunchAlone(m: Moment, b: BuildId, p: Preset, gotSkin: bool, gotCapes: bool, tries: seq<Try>)
    requires m.alive && m.game == Idle
    requires (forall k | 0 <= k < |tries| :: tries[k] != Guarded) && Ended(tries, APPLY_ATTEMPTS) != Died
    ensures var end := Played(m, [Begin(Some(Shot(m.look, gotSkin, gotCapes)))] + ([SaveShot] + PresetSteps(p, tries)));
            var whole := Applied(State(m.look, map[], {}), b, Some(p), true, Applying(true, gotSkin, gotCapes, true, tries)).0;
            && end.look == whole.look && end.game == Ready && end.alive && end.restores == m.restores
            && b in whole.snaps && end.snap == Some(whole.snaps[b])
  {
    var begin := Begin(Some(Shot(m.look, gotSkin, gotCapes)));
    PlayedFirst(m, begin, [SaveShot] + PresetSteps(p, tries));
    PlayedFirst(After(m, begin), SaveShot, PresetSteps(p, tries));
    PresetTriesRefine(After(After(m, begin), SaveShot), p, APPLY_ATTEMPTS, tries);
  }

  function Looks(i: nat, n: nat): seq<Step> {
    if n == 0 then [] else [Check(i)] + Looks(i, n - 1)
  }

  /** A restore that finds the game running at each of its tries gives up, and changes
      neither the look nor the snapshot. */
  lemma {:induction false} RestoreGivesUp(m: Moment, i: nat, held: Snapshot, left: nat)
    requires m.alive && m.game == Playing && i < |m.restores| && m.restores[i] == Waits(held, left) && left > 0
    ensures Played(m, Looks(i, left)) == m.(restores := m.restores[i := Over])
    decreases left
  {
    var next := After(m, Check(i));
    PlayedFirst(m, Check(i), Looks(i, left - 1));
    if left == 1 {
      assert Played(next, []) == next;
    } else {
      RestoreGivesUp(next, i, held, left - 1);
      assert next.restores[i := Over] == m.restores[i := Over];
    }
  }

  /** After a crash the next start of the launcher begins a restore exactly if a snapshot
      is left and the game does not run. */
  lemma StartBeginsRestore(m: Moment)
    requires m.alive
    ensures var dead := After(m, Die);
            && dead.look == m.look && dead.snap == m.snap && !InFlight(dead) && !dead.alive
            && (dead.game == Playing <==> m.game == Playing)
            && (InFlight(After(dead, Boot)) <==> m.snap.Some? && m.game != Playing)
            && After(dead, Boot).alive && After(dead, Boot).look == m.look && After(dead, Boot).snap == m.snap
  {
    var boot := After(After(m, Die), Boot);
    if m.snap.Some? && m.game != Playing {
      assert boot.restores[0] == Coming;
    }
  }

  // -------------------------------------------------------------------------
  // One thing at a time
  // -------------------------------------------------------------------------

  /** A restore is on its way. */
  ghost predicate InFlight(m: Moment) {
    exists i :: 0 <= i < |m.restores| && m.restores[i] != Over
  }

  ghost predicate RestoreFits(m: Moment, r: Restore, original: Look) {
    match r
    case Waits(held, _) => m.snap.Some? && BringsBack(held, original)
    case Passed(held, _) => m.snap.Some? && BringsBack(held, original)
    case Worked => m.look == original
    case _ => true
  }

  /** Without a snapshot the account wears the original, a snapshot brings it back, and
      at most one restore is on its way, none of it during a launch or a game. */
  ghost predicate Keeps(m: Moment, original: Look) {
    && (m.snap == None ==> m.look == original)
    && (m.snap.Some? ==> BringsBack(m.snap.value, original))
    && (m.game.Taken? ==> BringsBack(m.game.shot, original))
    && (m.game.Trying? ==> m.snap.Some?)
    && (forall i | 0 <= i < |m.restores| && m.restores[i] != Over ::
          m.game == Idle && OnlyOne(m.restores, i) && RestoreFits(m, m.restores[i], original))
    && (!m.alive ==> m.restores == [] && (m.game == Idle || m.game == Playing))
  }

  ghost predicate OnlyOne(restores: seq<Restore>, i: int) {
    forall j | 0 <= j < |restores| && j != i :: restores[j] == Over
  }

  /** A launch begins when no restore is on its way; it has a snapshot only when the
      original is worn, and that snapshot is complete. */
  ghost predicate InOrder(m: Moment, e: Step, original: Look) {
    e.Begin? ==> !InFlight(m) && (e.shot.Some? ==> m.look == original && BringsBack(e.shot.value, original))
  }

  ghost predicate AllInOrder(m: Moment, es: seq<Step>, original: Look) {
    forall i | 0 <= i < |es| :: InOrder(Played(m, es[..i]), es[i], original)
  }

  lemma LaunchKeeps(m: Moment, e: Step, original: Look)
    requires Keeps(m, original) && InOrder(m, e, original) && m.alive
    ensures Keeps(Launched(m, e), original)
  {
    if m.game == Idle && e.Begin? {
      assert forall i | 0 <= i < |m.restores| :: m.restores[i] == Over;
    }
  }

  lemma RestoreKeeps(m: Moment, i: nat, e: Step, original: Look)
    requires Keeps(m, original) && i < |m.restores| && m.alive
    ensures Keeps(GoesOn(m, i, e), original)
  {
    if m.restores[i] != Over {
      assert OnlyOne(m.restores, i) && RestoreFits(m, m.restores[i], original);
      var next := GoesOn(m, i, e);
      forall j | 0 <= j < |next.restores| && next.restores[j] != Over
        ensures next.game == Idle && OnlyOne(next.restores, j) && RestoreFits(next, next.restores[j], original)
      {
        assert j == i;
      }
    }
  }

  lemma AfterKeeps(m: Moment, e: Step, original: Look)
    requires Keeps(m, original) && InOrder(m, e, original)
    ensures Keeps(After(m, e), original)
  {
    if m.alive {
      LaunchKeeps(m, e, original);
      if (e.Load? || e.Check? || e.TryBack? || e.Delete?) && e.i < |m.restores| {
        RestoreKeeps(m, e.i, e, original);
      }
    }
  }

  lemma {:induction false} PlayedKeeps(m: Moment, es: seq<Step>, original: Look)
    requires Keeps(m, original) && AllInOrder(m, es, original)
    ensures Keeps(Played(m, es), original)
  {
    if es != [] {
      var n := |es| - 1;
      assert forall i | 0 <= i < n :: es[..n][..i] == es[..i] && es[..n][i] == es[i];
      PlayedKeeps(m, es[..n], original);
      assert es[..n] == es[..|es| - 1] && InOrder(Played(m, es[..n]), es[n], original);
      AfterKeeps(Played(m, es[..n]), es[n], original);
    }
  }

  /** If no launch begins while a restore is on its way, or over a look that is not the
      original: in every interleaving of API calls, file accesses and deaths of the
      launcher, the original is worn or a snapshot on disk brings it back. */
  lemma OriginalSurvivesRestores(look: Look, es: seq<Step>)
    requires AllInOrder(Moment(look, None, Idle, [], true), es, look)
    ensures var now := Played(Moment(look, None, Idle, [], true), es);
            now.look != look ==> now.snap.Some? && BringsBack(now.snap.value, look)
  {
    PlayedKeeps(Moment(look, None, Idle, [], true), es, look);
  }

  ghost predicate NonePassed(m: Moment) {
    forall i | 0 <= i < |m.restores| :: !m.restores[i].Passed?
  }

  /** What looking at the running games does give: while the game runs, restores that did
      not look before it started do not change the look. */
  lemma {:induction false} LookStaysWhilePlaying(m: Moment, es: seq<Step>)
    requires NonePassed(m) && forall i | 0 <= i <= |es| :: Played(m, es[..i]).game == Playing
    ensures Played(m, es).look == m.look && NonePassed(Played(m, es))
  {
    if es != [] {
      var n := |es| - 1;
      assert forall i | 0 <= i <= n :: es[..n][..i] == es[..i];
      LookStaysWhilePlaying(m, es[..n]);
      assert es[..|es|] == es && Played(m, es[..n]).game == Playing;
      StepWhilePlaying(Played(m, es[..n]), es[n]);
    }
  }

  lemma StepWhilePlaying(m: Moment, e: Step)
    requires NonePassed(m) && m.game == Playing && After(m, e).game == Playing
    ensures After(m, e).look == m.look && NonePassed(After(m, e))
  {
  }

  // -------------------------------------------------------------------------
  // A launch beside a restore
  // -------------------------------------------------------------------------

  ghost predicate NoLaunch(es: seq<Step>) {
    forall i | 0 <= i < |es| :: !es[i].Begin?
  }

  /** However things go on, short of another launch: when no snapshot is left, the
      original is worn. */
  ghost predicate NeverLost(m: Moment, original: Look) {
    forall es | NoLaunch(es) && Played(m, es).snap == None :: Played(m, es).look == original
  }

  lemma {:induction false} PlayedOneMore(m: Moment, es: seq<Step>, e: Step)
    ensures Played(m, es + [e]) == After(Played(m, es), e)
  {
    assert (es + [e])[..|es + [e]| - 1] == es;
  }

  lemma NoLaunchInOrder(m: Moment, es: seq<Step>, original: Look)
    requires NoLaunch(es)
    ensures AllInOrder(m, es, original)
  {
  }

  lemma KeptIsNeverLost(m: Moment, original: Look)
    requires Keeps(m, original)
    ensures NeverLost(m, original)
  {
    forall es | NoLaunch(es) && Played(m, es).snap == None ensures Played(m, es).look == original {
      NoLaunchInOrder(m, es, original);
      PlayedKeeps(m, es, original);
    }
  }

  /** From a state in which the original is lost one step later, it is lost. */
  lemma LostLater(m: Moment, e: Step, original: Look)
    requires !e.Begin? && !NeverLost(After(m, e), original)
    ensures !NeverLost(m, original)
  {
    var es :| NoLaunch(es) && Played(After(m, e), es).snap == None && Played(After(m, e), es).look != original;
    PlayedFirst(m, e, es);
    assert NoLaunch([e] + es);
  }

  lemma {:induction false} PlayedFirst(m: Moment, e: Step, es: seq<Step>)
    ensures Played(m, [e] + es) == Played(After(m, e), es)
  {
    if es == [] {
      assert [e] + es == [e] && [e][..0] == [];
      assert Played(m, []) == m;
    } else {
      var n := |es| - 1;
      PlayedFirst(m, e, es[..n]);
      assert ([e] + es)[..|[e] + es| - 1] == [e] + es[..n];
    }
  }

  lemma LostNow(m: Moment, original: Look)
    requires m.snap == None && m.look != original
    ensures !NeverLost(m, original)
  {
    assert NoLaunch([]) && Played(m, []) == m;
  }

  /** A preset with another skin. */
  function OtherPreset(look: Look): (p: Preset)
    ensures forall now: Look :: Wear(p)(now) != look
  {
    Preset(if look.skin == Some([]) then [0] else [], look.slim, None)
  }

  /** A restore that has worked deletes the snapshot of the new launch. */
  lemma OldRestoreDeletes(m: Moment, i: nat, original: Look)
    requires m.alive && m.game.Trying? && i < |m.restores| && m.restores[i] == Worked
    ensures !NeverLost(m, original)
  {
    var putOn := TryPreset(OtherPreset(original), Works);
    LostNow(After(After(m, putOn), Delete(i)), original);
    LostLater(After(m, putOn), Delete(i), original);
    LostLater(m, putOn, original);
  }

  /** And any restore can come that far while the preset is being tried. */
  lemma OldRestoreComes(m: Moment, i: nat, original: Look)
    requires m.alive && m.game.Trying? && m.snap.Some? && i < |m.restores| && m.restores[i] != Over
    ensures !NeverLost(m, original)
    decreases match m.restores[i] case Coming => 3 case Waits(_, _) => 2 case Passed(_, _) => 1 case _ => 0
  {
    match m.restores[i]
    case Coming =>
      OldRestoreComes(After(m, Load(i)), i, original);
      LostLater(m, Load(i), original);
    case Waits(_, _) =>
      OldRestoreComes(After(m, Check(i)), i, original);
      LostLater(m, Check(i), original);
    case Passed(_, _) =>
      OldRestoreComes(After(m, TryBack(i, Works)), i, original);
      LostLater(m, TryBack(i, Works), original);
    case Worked =>
      OldRestoreDeletes(m, i, original);
  }

  /** A snapshot of another look is restored in the end. */
  lemma WrongShotComesBack(m: Moment, shot: Snapshot, worn: Look, original: Look)
    requires m.alive && m.game == Taken(shot) && BringsBack(shot, worn) && worn != original
    ensures !NeverLost(m, original)
  {
    var i, p := |m.restores|, OtherPreset(m.look);
    var m1 := After(m, SaveShot);
    var m2 := After(m1, TryPreset(p, Works));
    var m3 := After(m2, EndGame);
    assert m3.restores[i] == Coming && m3.snap == Some(shot);
    WrongRestore(m3, i, shot, worn, original);
    LostLater(m2, EndGame, original);
    LostLater(m1, TryPreset(p, Works), original);
    LostLater(m, SaveShot, original);
  }

  lemma WrongRestore(m: Moment, i: nat, shot: Snapshot, worn: Look, original: Look)
    requires m.alive && m.game == Idle && i < |m.restores| && m.restores[i] == Coming && m.snap == Some(shot)
    requires BringsBack(shot, worn) && worn != original
    ensures !NeverLost(m, original)
  {
    var m1 := After(m, Load(i));
    var m2 := After(m1, Check(i));
    var m3 := After(m2, TryBack(i, Works));
    assert m3.look == Back(shot)(m2.look) == worn;
    LostNow(After(m3, Delete(i)), original);
    LostLater(m3, Delete(i), original);
    LostLater(m2, TryBack(i, Works), original);
    LostLater(m1, Check(i), original);
    LostLater(m, Load(i), original);
  }

  /** The launch of the build again, at any moment of a run that was in order so far, with
      a complete snapshot. The original is safe in every way things can go on exactly if no
      restore is on its way and the original is worn. The check whether the game runs does
      not help: the preset is put on before. */
  lemma RelaunchIsSafeExactly(look: Look, es: seq<Step>, shot: Snapshot)
    requires AllInOrder(Moment(look, None, Idle, [], true), es, look)
    requires var now := Played(Moment(look, None, Idle, [], true), es);
             now.alive && now.game == Idle && BringsBack(shot, now.look)
    ensures var now := Played(Moment(look, None, Idle, [], true), es);
            NeverLost(After(now, Begin(Some(shot))), look) <==> !InFlight(now) && now.look == look
  {
    var now := Played(Moment(look, None, Idle, [], true), es);
    var begun := After(now, Begin(Some(shot)));
    PlayedKeeps(Moment(look, None, Idle, [], true), es, look);
    if now.look != look {
      WrongShotComesBack(begun, shot, now.look, look);
    } else if InFlight(now) {
      var i :| 0 <= i < |now.restores| && now.restores[i] != Over;
      OldRestoreComes(After(begun, SaveShot), i, look);
      LostLater(begun, SaveShot, look);
    } else {
      AfterKeeps(now, Begin(Some(shot)), look);
      KeptIsNeverLost(begun, look);
    }
  }
}
