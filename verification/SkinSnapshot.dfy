/**
 * The build skin (backend/build_skin.go): before a game starts a preset is put
 * on the player's account, and after it ends the previous look comes back. A
 * snapshot of the previous look lies on disk in between, so that a restore that
 * failed, or that a dead launcher never made, can be made at the next start.
 *
 * One account and any number of builds. What the Mojang API and the disk do, and
 * where the launcher dies, are inputs of every event.
 */
module SkinSnapshot {
  import opened Common

  type Png = seq<bv8>
  type BuildId = string

  const APPLY_ATTEMPTS: nat := 4
  const RESTORE_ATTEMPTS: nat := 6

  // -------------------------------------------------------------------------
  // Looks
  // -------------------------------------------------------------------------

  /** What the account wears; without a skin of its own it wears the default one. */
  datatype Look = Look(skin: Option<Png>, slim: bool, cape: Option<string>)

  /** A preset has a skin, and a cape if the account owns the one it names. */
  datatype Preset = Preset(skin: Png, slim: bool, cape: Option<string>)

  datatype Snapshot = Snapshot(skin: Option<Png>, slim: bool, cape: Option<string>)

  /** `ApplyPreset`: a preset without a cape leaves the active one. */
  function Wear(p: Preset): Look -> Look {
    (now: Look) => Look(Some(p.skin), p.slim, if p.cape.Some? then p.cape else now.cape)
  }

  /** `SnapshotActiveLook`: a texture or a cape list that could not be fetched is
      silently left out. */
  function Shot(look: Look, gotSkin: bool, gotCapes: bool): Snapshot {
    Snapshot(if gotSkin then look.skin else None, look.slim, if gotCapes then look.cape else None)
  }

  /** `RestoreLook`: the API cannot take a skin off, a cape it can. */
  function Back(s: Snapshot): Look -> Look {
    (now: Look) => Look(
      if s.skin.Some? then s.skin else now.skin,
      if s.skin.Some? then s.slim else now.slim,
      s.cape)
  }

  /** Restoring `s` gives `look`, whatever is worn now. */
  ghost predicate BringsBack(s: Snapshot, look: Look) {
    forall now: Look :: Back(s)(now) == look
  }

  /** A snapshot brings back exactly the look it was taken from precisely when the
      account had a skin of its own, its texture was fetched, and its cape, if any,
      was seen. */
  lemma ShotBringsBack(look: Look, gotSkin: bool, gotCapes: bool)
    ensures BringsBack(Shot(look, gotSkin, gotCapes), look)
            <==> look.skin.Some? && gotSkin && (gotCapes || look.cape == None)
  {
    var s := Shot(look, gotSkin, gotCapes);
    if !(look.skin.Some? && gotSkin) {
      var other := Look(if look.skin == Some([]) then Some([0]) else Some([]), look.slim, look.cape);
      assert Back(s)(other) != look;
    } else if !gotCapes && look.cape.Some? {
      assert Back(s)(look) != look;
    }
  }

  lemma BringsBackOne(s: Snapshot, a: Look, b: Look)
    requires BringsBack(s, a) && BringsBack(s, b)
    ensures a == b
  {
    assert Back(s)(a) == a && Back(s)(a) == b;
  }

  // -------------------------------------------------------------------------
  // Retries
  // -------------------------------------------------------------------------

  /** One try of an API operation: it works, it fails leaving the account in some
      look, or it is not made because a session of the build runs again. */
  datatype Try = Works | Breaks(leaves: Look) | Guarded

  datatype Outcome = Ok | Failed | Died

  /** `withSkinRetries`: how up to `n` tries end; the launcher dies when `tries` ends first. */
  function Ended(tries: seq<Try>, n: nat): Outcome {
    if n == 0 then Failed
    else if tries == [] then Died
    else if tries[0] == Works then Ok
    else Ended(tries[1..], n - 1)
  }

  /** The look after up to `n` tries of `f`. */
  function Retried(look: Look, f: Look -> Look, tries: seq<Try>, n: nat): Look
    decreases n
  {
    if n == 0 || tries == [] then look
    else match tries[0]
      case Works => f(look)
      case Breaks(l) => Retried(l, f, tries[1..], n - 1)
      case Guarded => Retried(look, f, tries[1..], n - 1)
  }

  lemma {:induction false} RetriedOk(look: Look, f: Look -> Look, tries: seq<Try>, n: nat, goal: Look)
    requires Ended(tries, n) == Ok && forall l: Look :: f(l) == goal
    ensures Retried(look, f, tries, n) == goal
    decreases n
  {
    match tries[0]
    case Works =>
    case Breaks(l) => RetriedOk(l, f, tries[1..], n - 1, goal);
    case Guarded => RetriedOk(look, f, tries[1..], n - 1, goal);
  }

  // -------------------------------------------------------------------------
  // Events
  // -------------------------------------------------------------------------

  /** The account: its look, the snapshots on disk, and the builds whose game runs. */
  datatype State = State(look: Look, snaps: map<BuildId, Snapshot>, running: set<BuildId>)

  /** What happens while a preset is applied: whether the snapshot could be taken
      (and what of it was fetched) and saved, and the tries of the preset. */
  datatype Applying = Applying(taken: bool, gotSkin: bool, gotCapes: bool, saved: bool, tries: seq<Try>)

  /** What happens at one restore: whether restoring is switched on, and the tries. */
  datatype Restoring = Restoring(on: bool, tries: seq<Try>)

  datatype Event =
    | Launch(build: BuildId, preset: Option<Preset>, licensed: bool, applying: Applying)
    | Exit(build: BuildId, restore: Restoring)     // the game ends, the exit handler restores
    | EndsUnseen(build: BuildId)                   // the game ends while the launcher is dead
    | Start(listing: seq<BuildId>, known: bool, restores: BuildId -> Restoring) // the launcher starts

  /** `applyBuildSkinBeforeLaunch`; the game starts also when this fails. */
  function Applied(s: State, b: BuildId, preset: Option<Preset>, licensed: bool, how: Applying): (State, Outcome) {
    if preset == None then (s, Ok)
    else if !licensed || !how.taken || !how.saved then (s, Failed)
    else
      var look := Retried(s.look, Wear(preset.value), how.tries, APPLY_ATTEMPTS);
      (s.(look := look, snaps := s.snaps[b := Shot(s.look, how.gotSkin, how.gotCapes)]), Ended(how.tries, APPLY_ATTEMPTS))
  }

  /** `restoreBuildSkinAfterExit`: only a restore that worked, or that is switched
      off, deletes the snapshot. */
  function Restored(s: State, b: BuildId, how: Restoring): (State, Outcome) {
    if b !in s.snaps then (s, Ok)
    else if !how.on then (s.(snaps := s.snaps - {b}), Ok)
    else
      var look := Retried(s.look, Back(s.snaps[b]), how.tries, RESTORE_ATTEMPTS);
      var outcome := Ended(how.tries, RESTORE_ATTEMPTS);
      (s.(look := look, snaps := if outcome == Ok then s.snaps - {b} else s.snaps), outcome)
  }

  /** `restoreStaleBuildSkins` over the listing of the snapshot directory; it ends
      early when the launcher dies. */
  function RestoredStale(s: State, listing: seq<BuildId>, known: bool, how: BuildId -> Restoring): State
    decreases |listing|
  {
    if listing == [] then s
    else
      var b := listing[0];
      if b !in s.snaps || b in s.running then RestoredStale(s, listing[1..], known, how)
      else if !known then RestoredStale(s.(snaps := s.snaps - {b}), listing[1..], known, how)
      else
        var (s', outcome) := Restored(s, b, how(b));
        if outcome == Died then s' else RestoredStale(s', listing[1..], known, how)
  }

  function Next(s: State, e: Event): State {
    match e
    case Launch(b, preset, licensed, how) =>
      var (s', outcome) := Applied(s, b, preset, licensed, how);
      if outcome == Died then s' else s'.(running := s'.running + {b})
    case Exit(b, how) => Restored(s.(running := s.running - {b}), b, how).0
    case EndsUnseen(b) => s.(running := s.running - {b})
    case Start(listing, known, how) => RestoredStale(s, listing, known, how)
  }

  function Run(s: State, es: seq<Event>): State {
    if es == [] then s else Next(Run(s, es[..|es| - 1]), es[|es| - 1])
  }

  // -------------------------------------------------------------------------
  // What one launch and one restore do
  // -------------------------------------------------------------------------

  /** One of the first `n` tries works. */
  predicate SomeWorks(tries: seq<Try>, n: nat) {
    exists k :: 0 <= k < n && k < |tries| && tries[k] == Works
  }

  predicate NoneBreaks(tries: seq<Try>) {
    forall k | 0 <= k < |tries| :: !tries[k].Breaks?
  }

  /** The retries succeed exactly if one of the first `n` tries works; else the launcher
      died before the last of them, or they failed. */
  lemma {:induction false} EndedExactly(tries: seq<Try>, n: nat)
    ensures Ended(tries, n) == Ok <==> SomeWorks(tries, n)
    ensures Ended(tries, n) == Died <==> !SomeWorks(tries, n) && |tries| < n
  {
    if n > 0 && tries != [] {
      EndedExactly(tries[1..], n - 1);
      if SomeWorks(tries, n) && tries[0] != Works {
        var k :| 0 <= k < n && k < |tries| && tries[k] == Works;
        assert tries[1..][k - 1] == Works;
      }
      if SomeWorks(tries[1..], n - 1) {
        var k :| 0 <= k < n - 1 && k < |tries[1..]| && tries[1..][k] == Works;
        assert tries[k + 1] == Works;
      }
    }
  }

  /** The last try does its work on whatever the tries before it have left. */
  lemma {:induction false} RetriedFrom(look: Look, f: Look -> Look, tries: seq<Try>, n: nat) returns (before: Look)
    requires Ended(tries, n) == Ok
    ensures Retried(look, f, tries, n) == f(before) && (NoneBreaks(tries) ==> before == look)
    decreases n
  {
    match tries[0]
    case Works => before := look;
    case Breaks(l) => before := RetriedFrom(l, f, tries[1..], n - 1);
    case Guarded =>
      before := RetriedFrom(look, f, tries[1..], n - 1);
      assert NoneBreaks(tries) ==> NoneBreaks(tries[1..]);
  }

  /** The look after `n` tries that do not end in success: what the last try that broke has
      left, or the look from before. */
  lemma {:induction false} FailedTriesLeave(look: Look, f: Look -> Look, tries: seq<Try>, n: nat, k: nat)
    requires n <= |tries| && !SomeWorks(tries, n) && k <= n
    requires (k > 0 ==> tries[k - 1].Breaks?) && forall i | k <= i < n :: !tries[i].Breaks?
    ensures Retried(look, f, tries, n) == if k > 0 then tries[k - 1].leaves else look
    decreases n
  {
    if n > 0 {
      assert tries[0] != Works;
      forall i | 0 <= i < n - 1 ensures tries[1..][i] != Works {
        assert tries[1..][i] == tries[i + 1];
      }
      var left := if tries[0].Breaks? then tries[0].leaves else look;
      FailedTriesLeave(left, f, tries[1..], n - 1, if k > 0 then k - 1 else 0);
    }
  }

  /** What the account wears once the preset was applied, after any failed tries. A preset
      without a cape leaves the one worn before. */
  lemma PresetIsWorn(s: State, b: BuildId, p: Preset, licensed: bool, how: Applying)
    requires Applied(s, b, Some(p), licensed, how).1 == Ok
    ensures var now := Applied(s, b, Some(p), licensed, how).0.look;
            && now.skin == Some(p.skin) && now.slim == p.slim
            && (p.cape.Some? ==> now.cape == p.cape)
            && (p.cape == None && NoneBreaks(how.tries) ==> now.cape == s.look.cape)
  {
    var before := RetriedFrom(s.look, Wear(p), how.tries, APPLY_ATTEMPTS);
  }

  /** When that comes about, and what is on disk then: nothing is changed without a
      licence, a snapshot taken and saved; with them the snapshot holds what was fetched
      of the look worn before. */
  lemma AppliedExactly(s: State, b: BuildId, p: Preset, licensed: bool, how: Applying)
    ensures var (now, outcome) := Applied(s, b, Some(p), licensed, how);
            if licensed && how.taken && how.saved then
              && (outcome == Ok <==> SomeWorks(how.tries, 4)) && (outcome == Died <==> !SomeWorks(how.tries, 4) && |how.tries| < 4)
              && b in now.snaps && now.snaps - {b} == s.snaps - {b} && now.running == s.running
              && now.snaps[b].skin == (if how.gotSkin then s.look.skin else None)
              && now.snaps[b].slim == s.look.slim
              && now.snaps[b].cape == (if how.gotCapes then s.look.cape else None)
            else now == s && outcome == Failed
  {
    EndedExactly(how.tries, APPLY_ATTEMPTS);
  }

  /** A restore that works puts the cape of the snapshot on, or takes the cape off, and puts
      the skin on if the snapshot has one. */
  lemma SnapshotIsWorn(s: State, b: BuildId, how: Restoring)
    requires b in s.snaps && how.on && Restored(s, b, how).1 == Ok
    ensures var now, shot := Restored(s, b, how).0.look, s.snaps[b];
            && now.cape == shot.cape
            && (shot.skin.Some? ==> now.skin == shot.skin && now.slim == shot.slim)
            && (shot.skin == None && NoneBreaks(how.tries) ==> now.skin == s.look.skin && now.slim == s.look.slim)
  {
    var before := RetriedFrom(s.look, Back(s.snaps[b]), how.tries, RESTORE_ATTEMPTS);
  }

  /** The snapshot goes exactly if one of six tries works or restoring is off; in the latter
      case the look stays. */
  lemma RestoredExactly(s: State, b: BuildId, how: Restoring)
    ensures var (now, outcome) := Restored(s, b, how);
            && now.running == s.running
            && now.snaps == (if how.on && !SomeWorks(how.tries, 6) then s.snaps else s.snaps - {b})
            && (b !in s.snaps || !how.on ==> now.look == s.look && outcome == Ok)
            && (b in s.snaps && how.on ==> (outcome == Ok <==> SomeWorks(how.tries, 6)) && (outcome == Died <==> !SomeWorks(how.tries, 6) && |how.tries| < 6))
  {
    EndedExactly(how.tries, RESTORE_ATTEMPTS);
    if b !in s.snaps {
      assert s.snaps - {b} == s.snaps;
    }
  }

  /** At a start the snapshots of builds whose game runs stay; if the account is gone, all
      others that are listed go, and the look stays. */
  lemma {:induction false} StaleSpares(s: State, listing: seq<BuildId>, known: bool, how: BuildId -> Restoring)
    ensures var now := RestoredStale(s, listing, known, how);
            && now.running == s.running
            && (forall b | b in s.running || b !in listing :: (b in now.snaps <==> b in s.snaps) && (b in now.snaps ==> now.snaps[b] == s.snaps[b]))
            && (!known ==> now.look == s.look && forall b | b in listing && b !in s.running :: b !in now.snaps)
            && ((forall b | b in listing :: b in s.running) ==> now == s)
    decreases |listing|
  {
    if listing != [] {
      var b := listing[0];
      assert forall x :: x in listing <==> x == b || x in listing[1..];
      if b !in s.snaps {
        StaleSpares(s, listing[1..], known, how);
        StaleDoesNotAdd(s, listing[1..], known, how, b);
      } else if b in s.running {
        StaleSpares(s, listing[1..], known, how);
      } else if !known {
        StaleSpares(s.(snaps := s.snaps - {b}), listing[1..], known, how);
        StaleDoesNotAdd(s.(snaps := s.snaps - {b}), listing[1..], known, how, b);
      } else {
        RestoredExactly(s, b, how(b));
        StaleSpares(Restored(s, b, how(b)).0, listing[1..], known, how);
      }
    }
  }

  /** A launcher that dies in a restore makes no other one. */
  lemma DeadLauncherStops(s: State, listing: seq<BuildId>, how: BuildId -> Restoring)
    requires listing != [] && listing[0] in s.snaps && listing[0] !in s.running
    requires how(listing[0]).on && !SomeWorks(how(listing[0]).tries, 6) && |how(listing[0]).tries| < 6
    ensures var now := RestoredStale(s, listing, true, how);
            now.snaps == s.snaps && now.look == Retried(s.look, Back(s.snaps[listing[0]]), how(listing[0]).tries, 6)
  {
    RestoredExactly(s, listing[0], how(listing[0]));
  }

  lemma StaleDoesNotAdd(s: State, listing: seq<BuildId>, known: bool, how: BuildId -> Restoring, b: BuildId)
    requires b !in s.snaps
    ensures b !in RestoredStale(s, listing, known, how).snaps
  {
    if b in RestoredStale(s, listing, known, how).snaps {
      StaleOnlyDeletes(s, listing, known, how, b);
    }
  }

  // -------------------------------------------------------------------------
  // The original look is never lost
  // -------------------------------------------------------------------------

  /** Either the account wears the original and no snapshot is left, or the one
      snapshot on disk brings the original back. */
  ghost predicate Kept(s: State, original: Look) {
    || (s.snaps == map[] && s.look == original)
    || exists b :: b in s.snaps && s.snaps.Keys == {b} && BringsBack(s.snaps[b], original)
  }

  /** The assumptions: a preset is launched only when no snapshot is outstanding,
      a snapshot taken is one that brings back its look, restoring stays switched
      on, and the account stays known. */
  ghost predicate Allowed(s: State, e: Event) {
    match e
    case Launch(_, preset, licensed, how) =>
      preset.Some? && licensed && how.taken && how.saved ==>
        s.snaps == map[] && BringsBack(Shot(s.look, how.gotSkin, how.gotCapes), s.look)
    case Exit(_, how) => how.on
    case EndsUnseen(_) => true
    case Start(_, known, how) => known && forall b :: how(b).on
  }

  ghost predicate AllAllowed(s: State, es: seq<Event>) {
    forall i | 0 <= i < |es| :: Allowed(Run(s, es[..i]), es[i])
  }

  lemma RestoredKeeps(s: State, b: BuildId, how: Restoring, original: Look)
    requires Kept(s, original) && how.on
    ensures Kept(Restored(s, b, how).0, original)
  {
    if b in s.snaps {
      var c :| c in s.snaps && s.snaps.Keys == {c} && BringsBack(s.snaps[c], original);
      assert b == c;
      var s' := Restored(s, b, how).0;
      if Ended(how.tries, RESTORE_ATTEMPTS) == Ok {
        RetriedOk(s.look, Back(s.snaps[b]), how.tries, RESTORE_ATTEMPTS, original);
        assert s'.snaps == map[];
      } else {
        assert b in s'.snaps;
      }
    }
  }

  lemma {:induction false} StaleKeeps(s: State, listing: seq<BuildId>, how: BuildId -> Restoring, original: Look)
    requires Kept(s, original) && forall b :: how(b).on
    ensures Kept(RestoredStale(s, listing, true, how), original)
    decreases |listing|
  {
    if listing != [] {
      var b := listing[0];
      RestoredKeeps(s, b, how(b), original);
      StaleKeeps(s, listing[1..], how, original);
      StaleKeeps(Restored(s, b, how(b)).0, listing[1..], how, original);
    }
  }

  lemma NextKeeps(s: State, e: Event, original: Look)
    requires Kept(s, original) && Allowed(s, e)
    ensures Kept(Next(s, e), original)
  {
    match e
    case Launch(b, preset, licensed, how) =>
      if preset.Some? && licensed && how.taken && how.saved {
        var s' := Next(s, e);
        assert b in s'.snaps && s'.snaps.Keys == {b};
      }
    case Exit(b, how) => RestoredKeeps(s.(running := s.running - {b}), b, how, original);
    case EndsUnseen(b) =>
    case Start(listing, known, how) => StaleKeeps(s, listing, how, original);
  }

  lemma {:induction false} RunKeeps(s: State, es: seq<Event>)
    requires s.snaps == map[] && AllAllowed(s, es)
    ensures Kept(Run(s, es), s.look)
  {
    if es != [] {
      var n := |es| - 1;
      assert forall i | 0 <= i < n :: es[..n][..i] == es[..i];
      RunKeeps(s, es[..n]);
      NextKeeps(Run(s, es[..n]), es[n], s.look);
    }
  }

  /** In every run of launches, exits, crashes, starts and failed restores: while
      the account does not wear its original look, a snapshot that brings the
      original back is on disk; and when no snapshot is left it wears the original. */
  lemma OriginalIsNeverLost(s: State, es: seq<Event>)
    requires s.snaps == map[] && AllAllowed(s, es)
    ensures var now := Run(s, es);
            && (now.look != s.look ==> exists b :: b in now.snaps && BringsBack(now.snaps[b], s.look))
            && (now.snaps == map[] ==> now.look == s.look)
  {
    RunKeeps(s, es);
  }

  /** Whatever happened before: once no game runs, a start whose restore works at
      one of the first six tries ends with the original look and no snapshot. */
  lemma StartRecovers(s: State, es: seq<Event>, listing: seq<BuildId>, how: BuildId -> Restoring)
    requires s.snaps == map[] && AllAllowed(s, es)
    requires var now := Run(s, es);
             && now.running == {}
             && (forall b | b in now.snaps :: b in listing)
             && (forall b :: how(b).on)
             && forall b | b in now.snaps :: Ended(how(b).tries, RESTORE_ATTEMPTS) == Ok
    ensures var end := Next(Run(s, es), Start(listing, true, how));
            end.look == s.look && end.snaps == map[]
  {
    var now := Run(s, es);
    RunKeeps(s, es);
    StaleRecovers(now, listing, how, s.look);
  }

  lemma {:induction false} StaleRecovers(s: State, listing: seq<BuildId>, how: BuildId -> Restoring, original: Look)
    requires Kept(s, original) && s.running == {} && forall b :: how(b).on
    requires forall b | b in s.snaps :: b in listing && Ended(how(b).tries, RESTORE_ATTEMPTS) == Ok
    ensures var end := RestoredStale(s, listing, true, how); end.look == original && end.snaps == map[]
    decreases |listing|
  {
    if listing != [] {
      var b := listing[0];
      if b in s.snaps {
        RestoredKeeps(s, b, how(b), original);
        var s' := Restored(s, b, how(b)).0;
        assert s'.snaps == map[];
        StaleRecovers(s', listing[1..], how, original);
      } else {
        StaleRecovers(s, listing[1..], how, original);
      }
    }
  }

  /** Launching the same build again over an outstanding snapshot replaces it. The
      original is still recoverable exactly when the account wears it at that time. */
  lemma RelaunchOverSnapshot(s: State, b: BuildId, p: Preset, how: Applying, original: Look)
    requires s.snaps.Keys == {b} && BringsBack(s.snaps[b], original)
    requires how.taken && how.saved && BringsBack(Shot(s.look, how.gotSkin, how.gotCapes), s.look)
    ensures Kept(Next(s, Launch(b, Some(p), true, how)), original) <==> s.look == original
  {
    var s' := Next(s, Launch(b, Some(p), true, how));
    assert s'.snaps.Keys == {b} && s'.snaps[b] == Shot(s.look, how.gotSkin, how.gotCapes);
    if BringsBack(s'.snaps[b], original) {
      BringsBackOne(s'.snaps[b], s.look, original);
    }
  }

  // -------------------------------------------------------------------------
  // Several builds on one account, in any interleaving
  // -------------------------------------------------------------------------

  /** `e`, taken in `s`, saves a snapshot. */
  predicate Saves(e: Event) {
    e.Launch? && e.preset.Some? && e.licensed && e.applying.taken && e.applying.saved
  }

  /** Each snapshot brings back the look it is taken from, restoring stays on and the
      account stays known. Sessions may cross, overlap and be launched again, presets
      and restores may fail at any try, and the launcher may die and start anywhere. */
  ghost predicate Complete(s: State, e: Event) {
    match e
    case Launch(_, _, _, how) => Saves(e) ==> BringsBack(Shot(s.look, how.gotSkin, how.gotCapes), s.look)
    case Exit(_, how) => how.on
    case EndsUnseen(_) => true
    case Start(_, known, how) => known && forall b :: how(b).on
  }

  ghost predicate AllComplete(s: State, es: seq<Event>) {
    forall i | 0 <= i < |es| :: Complete(Run(s, es[..i]), es[i])
  }

  /** Which event launched the session whose snapshot is outstanding, for each build,
      and which launched the session that was restored last. */
  datatype History = History(launched: map<BuildId, nat>, last: Option<nat>)

  function RestoredStory(h: History, s: State, b: BuildId, how: Restoring): History {
    if b in s.snaps && how.on && Ended(how.tries, RESTORE_ATTEMPTS) == Ok && b in h.launched
    then h.(last := Some(h.launched[b])) else h
  }

  function StaleStory(h: History, s: State, listing: seq<BuildId>, how: BuildId -> Restoring): History
    decreases |listing|
  {
    if listing == [] then h
    else
      var b := listing[0];
      if b !in s.snaps || b in s.running then StaleStory(h, s, listing[1..], how)
      else
        var (s', outcome) := Restored(s, b, how(b));
        var h' := RestoredStory(h, s, b, how(b));
        if outcome == Died then h' else StaleStory(h', s', listing[1..], how)
  }

  function Story(s: State, es: seq<Event>): History {
    if es == [] then History(map[], None)
    else
      var n := |es| - 1;
      var h, before := Story(s, es[..n]), Run(s, es[..n]);
      match es[n]
      case Launch(b, _, _, _) => if Saves(es[n]) then h.(launched := h.launched[b := n]) else h
      case Exit(b, how) => RestoredStory(h, before, b, how)
      case EndsUnseen(_) => h
      case Start(listing, _, how) => StaleStory(h, before, listing, how)
  }

  /** The look before the `i`-th event. */
  function LookBefore(s: State, es: seq<Event>, i: nat): Look
    requires i <= |es|
  {
    Run(s, es[..i]).look
  }

  /** The look before the launch of the session that was restored last, or the first look. */
  function LookOwed(s: State, es: seq<Event>, h: History): Look
    requires h.last.Some? ==> h.last.value < |es|
  {
    if h.last.Some? then LookBefore(s, es, h.last.value) else s.look
  }

  /** Each outstanding snapshot brings back the look before its launch, and without one
      the account wears the look before the launch that was restored last. */
  ghost predicate Truthful(s: State, es: seq<Event>, now: State, h: History) {
    && (h.last.Some? ==> h.last.value < |es|)
    && (forall b | b in now.snaps ::
          b in h.launched && h.launched[b] < |es| && BringsBack(now.snaps[b], LookBefore(s, es, h.launched[b])))
    && (now.snaps == map[] ==> now.look == LookOwed(s, es, h))
  }

  lemma RestoredTruthful(s: State, es: seq<Event>, now: State, h: History, b: BuildId, how: Restoring)
    requires Truthful(s, es, now, h) && how.on
    ensures Truthful(s, es, Restored(now, b, how).0, RestoredStory(h, now, b, how))
  {
    if b in now.snaps && Ended(how.tries, RESTORE_ATTEMPTS) == Ok {
      RetriedOk(now.look, Back(now.snaps[b]), how.tries, RESTORE_ATTEMPTS, LookBefore(s, es, h.launched[b]));
    } else if b in now.snaps {
      assert b in Restored(now, b, how).0.snaps;
    }
  }

  lemma {:induction false} StaleTruthful(s: State, es: seq<Event>, now: State, h: History, listing: seq<BuildId>, how: BuildId -> Restoring)
    requires Truthful(s, es, now, h) && forall b :: how(b).on
    ensures Truthful(s, es, RestoredStale(now, listing, true, how), StaleStory(h, now, listing, how))
    decreases |listing|
  {
    if listing != [] {
      var b := listing[0];
      RestoredTruthful(s, es, now, h, b, how(b));
      StaleTruthful(s, es, now, h, listing[1..], how);
      StaleTruthful(s, es, Restored(now, b, how(b)).0, RestoredStory(h, now, b, how(b)), listing[1..], how);
    }
  }

  lemma TruthfulLater(s: State, es: seq<Event>, n: nat, now: State, h: History)
    requires n < |es| && Truthful(s, es[..n], now, h)
    ensures Truthful(s, es, now, h)
  {
    assert forall i | 0 <= i <= n :: es[..n][..i] == es[..i];
  }

  lemma {:induction false} StoryIsTruthful(s: State, es: seq<Event>)
    requires s.snaps == map[] && AllComplete(s, es)
    ensures Truthful(s, es, Run(s, es), Story(s, es))
  {
    if es != [] {
      var n := |es| - 1;
      var before, h := Run(s, es[..n]), Story(s, es[..n]);
      assert forall i | 0 <= i < n :: es[..n][..i] == es[..i];
      StoryIsTruthful(s, es[..n]);
      TruthfulLater(s, es, n, before, h);
      StepTruthful(s, es, before, h);
    }
  }

  lemma StepTruthful(s: State, es: seq<Event>, before: State, h: History)
    requires es != [] && before == Run(s, es[..|es| - 1]) && h == Story(s, es[..|es| - 1])
    requires Truthful(s, es, before, h) && Complete(before, es[|es| - 1])
    ensures Truthful(s, es, Next(before, es[|es| - 1]), Story(s, es))
  {
    var n := |es| - 1;
    match es[n]
    case Launch(b, preset, licensed, how) => LaunchTruthful(s, es, before, h);
    case Exit(b, how) => ExitTruthful(s, es, before, h, b, how);
    case EndsUnseen(b) =>
    case Start(listing, known, how) => StaleTruthful(s, es, before, h, listing, how);
  }

  lemma LaunchTruthful(s: State, es: seq<Event>, before: State, h: History)
    requires es != [] && es[|es| - 1].Launch? && before == Run(s, es[..|es| - 1])
    requires Truthful(s, es, before, h) && Complete(before, es[|es| - 1])
    ensures var n := |es| - 1;
            Truthful(s, es, Next(before, es[n]), if Saves(es[n]) then h.(launched := h.launched[es[n].build := n]) else h)
  {
    if Saves(es[|es| - 1]) {
      assert es[|es| - 1].build in Next(before, es[|es| - 1]).snaps;
    }
  }

  lemma ExitTruthful(s: State, es: seq<Event>, now: State, h: History, b: BuildId, how: Restoring)
    requires Truthful(s, es, now, h) && how.on
    ensures Truthful(s, es, Next(now, Exit(b, how)), RestoredStory(h, now, b, how))
  {
    var gone := now.(running := now.running - {b});
    assert RestoredStory(h, now, b, how) == RestoredStory(h, gone, b, how);
    RestoredTruthful(s, es, gone, h, b, how);
  }

  lemma {:induction false} StaleOnlyDeletes(s: State, listing: seq<BuildId>, known: bool, how: BuildId -> Restoring, b: BuildId)
    requires b in RestoredStale(s, listing, known, how).snaps
    ensures b in s.snaps && RestoredStale(s, listing, known, how).snaps[b] == s.snaps[b]
    decreases |listing|
  {
    if listing != [] {
      var c := listing[0];
      if c !in s.snaps || c in s.running {
        StaleOnlyDeletes(s, listing[1..], known, how, b);
      } else if !known {
        StaleOnlyDeletes(s.(snaps := s.snaps - {c}), listing[1..], known, how, b);
      } else if Restored(s, c, how(c)).1 != Died {
        StaleOnlyDeletes(Restored(s, c, how(c)).0, listing[1..], known, how, b);
      }
    }
  }

  lemma {:induction false} SnapshotStays(s: State, es: seq<Event>, b: BuildId)
    requires b in Run(s, es).snaps && forall i | 0 <= i < |es| :: !(Saves(es[i]) && es[i].build == b)
    ensures b in s.snaps && Run(s, es).snaps[b] == s.snaps[b]
  {
    if es != [] {
      var n := |es| - 1;
      var before := Run(s, es[..n]);
      if es[n].Start? {
        StaleOnlyDeletes(before, es[n].listing, es[n].known, es[n].restores, b);
      }
      SnapshotStays(s, es[..n], b);
    }
  }

  /** One session on its own terms: if its snapshot is complete, not saved anew and
      still there, a restore that works gives exactly the look from before its launch,
      whatever else has happened, to this build and to others, complete or not. */
  lemma SessionRestores(s: State, start: Event, es: seq<Event>, how: Restoring)
    requires start.Launch? && Saves(start)
    requires BringsBack(Shot(s.look, start.applying.gotSkin, start.applying.gotCapes), s.look)
    requires forall i | 0 <= i < |es| :: !(Saves(es[i]) && es[i].build == start.build)
    requires start.build in Run(Next(s, start), es).snaps && how.on && Ended(how.tries, RESTORE_ATTEMPTS) == Ok
    ensures Next(Run(Next(s, start), es), Exit(start.build, how)).look == s.look
  {
    var now := Run(Next(s, start), es);
    SnapshotStays(Next(s, start), es, start.build);
    RetriedOk(now.look, Back(now.snaps[start.build]), how.tries, RESTORE_ATTEMPTS, s.look);
  }

  /** Whatever happened in between, in any interleaving of any number of sessions: a
      restore that works gives exactly the look from before the launch of that session. */
  lemma ExitBringsBack(s: State, es: seq<Event>, b: BuildId, how: Restoring)
    requires s.snaps == map[] && AllComplete(s, es)
    requires b in Run(s, es).snaps && how.on && Ended(how.tries, RESTORE_ATTEMPTS) == Ok
    ensures b in Story(s, es).launched && Story(s, es).launched[b] < |es|
    ensures Next(Run(s, es), Exit(b, how)).look == LookBefore(s, es, Story(s, es).launched[b])
  {
    var now, h := Run(s, es), Story(s, es);
    StoryIsTruthful(s, es);
    RetriedOk(now.look, Back(now.snaps[b]), how.tries, RESTORE_ATTEMPTS, LookBefore(s, es, h.launched[b]));
  }

  /** When all is over and no snapshot is left, the account ends in its original look
      if and only if the session restored last was launched while the original was
      worn (or none was). It does not matter how the sessions were nested. */
  lemma EndsInOriginalExactly(s: State, es: seq<Event>)
    requires s.snaps == map[] && AllComplete(s, es) && Run(s, es).snaps == map[]
    ensures Story(s, es).last.Some? ==> Story(s, es).last.value < |es|
    ensures Run(s, es).look == s.look
            <==> Story(s, es).last == None || LookBefore(s, es, Story(s, es).last.value) == s.look
  {
    StoryIsTruthful(s, es);
  }

  /** What the history records: the latest launch that saved a snapshot of the build. */
  lemma {:induction false} LaunchedIsLatest(s: State, es: seq<Event>, b: BuildId)
    requires b in Story(s, es).launched
    ensures var i := Story(s, es).launched[b];
            && i < |es| && Saves(es[i]) && es[i].build == b
            && forall k | i < k < |es| :: !(Saves(es[k]) && es[k].build == b)
  {
    var n := |es| - 1;
    LaunchedBefore(s, es, b);
    if !(Saves(es[n]) && es[n].build == b) {
      LaunchedIsLatest(s, es[..n], b);
    }
  }

  lemma LaunchedBefore(s: State, es: seq<Event>, b: BuildId)
    requires es != [] && b in Story(s, es).launched
    ensures var n := |es| - 1;
            if Saves(es[n]) && es[n].build == b then Story(s, es).launched[b] == n
            else b in Story(s, es[..n]).launched && Story(s, es).launched[b] == Story(s, es[..n]).launched[b]
  {
    var n := |es| - 1;
    if es[n].Start? {
      StaleStoryLaunches(Story(s, es[..n]), Run(s, es[..n]), es[n].listing, es[n].restores);
    }
  }

  lemma {:induction false} StaleStoryLaunches(h: History, s: State, listing: seq<BuildId>, how: BuildId -> Restoring)
    ensures StaleStory(h, s, listing, how).launched == h.launched
    decreases |listing|
  {
    if listing != [] {
      var b := listing[0];
      StaleStoryLaunches(h, s, listing[1..], how);
      StaleStoryLaunches(RestoredStory(h, s, b, how(b)), Restored(s, b, how(b)).0, listing[1..], how);
    }
  }

  // ---- two sessions ----

  /** Two builds whose sessions cross: with everything working, the first exit
      brings the original back, and the second then puts on the first build's
      preset look for good. The account ends in its original look exactly when
      that preset did not change it. */
  lemma CrossedSessions(s: State, a: BuildId, p: Preset, b: BuildId, q: Preset)
    requires a != b && s.look.skin.Some? && s.snaps == map[]
    ensures var fine := Applying(true, true, true, true, [Works]);
            var back := Restoring(true, [Works]);
            var end := Run(s, [Launch(a, Some(p), true, fine), Launch(b, Some(q), true, fine), Exit(a, back), Exit(b, back)]);
            end.snaps == map[] && end.look == Wear(p)(s.look) && (end.look == s.look <==> Wear(p)(s.look) == s.look)
  {
    var fine := Applying(true, true, true, true, [Works]);
    var back := Restoring(true, [Works]);
    var e1, e2, e3, e4 := Launch(a, Some(p), true, fine), Launch(b, Some(q), true, fine), Exit(a, back), Exit(b, back);
    var es := [e1, e2, e3, e4];
    assert es[..3] == [e1, e2, e3] && es[..3][..2] == [e1, e2] && es[..3][..2][..1] == [e1];
    var s1 := Next(s, e1);
    var s2 := Next(s1, e2);
    var s3 := Next(s2, e3);
    assert s1.look == Wear(p)(s.look) && s1.snaps == map[a := Shot(s.look, true, true)];
    assert s2.snaps == map[a := Shot(s.look, true, true), b := Shot(s1.look, true, true)];
    assert s3.snaps == map[b := Shot(s1.look, true, true)];
    assert Run(s, [e1]) == s1;
    assert Run(s, [e1, e2]) == s2;
    assert Run(s, [e1, e2, e3]) == s3;
    ShotBringsBack(s1.look, true, true);
  }

  // ---- nested sessions ----

  /** A game session with the sessions of other builds that start and end while it runs. */
  datatype Session = Session(build: BuildId, preset: Preset, applying: Applying, restoring: Restoring, inner: seq<Session>)

  function Play(s: State, x: Session): State
    decreases x, 0
  {
    var started := Next(s, Launch(x.build, Some(x.preset), true, x.applying));
    Next(PlayAll(started, x.inner), Exit(x.build, x.restoring))
  }

  /** One session after the other. */
  function PlayAll(s: State, xs: seq<Session>): State
    decreases xs, 1
  {
    if xs == [] then s else PlayAll(Play(s, xs[0]), xs[1..])
  }

  /** No build is started over its own outstanding snapshot, and each exit deletes its
      snapshot, because its restore works or is switched off. */
  predicate Closing(outstanding: set<BuildId>, x: Session)
    decreases x, 0
  {
    && x.build !in outstanding
    && (x.restoring.on ==> Ended(x.restoring.tries, RESTORE_ATTEMPTS) == Ok)
    && AllClosing(outstanding + {x.build}, x.inner)
  }

  predicate AllClosing(outstanding: set<BuildId>, xs: seq<Session>)
    decreases xs, 1
  {
    forall i | 0 <= i < |xs| :: Closing(outstanding, xs[i])
  }

  lemma {:induction false} ClosingLess(few: set<BuildId>, many: set<BuildId>, x: Session)
    requires few <= many && Closing(many, x)
    ensures Closing(few, x)
    decreases x, 0
  {
    forall i | 0 <= i < |x.inner| ensures Closing(few + {x.build}, x.inner[i]) {
      ClosingLess(few + {x.build}, many + {x.build}, x.inner[i]);
    }
  }

  /** Sessions that end in the reverse order of their starts, nested to any depth, with
      presets that work or not: every exit leaves exactly the snapshots from before the
      matching launch; and if this session's own snapshot is complete and its own
      restore is on, also exactly the look, down to the original. */
  lemma {:induction false} NestedSessionRestores(s: State, x: Session)
    requires Closing(s.snaps.Keys, x)
    ensures Play(s, x).snaps == s.snaps
    ensures (&& x.applying.taken && x.applying.saved && x.restoring.on
             && BringsBack(Shot(s.look, x.applying.gotSkin, x.applying.gotCapes), s.look)) ==> Play(s, x).look == s.look
    decreases x, 0
  {
    var started := Next(s, Launch(x.build, Some(x.preset), true, x.applying));
    var shot := Shot(s.look, x.applying.gotSkin, x.applying.gotCapes);
    assert started.snaps == if x.applying.taken && x.applying.saved then s.snaps[x.build := shot] else s.snaps;
    forall i | 0 <= i < |x.inner| ensures Closing(started.snaps.Keys, x.inner[i]) {
      ClosingLess(started.snaps.Keys, s.snaps.Keys + {x.build}, x.inner[i]);
    }
    NestedSessionsRestore(started, x.inner);
    var ended := PlayAll(started, x.inner);
    assert ended.snaps - {x.build} == s.snaps;
    if x.applying.taken && x.applying.saved && x.restoring.on && BringsBack(shot, s.look) {
      RetriedOk(ended.look, Back(shot), x.restoring.tries, RESTORE_ATTEMPTS, s.look);
    }
  }

  lemma {:induction false} NestedSessionsRestore(s: State, xs: seq<Session>)
    requires AllClosing(s.snaps.Keys, xs)
    ensures PlayAll(s, xs).snaps == s.snaps
    decreases xs, 1
  {
    if xs != [] {
      assert Closing(s.snaps.Keys, xs[0]);
      NestedSessionRestores(s, xs[0]);
      assert forall i | 0 <= i < |xs| - 1 :: xs[1..][i] == xs[i + 1];
      NestedSessionsRestore(Play(s, xs[0]), xs[1..]);
    }
  }

  // -------------------------------------------------------------------------
  // The program
  // -------------------------------------------------------------------------

  class Account {
    var look: Look
    var snaps: map<BuildId, Snapshot>
    var running: set<BuildId>

    ghost function Now(): State
      reads this
    {
      State(look, snaps, running)
    }

    /** The retry loop. */
    method WithSkinRetries(attempts: nat, f: Look -> Look, tries: seq<Try>) returns (outcome: Outcome)
      modifies this`look
      ensures look == Retried(old(look), f, tries, attempts)
      ensures outcome == Ended(tries, attempts)
    {
      for i := 0 to attempts
        invariant i <= |tries|
        invariant Retried(old(look), f, tries, attempts) == Retried(look, f, tries[i..], attempts - i)
        invariant Ended(tries, attempts) == Ended(tries[i..], attempts - i)
      {
        if i == |tries| {
          return Died;
        }
        assert tries[i..][1..] == tries[i + 1..];
        match tries[i] {
          case Works =>
            look := f(look);
            return Ok;
          case Breaks(l) =>
            look := l;
          case Guarded =>
        }
      }
      return Failed;
    }

    method ApplyBuildSkinBeforeLaunch(b: BuildId, preset: Option<Preset>, licensed: bool, how: Applying)
      returns (outcome: Outcome)
      modifies this
      ensures (Now(), outcome) == Applied(old(Now()), b, preset, licensed, how)
      ensures preset == None ==> Now() == old(Now()) && outcome == Ok
      ensures preset.Some? && outcome == Ok ==>
                && look.skin == Some(preset.value.skin) && look.slim == preset.value.slim
                && (preset.value.cape.Some? ==> look.cape == preset.value.cape)
                && (preset.value.cape == None && NoneBreaks(how.tries) ==> look.cape == old(look.cape))
    {
      if preset.Some? && Applied(Now(), b, preset, licensed, how).1 == Ok {
        PresetIsWorn(Now(), b, preset.value, licensed, how);
      }
      if preset == None {
        return Ok;
      }
      if !licensed || !how.taken || !how.saved {
        return Failed;
      }
      snaps := snaps[b := Shot(look, how.gotSkin, how.gotCapes)];
      outcome := WithSkinRetries(APPLY_ATTEMPTS, Wear(preset.value), how.tries);
    }

    method RestoreBuildSkinAfterExit(b: BuildId, how: Restoring) returns (outcome: Outcome)
      modifies this
      ensures (Now(), outcome) == Restored(old(Now()), b, how)
      ensures old(b in snaps) && how.on && outcome == Ok ==>
                && look.cape == old(snaps)[b].cape
                && (old(snaps)[b].skin.Some? ==> look.skin == old(snaps)[b].skin && look.slim == old(snaps)[b].slim)
      ensures !how.on ==> look == old(look) && snaps == old(snaps) - {b}
    {
      RestoredExactly(Now(), b, how);
      if b in snaps && how.on && Restored(Now(), b, how).1 == Ok {
        SnapshotIsWorn(Now(), b, how);
      }
      if b !in snaps {
        return Ok;
      }
      if !how.on {
        snaps := snaps - {b};
        return Ok;
      }
      outcome := WithSkinRetries(RESTORE_ATTEMPTS, Back(snaps[b]), how.tries);
      if outcome == Ok {
        snaps := snaps - {b};
      }
    }

    method RestoreStaleBuildSkins(listing: seq<BuildId>, known: bool, how: BuildId -> Restoring)
      modifies this
      ensures Now() == RestoredStale(old(Now()), listing, known, how)
    {
      for i := 0 to |listing|
        invariant RestoredStale(Now(), listing[i..], known, how) == RestoredStale(old(Now()), listing, known, how)
      {
        var b := listing[i];
        assert listing[i..][0] == b && listing[i..][1..] == listing[i + 1..];
        if b in snaps && b !in running {
          if !known {
            snaps := snaps - {b};
          } else {
            var outcome := RestoreBuildSkinAfterExit(b, how(b));
            if outcome == Died {
              return;
            }
          }
        }
      }
    }

    /** One event of a run, in any world. */
    method Handle(e: Event)
      modifies this
      ensures Now() == Next(old(Now()), e)
      ensures running == match e
              case Launch(b, preset, licensed, how) =>
                if preset.Some? && licensed && how.taken && how.saved && !SomeWorks(how.tries, 4) && |how.tries| < 4
                then old(running) else old(running) + {b}
              case Exit(b, _) => old(running) - {b}
              case EndsUnseen(b) => old(running) - {b}
              case Start(_, _, _) => old(running)
      ensures e.EndsUnseen? ==> look == old(look) && snaps == old(snaps)
    {
      if e.Launch? && e.preset.Some? {
        AppliedExactly(Now(), e.build, e.preset.value, e.licensed, e.applying);
      }
      if e.Start? {
        StaleSpares(Now(), e.listing, e.known, e.restores);
      }
      if e.Exit? {
        RestoredExactly(Now().(running := running - {e.build}), e.build, e.restore);
      }
      match e {
        case Launch(b, preset, licensed, how) =>
          var outcome := ApplyBuildSkinBeforeLaunch(b, preset, licensed, how);
          if outcome != Died {
            running := running + {b};
          }
        case Exit(b, how) =>
          running := running - {b};
          var _ := RestoreBuildSkinAfterExit(b, how);
        case EndsUnseen(b) =>
          running := running - {b};
        case Start(listing, known, how) =>
          RestoreStaleBuildSkins(listing, known, how);
      }
    }
  }
}
