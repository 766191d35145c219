/**
 * Pausing and cancelling a modpack import (backend/custompack_api.go).
 *
 * The importer reports progress while it runs, the result handler waits for it
 * to return, and the player may pause or cancel at any moment. They meet in the
 * maps `customImportCancel`, `customImportPaused` and `dlTransient` and in the
 * import's context. The model follows one pack ID; each step is one section
 * under a lock or one read of the context, and steps interleave freely.
 */
module ImportPause {

  /** What a progress tick reports: work going on, the end, or a failure. */
  datatype Tick = Going | Finished | Broken

  /** The entry of the pack in `dlTransient`. */
  datatype Shown = Absent | Running | Paused

  /** Where the result handler stands. */
  datatype Handler =
    | NotStarted   // ImportModpackArchive has not yet seen the first tick
    | Waiting      // for the importer to return
    | Looking      // has the result and has taken the cancel function out of the map
    | Dropping     // saw a live context: about to delete the shown entry
    | Deciding     // saw a cancelled context: about to take the paused mark
    | Reasserting  // took the mark: about to show "paused" once more
    | Settled

  datatype Importer = Busy | Returned(failed: bool)

  /** `asked`/`called` count the pauses that were accepted but have not yet called
      the cancel function, or have called it and not yet shown "paused"; `willCancel`
      and `willDrop` count the same for cancels. `ticked` and `inFlight` are the
      ticks of the importer that have passed the context check and not yet written. */
  datatype State = State(
    cancelled: bool,
    registered: bool,
    marked: bool,
    shown: Shown,
    importer: Importer,
    ticked: bool,
    inFlight: multiset<Tick>,
    handler: Handler,
    asked: nat,
    called: nat,
    willCancel: nat,
    willDrop: nat)

  function Start(): State {
    State(false, false, false, Absent, Busy, false, multiset{}, NotStarted, 0, 0, 0, 0)
  }

  datatype Step =
    | PassCheck(tick: Tick)      // a tick finds the context live
    | Write(tick: Tick)          // a tick that passed writes its report
    | Return(failed: bool)       // the importer returns, all its callbacks done
    | Register                   // the cancel function is stored, the result handler starts
    | TakeResult                 // the handler gets the result and removes the cancel function
    | LookAtContext              // the handler reads the result and the context
    | DropShown                  // a real error: the handler deletes the shown entry
    | TakeMark                   // the handler takes the paused mark
    | Reassert                   // the handler shows "paused" again
    | AskPause                   // PauseModpackImport finds the cancel function and sets the mark
    | CallPause                  // and calls it
    | ShowPause                  // and shows "paused"
    | AskCancel                  // cancelCustomImport removes the mark
    | CallCancel                 // and calls the cancel function, if it was there
    | DropCancelled              // and deletes the shown entry

  /** One atomic step; a step that is not possible in `s` changes nothing. */
  function Next(s: State, e: Step): State {
    match e
    case PassCheck(t) =>
      if s.importer.Busy? then
        s.(ticked := true, inFlight := if s.cancelled then s.inFlight else s.inFlight + multiset{t})
      else s
    case Write(t) =>
      if t in s.inFlight then
        s.(inFlight := s.inFlight - multiset{t}, shown := if t == Going then Running else Absent)
      else s
    case Return(failed) =>
      if s.importer.Busy? && s.inFlight == multiset{} then s.(importer := Returned(failed)) else s
    case Register =>
      if s.handler == NotStarted && s.ticked then s.(handler := Waiting, registered := true) else s
    case TakeResult =>
      if s.handler == Waiting && s.importer.Returned? then s.(handler := Looking, registered := false) else s
    case LookAtContext =>
      if s.handler == Looking && s.importer.Returned? then
        if !s.importer.failed then s.(handler := Settled, marked := false)
        else s.(handler := if s.cancelled then Deciding else Dropping)
      else s
    case DropShown =>
      if s.handler == Dropping then s.(handler := Settled, shown := Absent) else s
    case TakeMark =>
      if s.handler == Deciding then s.(handler := if s.marked then Reasserting else Settled, marked := false) else s
    case Reassert =>
      if s.handler == Reasserting then s.(handler := Settled, shown := Paused) else s
    case AskPause =>
      if s.registered then s.(marked := true, asked := s.asked + 1) else s
    case CallPause =>
      if s.asked > 0 then s.(asked := s.asked - 1, called := s.called + 1, cancelled := true) else s
    case ShowPause =>
      if s.called > 0 then s.(called := s.called - 1, shown := Paused) else s
    case AskCancel =>
      if s.registered then s.(marked := false, willCancel := s.willCancel + 1)
      else s.(marked := false, willDrop := s.willDrop + 1)
    case CallCancel =>
      if s.willCancel > 0 then s.(willCancel := s.willCancel - 1, willDrop := s.willDrop + 1, cancelled := true) else s
    case DropCancelled =>
      if s.willDrop > 0 then s.(willDrop := s.willDrop - 1, shown := Absent) else s
  }

  function Run(s: State, es: seq<Step>): State {
    if es == [] then s else Next(Run(s, es[..|es| - 1]), es[|es| - 1])
  }

  lemma RunSnoc(s: State, es: seq<Step>, e: Step)
    ensures Run(s, es + [e]) == Next(Run(s, es), e)
  {
    assert (es + [e])[..|es + [e]| - 1] == es;
  }

  // -------------------------------------------------------------------------
  // What happened in a run
  // -------------------------------------------------------------------------

  /** The player pressed nothing that leads to a cancel. */
  predicate NoCancel(es: seq<Step>) {
    es == [] || (es[|es| - 1] != AskCancel && NoCancel(es[..|es| - 1]))
  }

  /** `e`, taken in `s`, is a pause that finds the cancel function. */
  predicate AcceptsPause(s: State, e: Step) {
    e == AskPause && s.registered
  }

  /** `e`, taken in `s`, shows the handler a failed import with a cancelled context. */
  predicate SeesCancelled(s: State, e: Step) {
    e == LookAtContext && s.handler == Looking && Next(s, e).handler == Deciding
  }

  predicate ReturnsCancelled(s: State, e: Step) {
    e.Return? && s.importer.Busy? && Next(s, e).importer.Returned? && s.cancelled
  }

  /** The three facts for a whole run. */
  datatype History = History(accepted: bool, saw: bool, stopped: bool, reshown: bool)

  /** `accepted`: a pause was accepted; `saw`: the handler saw the context cancelled;
      `stopped`: the importer returned after the cancel function was called;
      `reshown`: since the handler deleted the shown entry, if it did, a pause has
      shown "paused". */
  function Told(es: seq<Step>): History {
    if es == [] then History(false, false, false, false)
    else
      var n := |es| - 1;
      Tell(Told(es[..n]), Run(Start(), es[..n]), es[n])
  }

  function Tell(h: History, s: State, e: Step): History {
    History(
      h.accepted || AcceptsPause(s, e),
      h.saw || SeesCancelled(s, e),
      h.stopped || ReturnsCancelled(s, e),
      if e == DropShown && s.handler == Dropping then false
      else h.reshown || (e == ShowPause && s.called > 0))
  }

  // -------------------------------------------------------------------------
  // The pause has the last word
  // -------------------------------------------------------------------------

  /** What holds in every run without a cancel. */
  ghost predicate Keeps(s: State, h: History) {
    && s.willCancel == 0 && s.willDrop == 0
    && (s.importer.Returned? ==> s.inFlight == multiset{})
    && (s.registered <==> s.handler == Waiting)
    && (s.handler !in {NotStarted, Waiting} ==> s.importer.Returned?)
    && (s.handler == NotStarted ==> !h.accepted)
    && (s.asked > 0 || s.called > 0 || s.cancelled || s.marked || h.saw ==> h.accepted)
    && (h.accepted && s.asked == 0 ==> s.cancelled)
    && (h.accepted && s.handler in {Waiting, Looking, Deciding, Dropping} ==> s.marked)
    && (s.handler in {Reasserting, Settled} ==> (s.marked <==> h.accepted && s.importer.failed && !h.saw))
    && (h.stopped ==> s.cancelled && s.importer.Returned?)
    && (s.handler == Dropping ==> s.importer.failed && !h.stopped)
    && (s.handler in {Deciding, Reasserting} ==> h.saw && s.importer.failed && h.accepted)
    && (s.handler == Deciding ==> s.cancelled)
    && (s.handler in {NotStarted, Waiting, Looking, Dropping} ==> !h.saw)
    && (s.handler == Settled && h.saw ==> s.shown == Paused)
    && (s.handler == Settled && !h.saw && s.importer.failed ==>
          !h.stopped && (s.shown == Paused <==> h.reshown))
  }

  lemma StepKeeps(s: State, e: Step, h: History)
    requires Keeps(s, h) && e != AskCancel
    ensures Keeps(Next(s, e), Tell(h, s, e))
  {
    match e
    case PassCheck(_) => ImporterKeeps(s, e, h);
    case Write(_) => ImporterKeeps(s, e, h);
    case Return(_) => ImporterKeeps(s, e, h);
    case Register => HandlerKeeps(s, e, h);
    case TakeResult => HandlerKeeps(s, e, h);
    case LookAtContext => HandlerLooks(s, h);
    case DropShown => HandlerKeeps(s, e, h);
    case TakeMark => HandlerEnds(s, e, h);
    case Reassert => HandlerEnds(s, e, h);
    case AskPause => PauseKeeps(s, e, h);
    case CallPause => PauseKeeps(s, e, h);
    case ShowPause => PauseKeeps(s, e, h);
    case CallCancel => assert Next(s, e) == s;
    case DropCancelled => assert Next(s, e) == s;
  }

  lemma ImporterKeeps(s: State, e: Step, h: History)
    requires Keeps(s, h) && (e.PassCheck? || e.Write? || e.Return?)
    ensures Keeps(Next(s, e), Tell(h, s, e))
  {
  }

  lemma HandlerKeeps(s: State, e: Step, h: History)
    requires Keeps(s, h) && (e.Register? || e.TakeResult? || e.DropShown?)
    ensures Keeps(Next(s, e), Tell(h, s, e))
  {
  }

  lemma HandlerLooks(s: State, h: History)
    requires Keeps(s, h)
    ensures Keeps(Next(s, LookAtContext), Tell(h, s, LookAtContext))
  {
  }

  lemma HandlerEnds(s: State, e: Step, h: History)
    requires Keeps(s, h) && (e.TakeMark? || e.Reassert?)
    ensures Keeps(Next(s, e), Tell(h, s, e))
  {
  }

  lemma PauseKeeps(s: State, e: Step, h: History)
    requires Keeps(s, h) && (e.AskPause? || e.CallPause? || e.ShowPause?)
    ensures Keeps(Next(s, e), Tell(h, s, e))
  {
  }

  lemma {:induction false} RunKeeps(es: seq<Step>)
    requires NoCancel(es)
    ensures Keeps(Run(Start(), es), Told(es))
  {
    if es != [] {
      var n := |es| - 1;
      RunKeeps(es[..n]);
      StepKeeps(Run(Start(), es[..n]), es[n], Told(es[..n]));
    }
  }

  /** A pause was accepted, its cancel function was called before the importer
      returned, the import failed, and nobody cancelled: then in every interleaving,
      late progress ticks included, the pack shows "paused" once the result handler
      is done, whether or not the pause call itself has finished. */
  lemma PauseHasTheLastWord(es: seq<Step>)
    requires NoCancel(es) && Told(es).accepted && Told(es).stopped
    requires var s := Run(Start(), es); s.handler == Settled && s.importer == Returned(true)
    ensures Run(Start(), es).shown == Paused
  {
    RunKeeps(es);
  }

  /** Without the assumption that the call came in time: once the handler and all
      pause calls are done, the pack of a failed import shows "paused" exactly when
      the handler saw the cancelled context, or a pause showed itself after the
      handler had deleted the entry. */
  lemma PausedExactly(es: seq<Step>)
    requires NoCancel(es) && Told(es).accepted
    requires var s := Run(Start(), es); s.handler == Settled && s.importer == Returned(true) && s.asked == 0 && s.called == 0
    ensures Run(Start(), es).shown == Paused <==> Told(es).saw || Told(es).reshown
  {
    RunKeeps(es);
  }

  /** What is left of the mark: nothing after a successful import and nothing once the
      handler has seen the cancelled context, but it stays when the import failed by
      itself. */
  lemma MarkStaysExactly(es: seq<Step>)
    requires NoCancel(es) && Run(Start(), es).handler == Settled
    ensures Run(Start(), es).marked
            <==> Told(es).accepted && Run(Start(), es).importer == Returned(true) && !Told(es).saw
  {
    RunKeeps(es);
  }

  /** The other case happens: the import fails by itself, the handler looks at the
      context just before an accepted pause cancels it, and deletes the entry after
      the pause has shown itself. The accepted and finished pause leaves no trace. */
  lemma AcceptedPauseCanVanish()
    ensures exists s :: OccursAfterPause(s)
              && s.handler == Settled && s.importer == Returned(true) && s.asked == 0 && s.called == 0
              && s.shown == Absent
  {
    RacedOccurs(6);
    RacedEnds();
  }

  lemma RacedEnds()
    ensures var s := Raced(6);
            s.handler == Settled && s.importer == Returned(true) && s.asked == 0 && s.called == 0 && s.shown == Absent
  {
  }

  lemma {:induction false} RacedOccurs(i: nat)
    requires i <= 6
    ensures OccursAfterPause(Raced(i))
  {
    if i == 0 {
      PauseIsAccepted();
    } else {
      RacedOccurs(i - 1);
      RacedNext(i - 1);
      Occurs(Raced(i - 1), RacedStep(i - 1), Raced(i));
    }
  }

  lemma RacedNext(i: nat)
    requires i < 6
    ensures Next(Raced(i), RacedStep(i)) == Raced(i + 1) && RacedStep(i) != AskCancel
  {
    if i < 3 {
      RacedEarly(i);
    } else {
      RacedLate(i);
    }
  }

  lemma RacedEarly(i: nat)
    requires i < 3
    ensures Next(Raced(i), RacedStep(i)) == Raced(i + 1) && RacedStep(i) != AskCancel
  {
  }

  lemma RacedLate(i: nat)
    requires 3 <= i < 6
    ensures Next(Raced(i), RacedStep(i)) == Raced(i + 1) && RacedStep(i) != AskCancel
  {
  }

  function RacedStep(i: nat): Step {
    match i
    case 0 => Return(true)
    case 1 => TakeResult
    case 2 => LookAtContext
    case 3 => CallPause
    case 4 => ShowPause
    case _ => DropShown
  }

  /** `s` occurs in a run without a cancel after a pause was accepted. */
  ghost predicate OccursAfterPause(s: State) {
    exists es :: NoCancel(es) && Told(es).accepted && Run(Start(), es) == s
  }

  lemma Occurs(s: State, e: Step, s': State)
    requires OccursAfterPause(s) && e != AskCancel && Next(s, e) == s'
    ensures OccursAfterPause(s')
  {
    var es :| NoCancel(es) && Told(es).accepted && Run(Start(), es) == s;
    var longer := es + [e];
    assert longer[..|longer| - 1] == es;
    assert NoCancel(longer) && Told(longer).accepted && Run(Start(), longer) == s';
  }

  /** The states of that run, from the accepted pause on. */
  function Raced(i: nat): State {
    match i
    case 0 => State(false, true, true, Running, Busy, true, multiset{}, Waiting, 1, 0, 0, 0)
    case 1 => State(false, true, true, Running, Returned(true), true, multiset{}, Waiting, 1, 0, 0, 0)
    case 2 => State(false, false, true, Running, Returned(true), true, multiset{}, Looking, 1, 0, 0, 0)
    case 3 => State(false, false, true, Running, Returned(true), true, multiset{}, Dropping, 1, 0, 0, 0)
    case 4 => State(true, false, true, Running, Returned(true), true, multiset{}, Dropping, 0, 1, 0, 0)
    case 5 => State(true, false, true, Paused, Returned(true), true, multiset{}, Dropping, 0, 0, 0, 0)
    case _ => State(true, false, true, Absent, Returned(true), true, multiset{}, Settled, 0, 0, 0, 0)
  }

  lemma PauseIsAccepted()
    ensures OccursAfterPause(Raced(0))
  {
    var es := Then([], PassCheck(Going));
    es := Then(es, Register);
    es := Then(es, Write(Going));
    es := Then(es, AskPause);
    assert NoCancel(es) && Told(es).accepted && Run(Start(), es) == Raced(0);
  }

  // ---- the race that the last word is for ----

  /** `s` occurs in a run without a cancel after a pause was accepted, and `stopped`
      tells whether the importer has returned after its cancel function was called. */
  ghost predicate OccursPaused(s: State, stopped: bool) {
    exists es :: NoCancel(es) && Told(es).accepted && Told(es).stopped == stopped && Run(Start(), es) == s
  }

  lemma OccursNext(s: State, stopped: bool, e: Step)
    requires OccursPaused(s, stopped) && e != AskCancel
    ensures OccursPaused(Next(s, e), stopped || ReturnsCancelled(s, e))
  {
    var es :| NoCancel(es) && Told(es).accepted && Told(es).stopped == stopped && Run(Start(), es) == s;
    var longer := es + [e];
    assert longer[..|longer| - 1] == es;
    assert NoCancel(longer) && Told(longer).accepted && Told(longer).stopped == (stopped || ReturnsCancelled(s, e));
    assert Run(Start(), longer) == Next(s, e);
  }

  function LateStep(i: nat): Step {
    match i
    case 0 => PassCheck(Going)
    case 1 => CallPause
    case 2 => ShowPause
    case 3 => Write(Going)
    case 4 => Return(true)
    case 5 => TakeResult
    case 6 => LookAtContext
    case 7 => TakeMark
    case _ => Reassert
  }

  /** The states of that run, from the accepted pause on. */
  function Late(i: nat): State {
    match i
    case 0 => Raced(0)
    case 1 => State(false, true, true, Running, Busy, true, multiset{Going}, Waiting, 1, 0, 0, 0)
    case 2 => State(true, true, true, Running, Busy, true, multiset{Going}, Waiting, 0, 1, 0, 0)
    case 3 => State(true, true, true, Paused, Busy, true, multiset{Going}, Waiting, 0, 0, 0, 0)
    case 4 => State(true, true, true, Running, Busy, true, multiset{}, Waiting, 0, 0, 0, 0)
    case 5 => State(true, true, true, Running, Returned(true), true, multiset{}, Waiting, 0, 0, 0, 0)
    case 6 => State(true, false, true, Running, Returned(true), true, multiset{}, Looking, 0, 0, 0, 0)
    case 7 => State(true, false, true, Running, Returned(true), true, multiset{}, Deciding, 0, 0, 0, 0)
    case 8 => State(true, false, false, Running, Returned(true), true, multiset{}, Reasserting, 0, 0, 0, 0)
    case _ => State(true, false, false, Paused, Returned(true), true, multiset{}, Settled, 0, 0, 0, 0)
  }

  lemma LateStepLeadsOn(i: nat)
    requires i < 9
    ensures Next(Late(i), LateStep(i)) == Late(i + 1) && LateStep(i) != AskCancel
    ensures ReturnsCancelled(Late(i), LateStep(i)) <==> i == 4
  {
    if i < 4 {
      WhilePausing(i);
    } else if i < 7 {
      WhileReturning(i);
    } else {
      WhileEnding(i);
    }
  }

  lemma WhilePausing(i: nat)
    requires i < 4
    ensures Next(Late(i), LateStep(i)) == Late(i + 1) && LateStep(i) != AskCancel && !ReturnsCancelled(Late(i), LateStep(i))
  {
    assert multiset{} + multiset{Going} == multiset{Going};
    assert multiset{Going} - multiset{Going} == multiset{};
  }

  lemma WhileReturning(i: nat)
    requires 4 <= i < 7
    ensures Next(Late(i), LateStep(i)) == Late(i + 1) && LateStep(i) != AskCancel
    ensures ReturnsCancelled(Late(i), LateStep(i)) <==> i == 4
  {
  }

  lemma WhileEnding(i: nat)
    requires 7 <= i < 9
    ensures Next(Late(i), LateStep(i)) == Late(i + 1) && LateStep(i) != AskCancel && !ReturnsCancelled(Late(i), LateStep(i))
  {
  }

  lemma {:induction false} LateOccurs(i: nat)
    requires i <= 9
    ensures OccursPaused(Late(i), i > 4)
  {
    if i == 0 {
      PauseIsAccepted();
      var es :| NoCancel(es) && Told(es).accepted && Run(Start(), es) == Raced(0);
      RunKeeps(es);
      assert !Told(es).stopped;
    } else {
      LateOccurs(i - 1);
      LateStepLeadsOn(i - 1);
      OccursNext(Late(i - 1), i - 1 > 4, LateStep(i - 1));
    }
  }

  /** A tick that passed the context check before the pause does overwrite the shown
      "paused" with "running", when no pause call is left to correct it; the handler
      then brings "paused" back. */
  lemma LateTickIsOverruled(i: nat)
    requires i in {3, 4, 9}
    ensures OccursPaused(Late(i), i == 9)
    ensures Late(i).asked == Late(i).called == 0
    ensures i < 9 ==> Next(Late(3), Write(Going)) == Late(4)
    ensures Late(i).shown == (if i == 4 then Running else Paused) && (i == 9 ==> Late(i).handler == Settled)
  {
    LateOccurs(i);
    LateStepLeadsOn(3);
  }

  lemma Then(es: seq<Step>, e: Step) returns (longer: seq<Step>)
    ensures Run(Start(), longer) == Next(Run(Start(), es), e)
    ensures Told(longer).accepted <==> Told(es).accepted || AcceptsPause(Run(Start(), es), e)
    ensures NoCancel(es) && e != AskCancel ==> NoCancel(longer)
  {
    longer := es + [e];
    RunSnoc(Start(), es, e);
    assert longer[..|longer| - 1] == es;
  }

  // -------------------------------------------------------------------------
  // The cancel has not
  // -------------------------------------------------------------------------

  /** What holds in every run at all. */
  ghost predicate Consistent(s: State) {
    && (s.importer.Returned? ==> s.inFlight == multiset{})
    && (s.handler !in {NotStarted, Waiting} ==> s.importer.Returned?)
    && (s.registered <==> s.handler == Waiting)
    && (s.handler in {Dropping, Deciding, Reasserting} ==> s.importer == Returned(true))
    && (s.handler == Settled && s.importer == Returned(false) ==> !s.marked)
  }

  lemma {:induction false} RunIsConsistent(es: seq<Step>)
    ensures Consistent(Run(Start(), es))
  {
    if es != [] {
      RunIsConsistent(es[..|es| - 1]);
      StepIsConsistent(Run(Start(), es[..|es| - 1]), es[|es| - 1]);
    }
  }

  lemma StepIsConsistent(s: State, e: Step)
    requires Consistent(s)
    ensures Consistent(Next(s, e))
  {
  }

  /** In every run, with cancels or without: an import that succeeded leaves no mark and
      no cancel function behind. */
  lemma SuccessLeavesNothing(es: seq<Step>)
    requires Run(Start(), es).handler == Settled && Run(Start(), es).importer == Returned(false)
    ensures !Run(Start(), es).marked && !Run(Start(), es).registered
  {
    RunIsConsistent(es);
  }

  /** A cancel has just deleted the entry; no pause and no other cancel is under way. */
  predicate JustCancelled(s: State) {
    && s.shown == Absent && !s.marked && s.handler != Reasserting
    && s.asked == 0 && s.called == 0 && s.willCancel == 0 && s.willDrop == 0
  }

  /** The player presses nothing any more. */
  ghost predicate Quiet(es: seq<Step>) {
    AskPause !in es && AskCancel !in es
  }

  /** Nothing can bring the entry back. */
  ghost predicate Gone(s: State) {
    JustCancelled(s) && Going !in s.inFlight && (s.cancelled || s.importer.Returned?)
  }

  lemma GoneStays(s: State, e: Step)
    requires Gone(s) && e != AskPause && e != AskCancel
    ensures Gone(Next(s, e))
  {
    if e.PassCheck? || e.Write? || e.Return? {
      GoneTicks(s, e);
    } else {
      GoneHandler(s, e);
    }
  }

  lemma GoneTicks(s: State, e: Step)
    requires Gone(s) && (e.PassCheck? || e.Write? || e.Return?)
    ensures Gone(Next(s, e))
  {
  }

  lemma GoneHandler(s: State, e: Step)
    requires Gone(s) && !e.PassCheck? && !e.Write? && !e.Return? && e != AskPause && e != AskCancel
    ensures Gone(Next(s, e))
  {
  }

  lemma {:induction false} GoneForGood(s: State, es: seq<Step>)
    requires Gone(s) && Quiet(es)
    ensures Gone(Run(s, es))
  {
    if es != [] {
      var n := |es| - 1;
      assert es[n] in es && forall e | e in es[..n] :: e in es;
      GoneForGood(s, es[..n]);
      GoneStays(Run(s, es[..n]), es[n]);
    }
  }

  lemma {:induction false} RunCons(s: State, e: Step, es: seq<Step>)
    ensures Run(s, [e] + es) == Run(Next(s, e), es)
  {
    if es == [] {
      assert [e] + es == [e] && [e][..0] == [];
    } else {
      var n := |es| - 1;
      RunCons(s, e, es[..n]);
      RunSnoc(s, [e] + es[..n], es[n]);
      assert [e] + es[..n] + [es[n]] == [e] + es;
    }
  }

  /** Some way of going on, without the player, ends with the importer back and the
      entry showing "running". */
  ghost predicate CanComeBack(s: State) {
    exists es :: Quiet(es) && Run(s, es).importer.Returned? && Run(s, es).shown == Running
  }

  lemma ComesBackAfter(s: State, e: Step)
    requires CanComeBack(Next(s, e)) && e != AskPause && e != AskCancel
    ensures CanComeBack(s)
  {
    var es :| Quiet(es) && Run(Next(s, e), es).importer.Returned? && Run(Next(s, e), es).shown == Running;
    RunCons(s, e, es);
    assert Quiet([e] + es);
  }

  lemma {:induction false} LateTickComesBack(s: State)
    requires s.importer.Busy? && Going in s.inFlight
    ensures CanComeBack(s)
    decreases |s.inFlight|
  {
    var others := s.inFlight - multiset{Going};
    if others == multiset{} {
      assert s.inFlight == multiset{Going};
      var written := Next(s, Write(Going));
      assert written.inFlight == multiset{} && written.shown == Running;
      var done := Next(written, Return(false));
      assert Run(done, []) == done && Quiet([]) && CanComeBack(done);
      ComesBackAfter(written, Return(false));
      ComesBackAfter(s, Write(Going));
    } else {
      var t :| t in others;
      var next := Next(s, Write(t));
      assert Going in next.inFlight;
      LateTickComesBack(next);
      ComesBackAfter(s, Write(t));
    }
  }

  /** After the last cancel of a run, whatever is still in flight and whether or not the
      cancel found the import's context: the entry stays deleted in every way things can
      go on if and only if no progress tick is still in flight and none can follow.
      Unlike a pause, a cancel is not asserted again by the result handler. */
  lemma CancelSticksExactly(before: seq<Step>)
    requires JustCancelled(Run(Start(), before))
    ensures var s := Run(Start(), before);
            (forall es | Quiet(es) && Run(s, es).importer.Returned? :: Run(s, es).shown == Absent)
            <==> Going !in s.inFlight && (s.cancelled || s.importer.Returned?)
  {
    var s := Run(Start(), before);
    RunIsConsistent(before);
    if Gone(s) {
      forall es | Quiet(es) && Run(s, es).importer.Returned? ensures Run(s, es).shown == Absent {
        GoneForGood(s, es);
      }
    } else {
      ComesBack(s);
      var es :| Quiet(es) && Run(s, es).importer.Returned? && Run(s, es).shown == Running;
    }
  }

  lemma ComesBack(s: State)
    requires Consistent(s) && JustCancelled(s) && !Gone(s)
    ensures CanComeBack(s)
  {
    if Going in s.inFlight {
      LateTickComesBack(s);
    } else {
      LateTickComesBack(Next(s, PassCheck(Going)));
      ComesBackAfter(s, PassCheck(Going));
    }
  }

  predicate OnlyGoing(ticks: multiset<Tick>) {
    Finished !in ticks && Broken !in ticks
  }

  /** How things go on when progress ticks are all that is in flight: one of them stays
      in flight until it has put "running" back. */
  ghost predicate WillRun(s: State) {
    && Consistent(s) && OnlyGoing(s.inFlight)
    && s.cancelled && !s.marked && s.handler != Reasserting
    && s.asked == 0 && s.called == 0 && s.willCancel == 0 && s.willDrop == 0
    && (s.shown == Running || Going in s.inFlight) && s.handler != Dropping
  }

  lemma LateStays(s: State, e: Step)
    requires WillRun(s) && e != AskPause && e != AskCancel
    ensures WillRun(Next(s, e))
  {
    StepIsConsistent(s, e);
    if e.PassCheck? || e.Write? || e.Return? {
      LateTicks(s, e);
    } else {
      LateHandler(s, e);
    }
  }

  lemma LateTicks(s: State, e: Step)
    requires WillRun(s) && Consistent(Next(s, e)) && (e.PassCheck? || e.Write? || e.Return?)
    ensures WillRun(Next(s, e))
  {
  }

  lemma LateHandler(s: State, e: Step)
    requires WillRun(s) && Consistent(Next(s, e)) && !e.PassCheck? && !e.Write? && !e.Return? && e != AskPause && e != AskCancel
    ensures WillRun(Next(s, e))
  {
  }

  lemma {:induction false} LateForGood(s: State, es: seq<Step>)
    requires WillRun(s) && Quiet(es)
    ensures WillRun(Run(s, es))
  {
    if es != [] {
      var n := |es| - 1;
      assert es[n] in es && forall e | e in es[..n] :: e in es;
      LateForGood(s, es[..n]);
      LateStays(Run(s, es[..n]), es[n]);
    }
  }

  /** If only progress ticks are in flight then, the entry comes back in every way
      things can go on. */
  lemma LateTickAlwaysWins(before: seq<Step>, es: seq<Step>)
    requires var s := Run(Start(), before); JustCancelled(s) && s.cancelled && OnlyGoing(s.inFlight) && s.inFlight != multiset{}
    requires Quiet(es) && Run(Run(Start(), before), es).importer.Returned?
    ensures Run(Run(Start(), before), es).shown == Running
  {
    var s := Run(Start(), before);
    RunIsConsistent(before);
    var t :| t in s.inFlight;
    assert t == Going;
    LateForGood(s, es);
  }

  /** And such a tick is possible. */
  lemma LateTickOutlivesCancel()
    ensures exists es :: var s := Run(Start(), es); JustCancelled(s) && s.cancelled && s.inFlight == multiset{Going}
  {
    var es := Then([], PassCheck(Going));
    es := Then(es, Register);
    es := Then(es, AskCancel);
    es := Then(es, CallCancel);
    es := Then(es, DropCancelled);
  }

  // -------------------------------------------------------------------------
  // The program's maps
  // -------------------------------------------------------------------------

  /** The part of a state that lives in the maps and the context. */
  datatype Shared = Shared(cancelled: bool, registered: bool, marked: bool, shown: Shown)

  function SharedOf(s: State): Shared {
    Shared(s.cancelled, s.registered, s.marked, s.shown)
  }

  /** `customImportCancel`, `customImportPaused`, `dlTransient`, and the packs whose
      import context is cancelled. Each method is one section under a lock, or one
      call of a cancel function, and touches one pack only. */
  class Imports {
    var customImportCancel: set<string>
    var customImportPaused: set<string>
    var dlTransient: map<string, Shown>
    var cancelled: set<string>

    ghost function Of(id: string): Shared
      reads this
    {
      Shared(id in cancelled, id in customImportCancel, id in customImportPaused,
             if id in dlTransient then dlTransient[id] else Absent)
    }

    /** `recordCustomImportProgress`, after the context check. */
    method RecordProgress(id: string, t: Tick)
      modifies this`dlTransient
      ensures forall s | SharedOf(s) == old(Of(id)) && t in s.inFlight :: Of(id) == SharedOf(Next(s, Write(t)))
      ensures Of(id) == old(Of(id)).(shown := if t == Going then Running else Absent)
      ensures forall other | other != id :: Of(other) == old(Of(other))
    {
      if t != Going {
        dlTransient := dlTransient - {id};
      } else {
        dlTransient := dlTransient[id := Running];
      }
    }

    method Register(id: string)
      modifies this`customImportCancel
      ensures forall s | SharedOf(s) == old(Of(id)) && s.handler == NotStarted && s.ticked :: Of(id) == SharedOf(Next(s, Step.Register))
      ensures Of(id) == old(Of(id)).(registered := true)
      ensures forall other | other != id :: Of(other) == old(Of(other))
    {
      customImportCancel := customImportCancel + {id};
    }

    method Unregister(id: string)
      modifies this`customImportCancel
      ensures forall s | SharedOf(s) == old(Of(id)) && s.handler == Waiting && s.importer.Returned? :: Of(id) == SharedOf(Next(s, TakeResult))
      ensures Of(id) == old(Of(id)).(registered := false)
      ensures forall other | other != id :: Of(other) == old(Of(other))
    {
      customImportCancel := customImportCancel - {id};
    }

    /** The locked section of `PauseModpackImport`. */
    method AskPause(id: string) returns (ok: bool)
      modifies this`customImportPaused
      ensures ok == old(Of(id)).registered
      ensures forall s | SharedOf(s) == old(Of(id)) :: Of(id) == SharedOf(Next(s, Step.AskPause))
      ensures Of(id) == old(Of(id)).(marked := old(Of(id)).marked || old(Of(id)).registered)
      ensures forall other | other != id :: Of(other) == old(Of(other))
    {
      ok := id in customImportCancel;
      if ok {
        customImportPaused := customImportPaused + {id};
      }
    }

    method CallCancelFunction(id: string)
      modifies this`cancelled
      ensures forall s | SharedOf(s) == old(Of(id)) && s.asked > 0 :: Of(id) == SharedOf(Next(s, CallPause))
      ensures forall s | SharedOf(s) == old(Of(id)) && s.willCancel > 0 :: Of(id) == SharedOf(Next(s, CallCancel))
      ensures Of(id) == old(Of(id)).(cancelled := true)
      ensures forall other | other != id :: Of(other) == old(Of(other))
    {
      cancelled := cancelled + {id};
    }

    method EmitCustomPaused(id: string)
      modifies this`dlTransient
      ensures forall s | SharedOf(s) == old(Of(id)) && s.called > 0 :: Of(id) == SharedOf(Next(s, ShowPause))
      ensures forall s | SharedOf(s) == old(Of(id)) && s.handler == Reasserting :: Of(id) == SharedOf(Next(s, Reassert))
      ensures Of(id) == old(Of(id)).(shown := Paused)
      ensures forall other | other != id :: Of(other) == old(Of(other))
    {
      dlTransient := dlTransient[id := Paused];
    }

    /** The locked section of `finalizeCustomPaused`. */
    method TakeMark(id: string) returns (paused: bool)
      modifies this`customImportPaused
      ensures paused == old(Of(id)).marked
      ensures forall s | SharedOf(s) == old(Of(id)) && s.handler == Deciding ::
                Of(id) == SharedOf(Next(s, Step.TakeMark)) && (paused <==> Next(s, Step.TakeMark).handler == Reasserting)
      ensures Of(id) == old(Of(id)).(marked := false)
      ensures forall other | other != id :: Of(other) == old(Of(other))
    {
      paused := id in customImportPaused;
      customImportPaused := customImportPaused - {id};
    }

    /** The locked section of `cancelCustomImport`. */
    method AskCancel(id: string) returns (ok: bool)
      modifies this`customImportPaused
      ensures ok == old(Of(id)).registered
      ensures forall s | SharedOf(s) == old(Of(id)) :: Of(id) == SharedOf(Next(s, Step.AskCancel))
      ensures Of(id) == old(Of(id)).(marked := false)
      ensures forall other | other != id :: Of(other) == old(Of(other))
    {
      ok := id in customImportCancel;
      customImportPaused := customImportPaused - {id};
    }

    /** Deleting the shown entry, by a cancel or by the handler after a real error. */
    method DropTransient(id: string)
      modifies this`dlTransient
      ensures forall s | SharedOf(s) == old(Of(id)) && s.willDrop > 0 :: Of(id) == SharedOf(Next(s, DropCancelled))
      ensures forall s | SharedOf(s) == old(Of(id)) && s.handler == Dropping :: Of(id) == SharedOf(Next(s, DropShown))
      ensures Of(id) == old(Of(id)).(shown := Absent)
      ensures forall other | other != id :: Of(other) == old(Of(other))
    {
      dlTransient := dlTransient - {id};
    }
  }
}
