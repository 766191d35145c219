/**
 * The blocked-mods dialog (backend/custompack_api.go): the importer stops and asks
 * the player what to do with mods that may not be downloaded, and waits for a
 * reply on a channel with one slot. There can be several rounds in one import.
 *
 * The model follows one pack. A reply is two steps, finding the channel under the
 * lock and sending to it, and everything interleaves freely.
 */
module BlockedMods {
  import opened Common

  datatype Decision = Modrinth | Skip | Manual | Cancel

  /** What a round of the handler returns. */
  datatype Result = Replied(decision: Decision) | Stopped

  /** Where the handler stands in the current round. */
  datatype Phase =
    | Idle
    | Registered   // the channel can be found, the event is not yet emitted
    | Asking       // the event is emitted, the handler waits
    | Leaving      // the handler has its result and is about to remove the channel

  /** One round: its slot, all decisions sent to it in order (also those that found
      the slot full), how many of them before the event was emitted, and its result. */
  datatype Round = Round(slot: Option<Decision>, sent: seq<Decision>, early: nat, result: Option<Result>)

  /** `found` holds the replies that have found the channel of a round and not yet
      sent to it; the last of `rounds` is the current one. */
  datatype State = State(rounds: seq<Round>, phase: Phase, waiter: Option<nat>, stopped: bool, found: multiset<(nat, Decision)>)

  function Start(): State {
    State([], Idle, None, false, multiset{})
  }

  datatype Step =
    | Register               // the handler makes a channel and stores it
    | Emit                   // import:blocked
    | Receive                // the handler takes a decision from the slot
    | Stop                   // the handler finds its context cancelled
    | Leave                  // the handler removes the channel
    | CancelImport
    | Find(d: Decision)      // RespondBlockedMods finds the channel, if there is one
    | Send(r: nat, d: Decision) // and sends without blocking

  function Cur(s: State): (r: nat)
    requires s.rounds != []
  {
    |s.rounds| - 1
  }

  function Next(s: State, e: Step): State {
    match e
    case Register =>
      if s.phase == Idle then
        s.(rounds := s.rounds + [Round(None, [], 0, None)], phase := Registered, waiter := Some(|s.rounds|))
      else s
    case Emit =>
      if s.phase == Registered && s.rounds != [] then
        var c := s.rounds[Cur(s)];
        s.(phase := Asking, rounds := s.rounds[Cur(s) := c.(early := |c.sent|)])
      else s
    case Receive =>
      if s.phase == Asking && s.rounds != [] && s.rounds[Cur(s)].slot.Some? then
        var c := s.rounds[Cur(s)];
        s.(phase := Leaving, rounds := s.rounds[Cur(s) := c.(slot := None, result := Some(Replied(c.slot.value)))])
      else s
    case Stop =>
      if s.phase == Asking && s.rounds != [] && s.stopped then
        s.(phase := Leaving, rounds := s.rounds[Cur(s) := s.rounds[Cur(s)].(result := Some(Stopped))])
      else s
    case Leave =>
      if s.phase == Leaving then s.(phase := Idle, waiter := None) else s
    case CancelImport => s.(stopped := true)
    case Find(d) =>
      if s.waiter.Some? then s.(found := s.found + multiset{(s.waiter.value, d)}) else s
    case Send(r, d) =>
      if (r, d) in s.found && r < |s.rounds| then
        var c := s.rounds[r];
        s.(found := s.found - multiset{(r, d)},
           rounds := s.rounds[r := c.(slot := if c.slot.None? then Some(d) else c.slot, sent := c.sent + [d])])
      else s
  }

  function Run(s: State, es: seq<Step>): State {
    if es == [] then s else Next(Run(s, es[..|es| - 1]), es[|es| - 1])
  }

  // -------------------------------------------------------------------------
  // What every interleaving keeps
  // -------------------------------------------------------------------------

  /** A round whose handler has not yet taken a decision holds the first one sent; a
      round that got a reply got the first one sent. */
  ghost predicate RoundKeeps(c: Round, stopped: bool) {
    && c.early <= |c.sent|
    && (c.result == None ==> c.slot == if c.sent == [] then None else Some(c.sent[0]))
    && (c.result.Some? && c.result.value.Replied? ==> c.sent != [] && c.result.value.decision == c.sent[0])
    && (c.result == Some(Stopped) ==> stopped)
  }

  ghost predicate Keeps(s: State) {
    && (forall r | 0 <= r < |s.rounds| :: RoundKeeps(s.rounds[r], s.stopped))
    && (s.phase != Idle ==> s.rounds != [] && s.waiter == Some(Cur(s)))
    && (s.phase == Idle ==> s.waiter == None)
    && (s.phase in {Registered, Asking} ==> s.rounds[Cur(s)].result == None)
    && (forall p | p in s.found :: p.0 < |s.rounds|)
  }

  lemma SendKeeps(s: State, r: nat, d: Decision)
    requires Keeps(s)
    ensures Keeps(Next(s, Send(r, d)))
  {
    if (r, d) in s.found && r < |s.rounds| {
      var c := Next(s, Send(r, d)).rounds[r];
      assert RoundKeeps(s.rounds[r], s.stopped);
      assert RoundKeeps(c, s.stopped);
    }
  }

  lemma StepKeeps(s: State, e: Step)
    requires Keeps(s)
    ensures Keeps(Next(s, e))
  {
    if e.Send? {
      SendKeeps(s, e.r, e.d);
    }
  }

  lemma {:induction false} RunKeeps(es: seq<Step>)
    ensures Keeps(Run(Start(), es))
  {
    if es != [] {
      RunKeeps(es[..|es| - 1]);
      StepKeeps(Run(Start(), es[..|es| - 1]), es[|es| - 1]);
    }
  }

  // -------------------------------------------------------------------------
  // Replies
  // -------------------------------------------------------------------------

  lemma RoundOf(es: seq<Step>, r: nat)
    requires r < |Run(Start(), es).rounds|
    ensures RoundKeeps(Run(Start(), es).rounds[r], Run(Start(), es).stopped)
  {
    RunKeeps(es);
  }

  /** A handler returns the first decision that was sent to its round, and gives up
      only when its import was cancelled. */
  lemma FirstReplyWins(es: seq<Step>, r: nat)
    requires r < |Run(Start(), es).rounds| && Run(Start(), es).rounds[r].result.Some?
    ensures var c := Run(Start(), es).rounds[r];
            if c.result.value.Replied? then c.sent != [] && c.result.value.decision == c.sent[0] else Run(Start(), es).stopped
  {
    RoundOf(es, r);
    FirstOfRound(Run(Start(), es).rounds[r], Run(Start(), es).stopped);
  }

  lemma FirstOfRound(c: Round, stopped: bool)
    requires RoundKeeps(c, stopped) && c.result.Some?
    ensures if c.result.value.Replied? then c.sent != [] && c.result.value.decision == c.sent[0] else stopped
  {
  }

  /** The first reply sent after the event is what the round returns unless the import
      was cancelled, exactly when no different reply had been sent before the event. */
  lemma FirstReplyAfterEvent(es: seq<Step>, r: nat)
    requires r < |Run(Start(), es).rounds| && !Run(Start(), es).stopped
    requires var c := Run(Start(), es).rounds[r]; c.result.Some? && c.early < |c.sent|
    ensures var c := Run(Start(), es).rounds[r];
            c.result == Some(Replied(c.sent[c.early])) <==> c.early == 0 || c.sent[0] == c.sent[c.early]
  {
    RoundOf(es, r);
    FirstOfRound(Run(Start(), es).rounds[r], false);
  }

  /** A reply is never lost while the handler waits: whoever looks for the channel
      finds that of this round, and once something was sent the handler can return. */
  lemma WaitingHandlerIsAnswered(es: seq<Step>, d: Decision)
    requires Run(Start(), es).phase == Asking
    ensures Answerable(Run(Start(), es), d)
  {
    RunKeeps(es);
    KeptIsAnswerable(Run(Start(), es), d);
  }

  predicate Answerable(s: State, d: Decision) {
    && s.rounds != []
    && Next(s, Find(d)).found == s.found + multiset{(Cur(s), d)}
    && (s.rounds[Cur(s)].sent != [] ==>
          Next(s, Receive).rounds[Cur(s)].result == Some(Replied(s.rounds[Cur(s)].sent[0])))
  }

  lemma KeptIsAnswerable(s: State, d: Decision)
    requires Keeps(s) && s.phase == Asking
    ensures Answerable(s, d)
  {
    assert RoundKeeps(s.rounds[Cur(s)], s.stopped);
  }

  /** A result that is there stays, whatever is sent afterwards and in whatever round. */
  lemma {:induction false} ResultStays(s: State, es: seq<Step>, r: nat)
    requires Keeps(s) && r < |s.rounds| && s.rounds[r].result.Some?
    ensures Keeps(Run(s, es)) && r < |Run(s, es).rounds| && Run(s, es).rounds[r].result == s.rounds[r].result
  {
    if es != [] {
      var n := |es| - 1;
      ResultStays(s, es[..n], r);
      StepKeeps(Run(s, es[..n]), es[n]);
      ResultStaysOnce(Run(s, es[..n]), es[n], r);
    }
  }

  lemma ResultStaysOnce(s: State, e: Step, r: nat)
    requires Keeps(s) && r < |s.rounds| && s.rounds[r].result.Some?
    ensures r < |Next(s, e).rounds| && Next(s, e).rounds[r].result == s.rounds[r].result
  {
  }

  lemma LaterRepliesChangeNothing(es: seq<Step>, more: seq<Step>, r: nat)
    requires r < |Run(Start(), es).rounds| && Run(Start(), es).rounds[r].result.Some?
    ensures var later := Run(Run(Start(), es), more);
            r < |later.rounds| && later.rounds[r].result == Run(Start(), es).rounds[r].result
  {
    RunKeeps(es);
    ResultStays(Run(Start(), es), more, r);
  }

  // ---- a reply before the question ----

  /** A reply that looks for the channel between its registration and the event, such
      as a second click on the dialog of the round before, is not refused: from any
      state at that point it takes the slot, answers the question not yet asked, and
      the player's real answer is dropped. */
  lemma EarlyReplyTakesTheSlot(s: State, x: Decision, y: Decision)
    requires Keeps(s) && s.phase == Registered && s.rounds[Cur(s)].sent == []
    ensures var asked := Next(Reply(s, x), Emit);
            asked.rounds != [] &&
            var end := Next(Reply(asked, y), Receive);
            |end.rounds| == |s.rounds| && end.rounds[Cur(s)] == Round(None, [x, y], 1, Some(Replied(x)))
  {
    var r := Cur(s);
    assert RoundKeeps(s.rounds[r], s.stopped);
    ReplyLands(s, x);
    var asked := Next(Reply(s, x), Emit);
    assert asked.phase == Asking && asked.rounds[r] == Round(Some(x), [x], 1, None);
    AnswerIsDropped(asked, x, y);
  }

  lemma AnswerIsDropped(s: State, x: Decision, y: Decision)
    requires s.rounds != [] && s.phase == Asking && s.waiter == Some(Cur(s))
    requires s.rounds[Cur(s)] == Round(Some(x), [x], 1, None)
    ensures var end := Next(Reply(s, y), Receive);
            |end.rounds| == |s.rounds| && end.rounds[Cur(s)] == Round(None, [x, y], 1, Some(Replied(x)))
  {
    ReplyLands(s, y);
    assert [x] + [y] == [x, y];
  }

  /** One reply, found and sent without delay. */
  function Reply(s: State, d: Decision): State
    requires s.rounds != []
  {
    Replies(s, Cur(s), d)
  }

  lemma ReplyLands(s: State, d: Decision)
    requires s.rounds != [] && s.waiter == Some(Cur(s))
    ensures var c := s.rounds[Cur(s)];
            var c' := c.(slot := if c.slot.None? then Some(d) else c.slot, sent := c.sent + [d]);
            Reply(s, d) == s.(rounds := s.rounds[Cur(s) := c'])
  {
    var p := (Cur(s), d);
    var s1 := Next(s, Find(d));
    assert s1 == s.(found := s.found + multiset{p});
    PutAndTaken(s.found, p);
    SendFound(s1, Cur(s), d);
  }

  lemma PutAndTaken<T>(m: multiset<T>, x: T)
    ensures x in m + multiset{x} && m + multiset{x} - multiset{x} == m
  {
  }

  lemma SendFound(s: State, r: nat, d: Decision)
    requires (r, d) in s.found && r < |s.rounds|
    ensures var c := s.rounds[r];
            var c' := c.(slot := if c.slot.None? then Some(d) else c.slot, sent := c.sent + [d]);
            Next(s, Send(r, d)) == s.(found := s.found - multiset{(r, d)}, rounds := s.rounds[r := c'])
  {
  }

  // -------------------------------------------------------------------------
  // The program
  // -------------------------------------------------------------------------

  /** A Go channel of capacity one, as it is used here. */
  class Channel {
    var slot: Option<Decision>

    constructor ()
      ensures slot == None
    {
      slot := None;
    }

    /** `select { case ch <- d: default: }` */
    method TrySend(d: Decision)
      modifies this
      ensures slot == if old(slot) == None then Some(d) else old(slot)
    {
      if slot == None {
        slot := Some(d);
      }
    }

    method TryReceive() returns (d: Option<Decision>)
      modifies this
      ensures d == old(slot) && slot == None
    {
      d := slot;
      slot := None;
    }
  }

  /** The decision a string stands for; other strings are not sent. */
  function Parse(decision: string): Option<Decision> {
    if decision == "modrinth" then Some(Modrinth)
    else if decision == "skip" then Some(Skip)
    else if decision == "manual" then Some(Manual)
    else if decision == "cancel" then Some(Cancel)
    else None
  }

  /** The parts of a comma-separated list. */
  function Split(s: string): (parts: seq<string>)
    ensures parts != []
  {
    if s == "" then [""]
    else
      var rest := Split(s[1..]);
      if s[0] == ',' then [""] + rest else [[s[0]] + rest[0]] + rest[1..]
  }

  function Joined(parts: seq<string>): string
    requires parts != []
  {
    if |parts| == 1 then parts[0] else parts[0] + "," + Joined(parts[1..])
  }

  /** The parts hold no comma, and with commas between them they are the string again. */
  lemma {:induction false} SplitJoins(s: string)
    ensures Joined(Split(s)) == s && forall k | 0 <= k < |Split(s)| :: ',' !in Split(s)[k]
  {
    if s != "" {
      var rest := Split(s[1..]);
      SplitJoins(s[1..]);
      if s[0] == ',' {
        assert ([""] + rest)[1..] == rest;
        assert s == "" + "," + s[1..];
      } else {
        FrontJoins(s[0], rest);
        assert s == [s[0]] + s[1..];
      }
    }
  }

  lemma FrontJoins(c: char, parts: seq<string>)
    requires parts != []
    ensures Joined([[c] + parts[0]] + parts[1..]) == [c] + Joined(parts)
  {
    var more := [[c] + parts[0]] + parts[1..];
    assert more[1..] == parts[1..] && more[0] == [c] + parts[0];
    if |parts| > 1 {
      assert [c] + parts[0] + "," + Joined(parts[1..]) == [c] + (parts[0] + "," + Joined(parts[1..]));
    }
  }

  /** `blockedWaiters` and `blockedCheckedMods`, under their lock. */
  class Waiters {
    var blockedWaiters: map<string, Channel>
    var blockedCheckedMods: map<string, seq<string>>

    /** For the pack `id`, the maps and the channels of all rounds so far are in the
        state `s`: each channel holds the slot of its round, and the one that replies
        find is that of the round in progress. */
    ghost predicate Shows(id: string, s: State, chs: seq<Channel>)
      reads this, chs
    {
      && |chs| == |s.rounds| && Distinct(chs)
      && (forall r | 0 <= r < |chs| :: chs[r].slot == s.rounds[r].slot)
      && (if s.waiter.Some? then s.waiter.value < |chs| && id in blockedWaiters && blockedWaiters[id] == chs[s.waiter.value]
          else id !in blockedWaiters)
    }

    /** The start of a handler's round: a fresh channel that replies can find at once. */
    method Register(packId: string, ghost s: State, ghost chs: seq<Channel>) returns (ch: Channel)
      requires Shows(packId, s, chs) && s.phase == Idle
      modifies this`blockedWaiters
      ensures fresh(ch) && blockedWaiters == old(blockedWaiters)[packId := ch]
      ensures Shows(packId, Next(s, Step.Register), chs + [ch])
    {
      ch := new Channel();
      blockedWaiters := blockedWaiters[packId := ch];
    }

    /** The handler takes a decision from the channel of its round. */
    method Receive(packId: string, ch: Channel, ghost s: State, ghost chs: seq<Channel>) returns (d: Option<Decision>)
      requires Shows(packId, s, chs) && s.phase == Asking && s.rounds != [] && ch == chs[Cur(s)]
      modifies ch
      ensures Shows(packId, Next(s, Step.Receive), chs)
      ensures d.Some? ==> Next(s, Step.Receive).rounds[Cur(s)].result == Some(Replied(d.value))
      ensures d.None? ==> Next(s, Step.Receive) == s
    {
      d := ch.TryReceive();
    }

    /** The end of the round: replies do not find the channel any more. */
    method Leave(packId: string, ghost s: State, ghost chs: seq<Channel>)
      requires Shows(packId, s, chs) && s.phase == Leaving
      modifies this`blockedWaiters
      ensures blockedWaiters == old(blockedWaiters) - {packId}
      ensures Shows(packId, Next(s, Step.Leave), chs)
    {
      blockedWaiters := blockedWaiters - {packId};
    }

    method Find(packId: string) returns (ch: Channel?)
      ensures ch == if packId in blockedWaiters then blockedWaiters[packId] else null
    {
      ch := if packId in blockedWaiters then blockedWaiters[packId] else null;
    }

    /** `RespondBlockedMods`, taken alone: the checked mods are remembered even when no
        dialog waits; a known decision is found a channel and sent, and changes nothing
        else; another one changes nothing. */
    method RespondBlockedMods(packId: string, decision: string, checkedMods: string, ghost s: State, ghost chs: seq<Channel>)
      requires Shows(packId, s, chs)
      modifies this`blockedCheckedMods, if packId in blockedWaiters then {blockedWaiters[packId]} else {}
      ensures blockedCheckedMods == if checkedMods == "" then old(blockedCheckedMods)
                                    else old(blockedCheckedMods)[packId := Split(checkedMods)]
      ensures Shows(packId, if s.waiter.Some? && Parse(decision).Some? then Replies(s, s.waiter.value, Parse(decision).value) else s, chs)
      ensures s.waiter.Some? && s.rounds[s.waiter.value].slot == None ==>
                && (decision == "modrinth" ==> blockedWaiters[packId].slot == Some(Modrinth))
                && (decision == "skip" ==> blockedWaiters[packId].slot == Some(Skip))
                && (decision == "manual" ==> blockedWaiters[packId].slot == Some(Manual))
                && (decision == "cancel" ==> blockedWaiters[packId].slot == Some(Cancel))
                && (decision !in {"modrinth", "skip", "manual", "cancel"} ==> blockedWaiters[packId].slot == None)
    {
      if checkedMods != "" {
        blockedCheckedMods := blockedCheckedMods[packId := Split(checkedMods)];
      }
      var ch := Find(packId);
      if ch == null {
        return;
      }
      var d := Parse(decision);
      if d.Some? {
        PutAndTaken(s.found, (s.waiter.value, d.value));
        SendFound(Next(s, Step.Find(d.value)), s.waiter.value, d.value);
        ch.TrySend(d.value);
      }
    }
  }

  /** A reply to the round `r`, found and sent without delay. */
  function Replies(s: State, r: nat, d: Decision): State {
    Next(Next(s, Find(d)), Send(r, d))
  }
}
