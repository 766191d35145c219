/**
 * The console line batcher (backend/console_batch.go).
 *
 * Lines are collected under a lock and handed out in batches, either when 500
 * are waiting or when a 40 ms timer runs. Stopping a timer does not recall a
 * callback that has already fired and waits for the lock, so a callback of an
 * old timer can run at any later moment. `flush` is called outside the lock.
 */
module ConsoleBatch {
  import opened Common

  const INTERVAL: nat := 40
  const FLUSH_AT: nat := 500

  type TimerId = nat

  // -------------------------------------------------------------------------
  // The batcher as a specification on values
  // -------------------------------------------------------------------------

  /** What the lock protects (`pending`, `timer`) and what the runtime knows:
      the timers that still run down, with their deadlines, and the timers that
      have gone off and whose callback waits for the lock. */
  datatype Core<T> = Core(
    pending: seq<T>,
    timer: Option<TimerId>,
    armed: map<TimerId, nat>,
    fired: set<TimerId>,
    next: TimerId,
    now: nat)

  datatype Handed<T> = Handed(core: Core<T>, batch: seq<T>)

  function StartTimer<T>(c: Core<T>): Core<T> {
    c.(timer := Some(c.next), armed := c.armed[c.next := c.now + INTERVAL], next := c.next + 1)
  }

  /** Stopping drops an armed timer; one that already went off is not recalled. */
  function StopTimer<T>(c: Core<T>): Core<T> {
    if c.timer.Some? then c.(armed := c.armed - {c.timer.value}, timer := None) else c
  }

  function AddLine<T>(c: Core<T>, item: T): Handed<T> {
    var grown := c.(pending := c.pending + [item]);
    if |grown.pending| >= FLUSH_AT then
      Handed(StopTimer(grown.(pending := [])), grown.pending)
    else if |grown.pending| == 1 then
      Handed(StartTimer(grown), [])
    else
      Handed(grown, [])
  }

  function TakePending<T>(c: Core<T>): Handed<T> {
    Handed(c.(pending := [], timer := None), c.pending)
  }

  // -------------------------------------------------------------------------
  // The batcher as the program has it
  // -------------------------------------------------------------------------

  /** The runtime's timers: `AfterFunc`, `Stop`, and going off. */
  class Clock {
    var now: nat
    var armed: map<TimerId, nat>
    var fired: set<TimerId>
    var next: TimerId

    constructor ()
      ensures now == 0 && armed == map[] && fired == {} && next == 0
    {
      now, armed, fired, next := 0, map[], {}, 0;
    }

    method AfterFunc() returns (id: TimerId)
      modifies this
      ensures id == old(next) && next == old(next) + 1
      ensures armed == old(armed)[id := now + 40] && fired == old(fired) && now == old(now)
    {
      id := next;
      armed := armed[id := now + INTERVAL];
      next := next + 1;
    }

    method Stop(id: TimerId)
      modifies this
      ensures armed == old(armed) - {id} && fired == old(fired) && next == old(next) && now == old(now)
    {
      armed := armed - {id};
    }
  }

  class ConsoleLineBatcher<T> {
    var pending: seq<T>
    var timer: Option<TimerId>
    const clock: Clock

    ghost function State(): Core<T>
      reads this, clock
    {
      Core(pending, timer, clock.armed, clock.fired, clock.next, clock.now)
    }

    constructor (clock: Clock)
      ensures this.clock == clock && pending == [] && timer == None
    {
      this.clock := clock;
      pending, timer := [], None;
    }

    /** One locked section of `add`; a non-empty `batch` is passed to `flush`
        after the lock is released. */
    method Add(item: T) returns (batch: seq<T>)
      modifies this, clock
      ensures Handed(State(), batch) == AddLine(old(State()), item)
      ensures if |old(pending)| + 1 < 500 then batch == [] && pending == old(pending) + [item]
              else batch == old(pending) + [item] && pending == [] && timer == None
      ensures old(pending) == [] ==> timer == Some(old(clock.next)) && clock.armed == old(clock.armed)[old(clock.next) := clock.now + 40]
      ensures old(pending) != [] && batch == [] ==> timer == old(timer) && clock.armed == old(clock.armed)
      ensures batch != [] && old(timer).Some? ==> clock.armed == old(clock.armed) - {old(timer).value}
      ensures clock.now == old(clock.now) && clock.fired == old(clock.fired)
    {
      pending := pending + [item];
      var shouldFlushNow := |pending| >= FLUSH_AT;
      var startTimer := |pending| == 1 && !shouldFlushNow;
      if startTimer {
        var t := clock.AfterFunc();
        timer := Some(t);
      }
      batch := [];
      if shouldFlushNow {
        batch := pending;
        pending := [];
        if timer.Some? {
          clock.Stop(timer.value);
          timer := None;
        }
      }
    }

    /** One locked section of `flushNow`, the timer callback. */
    method FlushNow() returns (batch: seq<T>)
      modifies this
      ensures Handed(State(), batch) == TakePending(old(State()))
      ensures batch == old(pending) && pending == [] && timer == None
    {
      batch := pending;
      pending := [];
      timer := None;
    }
  }

  // -------------------------------------------------------------------------
  // Runs: adders, the passage of time, timers, callbacks and deliveries, in
  // any interleaving
  // -------------------------------------------------------------------------

  datatype Event<T> =
    | Add(item: T)          // some goroutine runs the locked section of `add`
    | Wait(ms: nat)         // time passes, but not past a timer that is due
    | Fire(id: TimerId)     // a timer that is due goes off; its callback now waits for the lock
    | Callback(id: TimerId) // a waiting callback runs the locked section of `flushNow`
    | Deliver(k: nat)       // the holder of the k-th extracted batch calls `flush`

  /** `extracted` holds the batches in the order they left the lock, `delivered`
      the indices of those already passed to `flush`, in that order; `since` is
      when the oldest pending line came. */
  datatype Sys<T> = Sys(core: Core<T>, extracted: seq<seq<T>>, delivered: seq<nat>, since: nat)

  function Start<T>(): Sys<T> {
    Sys(Core([], None, map[], {}, 0, 0), [], [], 0)
  }

  function Extract<T>(s: Sys<T>, h: Handed<T>): Sys<T> {
    s.(core := h.core, extracted := if h.batch == [] then s.extracted else s.extracted + [h.batch])
  }

  /** One atomic step; an event that cannot happen in `s` changes nothing. */
  function Step<T>(s: Sys<T>, e: Event<T>): Sys<T> {
    match e
    case Add(item) =>
      Extract(if s.core.pending == [] then s.(since := s.core.now) else s, AddLine(s.core, item))
    case Wait(ms) =>
      if forall t | t in s.core.armed :: s.core.now + ms <= s.core.armed[t]
      then s.(core := s.core.(now := s.core.now + ms)) else s
    case Fire(id) =>
      if id in s.core.armed && s.core.armed[id] <= s.core.now
      then s.(core := s.core.(armed := s.core.armed - {id}, fired := s.core.fired + {id})) else s
    case Callback(id) =>
      if id in s.core.fired
      then Extract(s, TakePending(s.core.(fired := s.core.fired - {id}))) else s
    case Deliver(k) =>
      if k < |s.extracted| && k !in s.delivered then s.(delivered := s.delivered + [k]) else s
  }

  function Run<T>(s: Sys<T>, es: seq<Event<T>>): Sys<T> {
    if es == [] then s else Step(Run(s, es[..|es| - 1]), es[|es| - 1])
  }

  /** The lines given to `add`, in the order the lock was taken. */
  function Added<T>(es: seq<Event<T>>): seq<T> {
    if es == [] then []
    else Added(es[..|es| - 1]) + if es[|es| - 1].Add? then [es[|es| - 1].item] else []
  }

  /** Facts about timers and sizes that every step keeps. `s.since + INTERVAL` is
      the deadline of the timer started for the oldest pending line. */
  ghost predicate Sound<T>(s: Sys<T>) {
    && |s.core.pending| < FLUSH_AT
    && (forall k | 0 <= k < |s.extracted| :: 1 <= |s.extracted[k]| <= FLUSH_AT)
    && (forall t | t in s.core.armed :: t < s.core.next && s.core.now <= s.core.armed[t])
    && (s.core.pending != [] ==>
          s.core.fired != {} || exists t :: t in s.core.armed && s.core.armed[t] <= s.since + INTERVAL)
    && Distinct(s.delivered)
    && (forall i | 0 <= i < |s.delivered| :: s.delivered[i] < |s.extracted|)
  }

  lemma StepKeepsSound<T>(s: Sys<T>, e: Event<T>)
    requires Sound(s)
    ensures Sound(Step(s, e))
  {
    var r := Step(s, e);
    match e
    case Add(item) =>
      if |s.core.pending| == 0 {
        assert s.core.next in r.core.armed;
      }
    case Wait(ms) =>
    case Fire(id) =>
      if id in s.core.armed && s.core.armed[id] <= s.core.now { assert id in r.core.fired; }
    case Callback(id) =>
    case Deliver(k) =>
  }

  lemma {:induction false} RunIsSound<T>(es: seq<Event<T>>)
    ensures Sound(Run(Start<T>(), es))
  {
    if es != [] {
      RunIsSound(es[..|es| - 1]);
      StepKeepsSound(Run(Start<T>(), es[..|es| - 1]), es[|es| - 1]);
    }
  }

  /** Nothing is lost, doubled or reordered on the way out of the lock: in every
      interleaving the extracted batches in extraction order, followed by the
      pending lines, are the lines added. */
  lemma {:induction false} ExtractionKeepsOrder<T>(es: seq<Event<T>>)
    ensures var s := Run(Start<T>(), es); Concat(s.extracted) + s.core.pending == Added(es)
  {
    if es != [] {
      ExtractionKeepsOrder(es[..|es| - 1]);
      StepKeepsOrder(Run(Start<T>(), es[..|es| - 1]), es[|es| - 1]);
    }
  }

  lemma StepKeepsOrder<T>(s: Sys<T>, e: Event<T>)
    ensures var r := Step(s, e);
            Concat(r.extracted) + r.core.pending == Concat(s.extracted) + s.core.pending + if e.Add? then [e.item] else []
  {
    ConcatSnoc(s.extracted, s.core.pending);
    if e.Add? {
      ConcatSnoc(s.extracted, s.core.pending + [e.item]);
    }
  }

  /** Every batch handed out has 1 to 500 lines, and fewer than 500 lines wait
      whenever the lock is free. */
  lemma BatchSizes<T>(es: seq<Event<T>>)
    ensures var s := Run(Start<T>(), es);
            && |s.core.pending| < 500
            && forall k | 0 <= k < |s.extracted| :: 1 <= |s.extracted[k]| <= 500
  {
    RunIsSound(es);
  }

  /** Lines leave early only 500 at a time: whatever `add` hands out is a full batch, so a
      smaller one was handed out by a callback. */
  lemma AddHandsOutFullBatches<T>(es: seq<Event<T>>, item: T)
    ensures var before, after := Run(Start<T>(), es), Run(Start<T>(), es + [Add(item)]);
            (before.core.pending != [] ==> after.since == before.since) &&
            if |before.core.pending| == 499 then
              after.extracted == before.extracted + [before.core.pending + [item]] && |before.core.pending + [item]| == 500
            else after.extracted == before.extracted && after.core.pending == before.core.pending + [item]
  {
    RunIsSound(es);
    RunSnoc(Start<T>(), es, Add(item));
  }

  /** The first line that waits starts a timer of exactly 40 ms. */
  lemma FirstLineStartsTimer<T>(es: seq<Event<T>>, item: T)
    requires Run(Start<T>(), es).core.pending == []
    ensures var before, after := Run(Start<T>(), es).core, Run(Start<T>(), es + [Add(item)]);
            && after.core.timer == Some(before.next) && after.core.armed == before.armed[before.next := before.now + 40]
            && after.since == before.now
  {
    RunSnoc(Start<T>(), es, Add(item));
  }

  /** A timer that runs keeps its deadline, and it does not go off before. */
  lemma {:induction false} TimerIsNeverEarly<T>(s: Sys<T>, es: seq<Event<T>>, id: TimerId)
    requires id in s.core.armed && id < s.core.next && id !in s.core.fired
    ensures var now := Run(s, es).core;
            && s.core.next <= now.next
            && (id in now.armed ==> now.armed[id] == s.core.armed[id])
            && (id in now.fired ==> s.core.armed[id] <= now.now)
  {
    if es != [] {
      TimerIsNeverEarly(s, es[..|es| - 1], id);
    }
  }

  /** No line is ever stuck: while lines wait, a timer runs or a callback is on
      its way, whatever was stopped or fired before; and unless a callback is
      already waiting for the lock, the oldest line has waited at most 40 ms. */
  lemma NoLineIsStuck<T>(es: seq<Event<T>>)
    ensures var s := Run(Start<T>(), es);
            && (s.core.armed == map[] && s.core.fired == {} ==> s.core.pending == [])
            && (s.core.pending != [] && s.core.fired == {} ==> s.core.now <= s.since + 40)
  {
    RunIsSound(es);
  }

  /** After `more` all lines that `es` had added have left the batcher, in order. */
  ghost predicate Drains<T>(es: seq<Event<T>>, more: seq<Event<T>>) {
    var s := Run(Start<T>(), es + more);
    s.core.pending == [] && Concat(s.extracted) == Added(es)
  }

  /** Of the timers that run, `id` is due first. */
  predicate DueFirst<T>(c: Core<T>, id: TimerId) {
    id in c.armed && c.now <= c.armed[id] && forall t | t in c.armed :: c.armed[id] <= c.armed[t]
  }

  /** Any one callback on its way is enough, and so is the timer that is due first, which
      never lies in the past: once it goes off and its callback runs, nothing waits. */
  lemma AnyTimerDrains<T>(es: seq<Event<T>>, id: TimerId)
    ensures var s := Run(Start<T>(), es).core;
            && (id in s.fired ==> Drains(es, [Callback(id)]))
            && (id in s.armed && (forall t | t in s.armed :: s.armed[id] <= s.armed[t]) ==>
                  s.now <= s.armed[id] && Drains(es, [Wait(s.armed[id] - s.now), Fire(id), Callback(id)]))
  {
    var s := Run(Start<T>(), es).core;
    RunIsSound(es);
    if id in s.fired {
      CallbackDrains(es, id);
    }
    if DueFirst(s, id) {
      FirstTimerDrains(es, id);
    }
  }

  lemma FirstTimerDrains<T>(es: seq<Event<T>>, id: TimerId)
    requires DueFirst(Run(Start<T>(), es).core, id)
    ensures var s := Run(Start<T>(), es).core; Drains(es, [Wait(s.armed[id] - s.now), Fire(id), Callback(id)])
  {
    var s := Run(Start<T>(), es).core;
    var wait: Event<T> := Wait(s.armed[id] - s.now);
    FirstFires(es, id);
    CallbackDrains(es + [wait] + [Fire(id)], id);
    OneAfterTheOther(es, wait, Fire(id), Callback(id));
  }

  lemma OneAfterTheOther<T>(es: seq<T>, x: T, y: T, z: T)
    ensures es + [x] + [y] + [z] == es + [x, y, z]
  {
  }

  lemma FirstFires<T>(es: seq<Event<T>>, id: TimerId)
    requires DueFirst(Run(Start<T>(), es).core, id)
    ensures var s := Run(Start<T>(), es).core;
            var later := es + [Wait(s.armed[id] - s.now)] + [Fire(id)];
            id in Run(Start<T>(), later).core.fired && Added(later) == Added(es)
  {
    var s := Run(Start<T>(), es);
    var wait: Event<T> := Wait(s.core.armed[id] - s.core.now);
    RunSnoc(Start<T>(), es, wait);
    RunSnoc(Start<T>(), es + [wait], Fire(id));
    assert Step(s, wait).core.now == s.core.armed[id];
  }

  lemma CallbackDrains<T>(es: seq<Event<T>>, id: TimerId)
    requires id in Run(Start<T>(), es).core.fired
    ensures Drains(es, [Callback(id)])
  {
    RunSnoc(Start<T>(), es, Callback(id));
    ExtractionKeepsOrder(es + [Callback(id)]);
    assert Added(es + [Callback(id)]) == Added(es);
  }

  // -------------------------------------------------------------------------
  // Delivery outside the lock
  // -------------------------------------------------------------------------

  /** The lines in the order the front end receives them. */
  function Received<T>(extracted: seq<seq<T>>, delivered: seq<nat>): seq<T>
    requires forall i | 0 <= i < |delivered| :: delivered[i] < |extracted|
  {
    if delivered == [] then []
    else Received(extracted, delivered[..|delivered| - 1]) + extracted[delivered[|delivered| - 1]]
  }

  /** How many of the first `n` batches are delivered, as a bag of lines. */
  function Bag<T>(extracted: seq<seq<T>>, ks: set<nat>): multiset<T>
    requires forall k | k in ks :: k < |extracted|
    decreases |extracted|
  {
    if extracted == [] then multiset{}
    else
      var n := |extracted| - 1;
      Bag(extracted[..n], ks - {n}) + if n in ks then multiset(extracted[n]) else multiset{}
  }

  lemma {:induction false} BagInsert<T>(extracted: seq<seq<T>>, ks: set<nat>, k: nat)
    requires k !in ks && k < |extracted|
    requires forall j | j in ks :: j < |extracted|
    ensures Bag(extracted, ks + {k}) == Bag(extracted, ks) + multiset(extracted[k])
    decreases |extracted|
  {
    var n := |extracted| - 1;
    if k == n {
      assert (ks + {k}) - {n} == ks == ks - {n};
    } else {
      assert (ks + {k}) - {n} == (ks - {n}) + {k};
      BagInsert(extracted[..n], ks - {n}, k);
    }
  }

  lemma {:induction false} BagOfAll<T>(extracted: seq<seq<T>>, ks: set<nat>)
    requires forall k: nat :: k in ks <==> k < |extracted|
    ensures Bag(extracted, ks) == multiset(Concat(extracted))
    decreases |extracted|
  {
    if extracted != [] {
      var n := |extracted| - 1;
      BagOfAll(extracted[..n], ks - {n});
      ConcatSnoc(extracted[..n], extracted[n]);
      assert extracted == extracted[..n] + [extracted[n]];
    }
  }

  function Members(ks: seq<nat>): set<nat> {
    set k | k in ks
  }

  lemma {:induction false} ReceivedIsBag<T>(extracted: seq<seq<T>>, delivered: seq<nat>)
    requires Distinct(delivered)
    requires forall i | 0 <= i < |delivered| :: delivered[i] < |extracted|
    ensures multiset(Received(extracted, delivered)) == Bag(extracted, Members(delivered))
    decreases |delivered|
  {
    if delivered == [] {
      BagOfNone(extracted);
      assert Members(delivered) == {};
    } else {
      var m := |delivered| - 1;
      var rest, last := delivered[..m], delivered[m];
      ReceivedIsBag(extracted, rest);
      assert Members(delivered) == Members(rest) + {last} by {
        assert delivered == rest + [last];
      }
      assert last !in Members(rest);
      BagInsert(extracted, Members(rest), last);
    }
  }

  lemma {:induction false} BagOfNone<T>(extracted: seq<seq<T>>)
    ensures Bag(extracted, {}) == multiset{}
    decreases |extracted|
  {
    if extracted != [] {
      assert {} - {|extracted| - 1} == {};
      BagOfNone(extracted[..|extracted| - 1]);
    }
  }

  /** Once everything has left the lock and every holder has called `flush`, the
      front end has received each added line exactly as often as it was added. */
  lemma EveryLineIsDeliveredOnce<T>(es: seq<Event<T>>)
    requires var s := Run(Start<T>(), es);
             && s.core.armed == map[] && s.core.fired == {}
             && forall k | 0 <= k < |s.extracted| :: k in s.delivered
    ensures var s := Run(Start<T>(), es);
            && (forall i | 0 <= i < |s.delivered| :: s.delivered[i] < |s.extracted|)
            && multiset(Received(s.extracted, s.delivered)) == multiset(Added(es))
  {
    var s := Run(Start<T>(), es);
    RunIsSound(es);
    ExtractionKeepsOrder(es);
    ReceivedIsBag(s.extracted, s.delivered);
    forall k: nat ensures k in Members(s.delivered) <==> k < |s.extracted| {
      if k in Members(s.delivered) {
        var i :| 0 <= i < |s.delivered| && s.delivered[i] == k;
      }
    }
    BagOfAll(s.extracted, Members(s.delivered));
  }

  // ---- order of delivery ----

  /** Whenever a holder calls `flush` with a batch, all batches before it have been
      delivered. */
  ghost predicate InTurn<T(!new)>(es: seq<Event<T>>) {
    es != [] ==>
      && InTurn(es[..|es| - 1])
      && Waits(Run(Start<T>(), es[..|es| - 1]), es[|es| - 1])
  }

  ghost predicate Waits<T>(s: Sys<T>, e: Event<T>) {
    e.Deliver? && e.k < |s.extracted| && e.k !in s.delivered ==> forall j: nat | j < e.k :: j in s.delivered
  }

  predicate Sorted(ks: seq<nat>) {
    forall i | 0 <= i < |ks| :: ks[i] == i
  }

  lemma SortedSnoc(ks: seq<nat>, k: nat)
    requires k !in ks
    ensures Sorted(ks + [k]) <==> Sorted(ks) && forall j: nat | j < k :: j in ks
  {
    var more := ks + [k];
    if Sorted(more) {
      assert forall i | 0 <= i < |ks| :: more[i] == ks[i];
      forall j: nat | j < k ensures j in ks {
        assert more[|ks|] == k;
        assert ks[j] == j;
      }
    }
    if Sorted(ks) {
      SortedMembers(ks, k);
      SortedMembers(ks, |ks|);
    }
  }

  lemma SortedMembers(ks: seq<nat>, k: nat)
    requires Sorted(ks)
    ensures k in ks <==> k < |ks|
  {
    if k < |ks| {
      assert ks[k] == k;
    }
  }

  lemma {:induction false} InTurnIsSorted<T(!new)>(es: seq<Event<T>>)
    ensures InTurn(es) <==> Sorted(Run(Start<T>(), es).delivered)
  {
    if es != [] {
      var before, e := Run(Start<T>(), es[..|es| - 1]), es[|es| - 1];
      InTurnIsSorted(es[..|es| - 1]);
      if e.Deliver? && e.k < |before.extracted| && e.k !in before.delivered {
        SortedSnoc(before.delivered, e.k);
      }
    }
  }

  lemma {:induction false} ConcatPrefix<T>(parts: seq<seq<T>>, n: nat)
    requires n <= |parts|
    ensures Concat(parts[..n]) <= Concat(parts)
    decreases |parts|
  {
    if n == |parts| {
      assert parts[..n] == parts;
    } else {
      var k := |parts| - 1;
      ConcatPrefix(parts[..k], n);
      assert parts[..k][..n] == parts[..n] && parts == parts[..k] + [parts[k]];
      ConcatSnoc(parts[..k], parts[k]);
    }
  }

  lemma {:induction false} ReceivedInOrder<T>(extracted: seq<seq<T>>, delivered: seq<nat>)
    requires Sorted(delivered) && |delivered| <= |extracted|
    ensures Received(extracted, delivered) == Concat(extracted[..|delivered|])
  {
    if delivered != [] {
      var n := |delivered| - 1;
      ReceivedInOrder(extracted, delivered[..n]);
      assert extracted[..n + 1] == extracted[..n] + [extracted[n]];
      ConcatSnoc(extracted[..n], extracted[n]);
    }
  }

  /** The first line of batch `k` stands behind all lines of the batches before it. */
  lemma FirstLineOf<T>(extracted: seq<seq<T>>, k: nat)
    requires k < |extracted| && extracted[k] != []
    ensures |Concat(extracted[..k])| < |Concat(extracted)| && Concat(extracted)[|Concat(extracted[..k])|] == extracted[k][0]
  {
    ConcatPrefix(extracted, k + 1);
    assert extracted[..k + 1] == extracted[..k] + [extracted[k]];
    ConcatSnoc(extracted[..k], extracted[k]);
    assert Concat(extracted[..k + 1])[|Concat(extracted[..k])|] == extracted[k][0];
  }

  lemma LaterIsFurther<T>(extracted: seq<seq<T>>, n: nat, k: nat)
    requires n < k <= |extracted| && extracted[n] != []
    ensures |Concat(extracted[..n])| < |Concat(extracted[..k])|
  {
    FirstLineOf(extracted[..k], n);
    assert extracted[..k][..n] == extracted[..n] && extracted[..k][n] == extracted[n];
  }

  /** Batches of different lines, received in some order: what was received is the
      beginning of all lines exactly if the batches came one after the other. */
  lemma {:induction false} BeginningIsSorted<T>(extracted: seq<seq<T>>, delivered: seq<nat>, all: seq<T>)
    requires Concat(extracted) <= all && Distinct(all)
    requires forall k | 0 <= k < |extracted| :: extracted[k] != []
    requires forall i | 0 <= i < |delivered| :: delivered[i] < |extracted|
    requires Distinct(delivered) && Received(extracted, delivered) <= all
    ensures Sorted(delivered)
    decreases |delivered|
  {
    if delivered != [] {
      var n := |delivered| - 1;
      var k := delivered[n];
      BeginningIsSorted(extracted, delivered[..n], all);
      SortedFits(delivered[..n], |extracted|);
      ReceivedInOrder(extracted, delivered[..n]);
      NextIsNext(extracted, n, k, all);
    }
  }

  lemma SortedFits(ks: seq<nat>, n: nat)
    requires Sorted(ks) && forall i | 0 <= i < |ks| :: ks[i] < n
    ensures |ks| <= n
  {
    if ks != [] {
      assert ks[|ks| - 1] == |ks| - 1;
    }
  }

  lemma NextIsNext<T>(extracted: seq<seq<T>>, n: nat, k: nat, all: seq<T>)
    requires Concat(extracted) <= all && Distinct(all)
    requires forall k | 0 <= k < |extracted| :: extracted[k] != []
    requires n <= |extracted| && k < |extracted| && Concat(extracted[..n]) + extracted[k] <= all
    ensures k == n
  {
    var at, from := |Concat(extracted[..n])|, |Concat(extracted[..k])|;
    assert (Concat(extracted[..n]) + extracted[k])[at] == extracted[k][0];
    assert all[at] == extracted[k][0];
    FirstLineOf(extracted, k);
    assert all[from] == extracted[k][0];
    assert at == from;
    if n < k {
      LaterIsFurther(extracted, n, k);
    } else if k < n {
      LaterIsFurther(extracted, k, n);
    }
  }

  /** If each holder waits its turn, what the front end has received is at every moment
      the beginning of what was added, in the same order. */
  lemma InTurnKeepsOrder<T(!new)>(es: seq<Event<T>>)
    requires InTurn(es)
    ensures var s := Run(Start<T>(), es);
            (forall i | 0 <= i < |s.delivered| :: s.delivered[i] < |s.extracted|) && Received(s.extracted, s.delivered) <= Added(es)
  {
    var s := Run(Start<T>(), es);
    RunIsSound(es);
    ExtractionKeepsOrder(es);
    InTurnIsSorted(es);
    SortedFits(s.delivered, |s.extracted|);
    ReceivedInOrder(s.extracted, s.delivered);
    ConcatPrefix(s.extracted, |s.delivered|);
  }

  /** And that is needed: with lines that can be told apart, the front end has the
      beginning of what was added exactly if each holder waited its turn. */
  lemma DeliveryKeepsOrderExactly<T(!new)>(es: seq<Event<T>>)
    requires Distinct(Added(es))
    ensures var s := Run(Start<T>(), es);
            && (forall i | 0 <= i < |s.delivered| :: s.delivered[i] < |s.extracted|)
            && (Received(s.extracted, s.delivered) <= Added(es) <==> InTurn(es))
  {
    var s := Run(Start<T>(), es);
    RunIsSound(es);
    ExtractionKeepsOrder(es);
    InTurnIsSorted(es);
    if InTurn(es) {
      InTurnKeepsOrder(es);
    }
    if Received(s.extracted, s.delivered) <= Added(es) {
      BeginningIsSorted(s.extracted, s.delivered, Added(es));
    }
  }

  /** The order is kept only up to the lock: two batches extracted in order can
      reach `flush` in the other order. */
  lemma DeliveryCanReorder()
    ensures exists es: seq<Event<int>> ::
              var s := Run(Start<int>(), es);
              && s.core.pending == [] && s.extracted == [[1], [2]] && s.delivered == [1, 0]
              && Added(es) == [1, 2] && Received(s.extracted, s.delivered) == [2, 1]
  {
    AfterSteps(10);
    assert Steps()[..10] == Steps();
    ReceivedReordered();
  }

  /** Two timers go off, each 40 ms after its line, and the second batch is delivered
      first. */
  function Steps(): (es: seq<Event<int>>)
    ensures |es| == 10
  {
    [Add(1), Wait(40), Fire(0), Callback(0), Add(2), Wait(40), Fire(1), Callback(1), Deliver(1), Deliver(0)]
  }

  /** The states of that run. */
  function Reordering(i: nat): Sys<int> {
    match i
    case 0 => Start()
    case 1 => Sys(Core([1], Some(0), map[0 := 40], {}, 1, 0), [], [], 0)
    case 2 => Sys(Core([1], Some(0), map[0 := 40], {}, 1, 40), [], [], 0)
    case 3 => Sys(Core([1], Some(0), map[], {0}, 1, 40), [], [], 0)
    case 4 => Sys(Core([], None, map[], {}, 1, 40), [[1]], [], 0)
    case 5 => Sys(Core([2], Some(1), map[1 := 80], {}, 2, 40), [[1]], [], 40)
    case 6 => Sys(Core([2], Some(1), map[1 := 80], {}, 2, 80), [[1]], [], 40)
    case 7 => Sys(Core([2], Some(1), map[], {1}, 2, 80), [[1]], [], 40)
    case 8 => Sys(Core([], None, map[], {}, 2, 80), [[1], [2]], [], 40)
    case 9 => Sys(Core([], None, map[], {}, 2, 80), [[1], [2]], [1], 40)
    case _ => Sys(Core([], None, map[], {}, 2, 80), [[1], [2]], [1, 0], 40)
  }

  lemma FirstSteps(i: nat)
    requires i < 5
    ensures Step(Reordering(i), Steps()[i]) == Reordering(i + 1)
  {
  }

  lemma LastSteps(i: nat)
    requires 5 <= i < 10
    ensures Step(Reordering(i), Steps()[i]) == Reordering(i + 1)
  {
  }

  lemma {:induction false} AfterSteps(n: nat)
    requires n <= 10
    ensures Run(Start<int>(), Steps()[..n]) == Reordering(n)
    ensures Added(Steps()[..n]) == AddedBy(n)
  {
    if n > 0 {
      var before, e := Steps()[..n - 1], Steps()[n - 1];
      AfterSteps(n - 1);
      if n <= 5 {
        FirstSteps(n - 1);
      } else {
        LastSteps(n - 1);
      }
      RunSnoc(Start<int>(), before, e);
      AddedOnTheWay(n);
      assert Steps()[..n] == before + [e];
    }
  }

  function AddedBy(n: nat): seq<int> {
    if n < 1 then [] else if n < 5 then [1] else [1, 2]
  }

  lemma AddedOnTheWay(n: nat)
    requires 0 < n <= 10
    ensures AddedBy(n) == AddedBy(n - 1) + if Steps()[n - 1].Add? then [Steps()[n - 1].item] else []
  {
  }

  lemma ReceivedReordered()
    ensures Received([[1], [2]], [1, 0]) == [2, 1]
  {
    var d: seq<nat> := [1, 0];
    var e: seq<nat> := [1];
    assert d[..1] == e && e[..0] == [];
    assert Received([[1], [2]], e) == [2];
  }

  lemma RunSnoc<T>(s: Sys<T>, es: seq<Event<T>>, e: Event<T>)
    ensures Run(s, es + [e]) == Step(Run(s, es), e)
    ensures Added(es + [e]) == Added(es) + if e.Add? then [e.item] else []
  {
    assert (es + [e])[..|es + [e]| - 1] == es;
  }
}
