/**
 * `downloadFileToResumable` (backend/browser_api.go): a download into `dest`
 * over a `.part` file that survives pauses and crashes and is continued with a
 * Range request (section 14 of RFC 9110).
 *
 * The remote content is fixed. Everything else about the world is an input: a
 * call is given, for each of its attempts, what happens during it.
 */
module ResumableDownload {
  import opened Common

  type Bytes = seq<bv8>

  const ATTEMPTS: nat := 3

  /** How reading the body ends. */
  datatype End =
    | Eof            // the end of the body, if all of it was read, else a broken connection
    | Cut            // the connection breaks or is cancelled
    | WriteFailed    // writing the chunk fails after `kept` bytes
    | Crash          // the launcher dies after `kept` bytes of the chunk

  /** What the world does during one attempt. `ranges` is whether the server honours
      a Range header; `chunks` are the sizes of what it delivers at a time, the last of
      which may be stored only up to `kept` bytes. */
  datatype Attempt =
    | NetError
    | TooMany
    | OtherStatus
    | Reply(ranges: bool, canOpen: bool, chunks: seq<nat>, kept: nat, end: End, canRename: bool, crashBeforeRename: bool)

  /** The attempts of a call and whether its context is found cancelled before an
      attempt, or after an error in one. */
  datatype World = World(attempt: nat -> Attempt, cancelledBefore: nat -> bool, cancelledAfter: nat -> bool)

  datatype Result = Done | Error | Cancelled | Crashed

  datatype Disk = Disk(dest: Option<Bytes>, part: Option<Bytes>)

  // -------------------------------------------------------------------------
  // One attempt, on values
  // -------------------------------------------------------------------------

  /** Writing `data` at `off` into a file that is at least that long. */
  function Overwrite(file: Bytes, off: nat, data: Bytes): (r: Bytes)
    requires off <= |file|
  {
    file[..off] + data + if off + |data| < |file| then file[off + |data|..] else []
  }

  /** How many bytes the chunks bring, when `limit` are left in the body. */
  function Taken(chunks: seq<nat>, limit: nat): (n: nat)
    ensures n <= limit
  {
    if chunks == [] then 0
    else
      var n := if chunks[0] <= limit then chunks[0] else limit;
      n + Taken(chunks[1..], limit - n)
  }

  /** How many bytes of the body reach the file: all chunks, or the last one only
      up to `kept` when the write fails or the launcher dies in it. */
  function Stored(a: Attempt, limit: nat): (n: nat)
    requires a.Reply?
    ensures n <= limit
  {
    var all := Taken(a.chunks, limit);
    if (a.end.WriteFailed? || a.end.Crash?) && a.chunks != [] then
      var before := Taken(a.chunks[..|a.chunks| - 1], limit);
      if before + a.kept < all then before + a.kept else all
    else all
  }

  /** What an attempt comes to: the call is over, or the next attempt starts from `resume`. */
  datatype Step = Over(disk: Disk, result: Result) | Again(disk: Disk, resume: nat)

  /** The server's answer to the request of this attempt: it knows ranges (206, or
      416 when nothing is left) or sends the whole content (200). */
  function Answered(d: Disk, resume: nat, remote: Bytes, a: Attempt, cancelled: bool): Step
    requires resume > 0 ==> d.part.Some? && resume <= |d.part.value|
    requires a.Reply?
  {
    if a.ranges && resume > 0 then
      if resume >= |remote| then Over(d, Error)
      else Received(d, resume, remote[resume..], a, cancelled)
    else Received(d, 0, remote, a, cancelled)
  }

  /** The body of the answer goes to the `.part` file from `from` on. */
  function Received(d: Disk, from: nat, body: Bytes, a: Attempt, cancelled: bool): Step
    requires from > 0 ==> d.part.Some? && from <= |d.part.value|
    requires a.Reply?
  {
    if !a.canOpen then Over(d, Error)
    else
      var start := if from == 0 then [] else d.part.value;
      var n := Stored(a, |body|);
      var file := Overwrite(start, from, body[..n]);
      var now := d.(part := Some(file));
      if a.end.Crash? then Over(now, Crashed)
      else if a.end.Eof? && n == |body| then
        if a.crashBeforeRename then Over(now, Crashed)
        else if !a.canRename then Over(now, Error)
        else Over(Disk(Some(file), None), Done)
      else if cancelled then Over(now, Cancelled)
      else Again(now, from)
  }

  /** Attempts `k` and later. */
  function Attempts(d: Disk, resume: nat, remote: Bytes, w: World, k: nat): (Disk, Result)
    requires resume > 0 ==> d.part.Some? && resume <= |d.part.value|
    requires k <= ATTEMPTS
    decreases ATTEMPTS - k
  {
    if k == ATTEMPTS then (d, Error)
    else if w.cancelledBefore(k) then (d, Cancelled)
    else match w.attempt(k)
      case NetError => Attempts(d, resume, remote, w, k + 1)
      case TooMany => Attempts(d, resume, remote, w, k + 1)
      case OtherStatus => (d, Error)
      case Reply(_, _, _, _, _, _, _) =>
        match Answered(d, resume, remote, w.attempt(k), w.cancelledAfter(k))
        case Over(d', r) => (d', r)
        case Again(d', resume') => AgainIsSound(d, resume, remote, w.attempt(k), w.cancelledAfter(k)); Attempts(d', resume', remote, w, k + 1)
  }

  /** A whole call. */
  function Download(d: Disk, remote: Bytes, w: World): (Disk, Result) {
    if d.dest.Some? && |d.dest.value| > 0 then (d, Done)
    else Attempts(d, if d.part.Some? then |d.part.value| else 0, remote, w, 0)
  }

  lemma AgainIsSound(d: Disk, resume: nat, remote: Bytes, a: Attempt, cancelled: bool)
    requires resume > 0 ==> d.part.Some? && resume <= |d.part.value|
    requires a.Reply? && Answered(d, resume, remote, a, cancelled).Again?
    ensures var s := Answered(d, resume, remote, a, cancelled);
            s.resume > 0 ==> s.disk.part.Some? && s.resume <= |s.disk.part.value|
  {
  }

  // -------------------------------------------------------------------------
  // Safety
  // -------------------------------------------------------------------------

  /** The `.part` file is absent or a prefix of the remote content, `dest` is absent
      or all of it. */
  predicate Good(d: Disk, remote: Bytes) {
    && (d.part.Some? ==> d.part.value <= remote)
    && (d.dest.Some? ==> d.dest.value == remote)
  }

  /** Bytes of the remote content, written where they belong, keep a prefix a prefix
      even if the offset is an old one and the file is longer. */
  lemma OverwriteKeepsPrefix(file: Bytes, off: nat, remote: Bytes, n: nat)
    requires file <= remote && off <= |file| && off + n <= |remote|
    ensures Overwrite(file, off, remote[off..][..n]) == remote[..if |file| < off + n then off + n else |file|]
  {
    var data := remote[off..][..n];
    assert data == remote[off..off + n];
    assert file == remote[..|file|];
  }

  lemma AnsweredIsGood(d: Disk, resume: nat, remote: Bytes, a: Attempt, cancelled: bool)
    requires Good(d, remote)
    requires resume > 0 ==> d.part.Some? && resume <= |d.part.value|
    requires a.Reply?
    ensures var s := Answered(d, resume, remote, a, cancelled);
            Good(s.disk, remote) && (s.Over? && s.result == Done ==> s.disk.dest == Some(remote))
  {
    if a.ranges && resume > 0 {
      if resume < |remote| {
        ReceivedIsGood(d, resume, remote, a, cancelled);
      }
    } else {
      assert remote[0..] == remote;
      ReceivedIsGood(d, 0, remote, a, cancelled);
    }
  }

  lemma ReceivedIsGood(d: Disk, from: nat, remote: Bytes, a: Attempt, cancelled: bool)
    requires Good(d, remote) && from <= |remote|
    requires from > 0 ==> d.part.Some? && from <= |d.part.value|
    requires a.Reply?
    ensures var s := Received(d, from, remote[from..], a, cancelled);
            Good(s.disk, remote) && (s.Over? && s.result == Done ==> s.disk.dest == Some(remote))
  {
    var start := if from == 0 then [] else d.part.value;
    var n := Stored(a, |remote[from..]|);
    var m := if |start| < from + n then from + n else |start|;
    OverwriteKeepsPrefix(start, from, remote, n);
    assert Overwrite(start, from, remote[from..][..n]) == remote[..m];
    assert n == |remote| - from ==> m == |remote| && remote[..m] == remote;
  }

  /** What a call may leave behind. */
  predicate GoodEnd(e: (Disk, Result), remote: Bytes) {
    Good(e.0, remote) && (e.1 == Done ==> e.0.dest == Some(remote))
  }

  ghost predicate GoodFrom(d: Disk, resume: nat, remote: Bytes, w: World, k: nat)
    requires k <= ATTEMPTS
    requires resume > 0 ==> d.part.Some? && resume <= |d.part.value|
  {
    GoodEnd(Attempts(d, resume, remote, w, k), remote)
  }

  lemma {:induction false} AttemptsAreGood(d: Disk, resume: nat, remote: Bytes, w: World, k: nat)
    requires Good(d, remote) && k <= ATTEMPTS
    requires resume > 0 ==> d.part.Some? && resume <= |d.part.value|
    ensures GoodFrom(d, resume, remote, w, k)
    decreases ATTEMPTS - k
  {
    if k < ATTEMPTS {
      var s := OneAttempt(d, resume, remote, w, k);
      if s.Again? {
        AttemptsAreGood(s.disk, s.resume, remote, w, k + 1);
      }
    }
  }

  lemma OneAttempt(d: Disk, resume: nat, remote: Bytes, w: World, k: nat) returns (s: Step)
    requires Good(d, remote) && k < ATTEMPTS
    requires resume > 0 ==> d.part.Some? && resume <= |d.part.value|
    ensures Good(s.disk, remote) && (s.Again? && s.resume > 0 ==> s.disk.part.Some? && s.resume <= |s.disk.part.value|)
    ensures s.Over? ==> GoodFrom(d, resume, remote, w, k)
    ensures s.Again? && GoodFrom(s.disk, s.resume, remote, w, k + 1) ==> GoodFrom(d, resume, remote, w, k)
  {
    if w.cancelledBefore(k) || w.attempt(k).OtherStatus? {
      s := Over(d, Error);
    } else if w.attempt(k).Reply? {
      s := Answered(d, resume, remote, w.attempt(k), w.cancelledAfter(k));
      AnsweredIsGood(d, resume, remote, w.attempt(k), w.cancelledAfter(k));
      if s.Again? {
        AgainIsSound(d, resume, remote, w.attempt(k), w.cancelledAfter(k));
      }
    } else {
      s := Again(d, resume);
    }
  }

  /** One call after the other, each cut off or not. */
  function Calls(d: Disk, remote: Bytes, ws: seq<World>): Disk {
    if ws == [] then d else Download(Calls(d, remote, ws[..|ws| - 1]), remote, ws[|ws| - 1]).0
  }

  /** After any number of calls, however each of them went, and with servers that
      honour or ignore ranges: the `.part` file is a prefix of the remote content,
      `dest` is absent or complete, and a call that reports success leaves the
      complete file. */
  lemma {:induction false} EveryRunIsSafe(d: Disk, remote: Bytes, ws: seq<World>, w: World)
    requires Good(d, remote)
    ensures Good(Calls(d, remote, ws), remote)
    ensures var (d', r) := Download(Calls(d, remote, ws), remote, w);
            r == Done ==> d'.dest == Some(remote)
  {
    if ws != [] {
      EveryRunIsSafe(d, remote, ws[..|ws| - 1], ws[|ws| - 1]);
      var before := Calls(d, remote, ws[..|ws| - 1]);
      AttemptsAreGood(before, if before.part.Some? then |before.part.value| else 0, remote, ws[|ws| - 1], 0);
    }
    var now := Calls(d, remote, ws);
    AttemptsAreGood(now, if now.part.Some? then |now.part.value| else 0, remote, w, 0);
  }

  // -------------------------------------------------------------------------
  // What was received is kept
  // -------------------------------------------------------------------------

  function Sum(ns: seq<nat>): nat {
    if ns == [] then 0 else Sum(ns[..|ns| - 1]) + ns[|ns| - 1]
  }

  function Min(x: nat, y: nat): nat {
    if x <= y then x else y
  }

  function Max(x: nat, y: nat): nat {
    if x <= y then y else x
  }

  lemma {:induction false} TakenIsSum(chunks: seq<nat>, limit: nat)
    ensures Taken(chunks, limit) == Min(Sum(chunks), limit)
  {
    if chunks != [] {
      TakenSnoc(chunks, limit);
      TakenIsSum(chunks[..|chunks| - 1], limit);
    }
  }

  /** How many bytes reach the file: all that the chunks bring, or, when writing the last
      one fails or the launcher dies in it, `kept` bytes of that one. */
  lemma StoredExactly(a: Attempt, limit: nat)
    requires a.Reply?
    ensures Stored(a, limit)
         == if (a.end.WriteFailed? || a.end.Crash?) && a.chunks != []
            then Min(Sum(a.chunks[..|a.chunks| - 1]) + a.kept, Min(Sum(a.chunks), limit))
            else Min(Sum(a.chunks), limit)
  {
    TakenIsSum(a.chunks, limit);
    if a.chunks != [] {
      TakenIsSum(a.chunks[..|a.chunks| - 1], limit);
    }
  }

  /** Where the answer to a request for the rest behind `resume` begins. */
  function Offset(a: Attempt, resume: nat): nat
    requires a.Reply?
  {
    if a.ranges && resume > 0 then resume else 0
  }

  /** One reply on a disk as any run leaves it. A refused request and a file that cannot
      be opened change nothing. Else the `.part` file reaches as far as it did or as the
      new bytes go, whichever is more, unless the reply starts from nothing. */
  lemma ReplyExactly(d: Disk, resume: nat, remote: Bytes, a: Attempt, cancelled: bool)
    requires Good(d, remote) && a.Reply?
    requires resume > 0 ==> d.part.Some? && resume <= |d.part.value|
    ensures var from, s := Offset(a, resume), Answered(d, resume, remote, a, cancelled);
            if !a.canOpen || (from > 0 && from >= |remote|) then s == Over(d, Error)
            else
              var n := Stored(a, |remote| - from);
              var reach := if from == 0 then n else Max(|d.part.value|, from + n);
              var all := a.end.Eof? && from + n == |remote|;
              if all && !a.crashBeforeRename && a.canRename then s == Over(Disk(Some(remote), None), Done)
              else
                && reach <= |remote| && s.disk == Disk(d.dest, Some(remote[..reach]))
                && s == (if a.end.Crash? || (all && a.crashBeforeRename) then Over(s.disk, Crashed)
                         else if all then Over(s.disk, Error)
                         else if cancelled then Over(s.disk, Cancelled)
                         else Again(s.disk, from))
  {
    var from := Offset(a, resume);
    if a.canOpen && !(from > 0 && from >= |remote|) {
      assert remote[0..] == remote;
      BodyExactly(d, from, remote, a, cancelled);
    }
  }

  lemma BodyExactly(d: Disk, from: nat, remote: Bytes, a: Attempt, cancelled: bool)
    requires Good(d, remote) && a.Reply? && a.canOpen && from <= |remote|
    requires from > 0 ==> d.part.Some? && from <= |d.part.value|
    ensures var s, n := Received(d, from, remote[from..], a, cancelled), Stored(a, |remote| - from);
            var reach := if from == 0 then n else Max(|d.part.value|, from + n);
            var all := a.end.Eof? && from + n == |remote|;
            && reach <= |remote|
            && s == (if a.end.Crash? || (all && a.crashBeforeRename) then Over(d.(part := Some(remote[..reach])), Crashed)
                     else if all && a.canRename then Over(Disk(Some(remote), None), Done)
                     else if all then Over(d.(part := Some(remote[..reach])), Error)
                     else if cancelled then Over(d.(part := Some(remote[..reach])), Cancelled)
                     else Again(d.(part := Some(remote[..reach])), from))
  {
    var start := if from == 0 then [] else d.part.value;
    var n := Stored(a, |remote[from..]|);
    assert |start| <= |remote|;
    OverwriteKeepsPrefix(start, from, remote, n);
    assert remote[..|remote|] == remote;
  }

  /** With a server that honours ranges, what is on disk when a call begins is not lost in
      it: the `.part` file does not get shorter until all is there. */
  lemma {:induction false} AttemptsKeepPart(d: Disk, resume: nat, remote: Bytes, w: World, k: nat, size: nat)
    requires Good(d, remote) && HonoursRanges(w) && k <= ATTEMPTS
    requires resume > 0 ==> d.part.Some? && resume <= |d.part.value|
    requires size > 0 ==> resume > 0 && size <= |d.part.value|
    ensures var end := Attempts(d, resume, remote, w, k).0;
            end.dest.Some? || (size > 0 ==> end.part.Some? && size <= |end.part.value|)
    decreases ATTEMPTS - k
  {
    if k < ATTEMPTS && !w.cancelledBefore(k) && !w.attempt(k).OtherStatus? {
      if w.attempt(k).Reply? {
        KeepsPart(d, resume, remote, w, k, size);
      } else {
        AttemptsKeepPart(d, resume, remote, w, k + 1, size);
      }
    }
  }

  lemma KeepsPart(d: Disk, resume: nat, remote: Bytes, w: World, k: nat, size: nat)
    requires Good(d, remote) && HonoursRanges(w) && k < ATTEMPTS && !w.cancelledBefore(k) && w.attempt(k).Reply?
    requires resume > 0 ==> d.part.Some? && resume <= |d.part.value|
    requires size > 0 ==> resume > 0 && size <= |d.part.value|
    ensures var end := Attempts(d, resume, remote, w, k).0;
            end.dest.Some? || (size > 0 ==> end.part.Some? && size <= |end.part.value|)
    decreases ATTEMPTS - k, 0
  {
    var s := Answered(d, resume, remote, w.attempt(k), w.cancelledAfter(k));
    ReplyExactly(d, resume, remote, w.attempt(k), w.cancelledAfter(k));
    if s.Again? {
      AnsweredIsGood(d, resume, remote, w.attempt(k), w.cancelledAfter(k));
      AgainIsSound(d, resume, remote, w.attempt(k), w.cancelledAfter(k));
      AttemptsKeepPart(s.disk, s.resume, remote, w, k + 1, size);
    }
  }

  /** Over any calls to servers that honour ranges, paused, broken or crashed anywhere: the
      `.part` file never gets shorter until `dest` is there, and then nothing changes. */
  lemma {:induction false} PartNeverShrinks(d: Disk, remote: Bytes, ws: seq<World>)
    requires Good(d, remote) && forall i | 0 <= i < |ws| :: HonoursRanges(ws[i])
    ensures var end := Calls(d, remote, ws);
            && (end.dest.Some? || d.part == None || (end.part.Some? && |d.part.value| <= |end.part.value|))
            && (d.dest.Some? && d.dest.value != [] ==> end == d)
  {
    if ws != [] {
      var n := |ws| - 1;
      var before := Calls(d, remote, ws[..n]);
      PartNeverShrinks(d, remote, ws[..n]);
      EveryRunIsSafe(d, remote, ws[..n], ws[n]);
      var size := if before.part.Some? then |before.part.value| else 0;
      AttemptsKeepPart(before, size, remote, ws[n], 0, size);
      CallKeepsDest(before, remote, ws[n]);
    }
  }

  lemma CallKeepsDest(d: Disk, remote: Bytes, w: World)
    requires Good(d, remote)
    ensures d.dest.Some? ==> Download(d, remote, w).0.dest.Some?
    ensures d.part.Some? ==> Download(d, remote, w).0.dest.Some? || Download(d, remote, w).0.part.Some?
  {
    AttemptsKeepSome(d, if d.part.Some? then |d.part.value| else 0, remote, w, 0);
  }

  lemma {:induction false} AttemptsKeepSome(d: Disk, resume: nat, remote: Bytes, w: World, k: nat)
    requires Good(d, remote) && k <= ATTEMPTS
    requires resume > 0 ==> d.part.Some? && resume <= |d.part.value|
    ensures var end := Attempts(d, resume, remote, w, k).0;
            (d.dest.Some? ==> end.dest.Some?) && (d.part.Some? ==> end.dest.Some? || end.part.Some?)
    decreases ATTEMPTS - k
  {
    if k < ATTEMPTS && !w.cancelledBefore(k) && !w.attempt(k).OtherStatus? {
      if w.attempt(k).Reply? {
        var s := Answered(d, resume, remote, w.attempt(k), w.cancelledAfter(k));
        ReplyExactly(d, resume, remote, w.attempt(k), w.cancelledAfter(k));
        if s.Again? {
          AnsweredIsGood(d, resume, remote, w.attempt(k), w.cancelledAfter(k));
          AgainIsSound(d, resume, remote, w.attempt(k), w.cancelledAfter(k));
          AttemptsKeepSome(s.disk, s.resume, remote, w, k + 1);
        }
      } else {
        AttemptsKeepSome(d, resume, remote, w, k + 1);
      }
    }
  }

  /** A pause after `n` bytes, and the next call asks for the rest behind them. */
  lemma PausedCallContinues(d: Disk, remote: Bytes, w: World, n: nat)
    requires Good(d, remote) && d.dest == None && !w.cancelledBefore(0) && w.cancelledAfter(0)
    requires var a, have := w.attempt(0), if d.part.Some? then |d.part.value| else 0;
             && a.Reply? && a.ranges && a.canOpen && a.end.Cut? && Sum(a.chunks) == n && have + n < |remote|
    ensures var have := if d.part.Some? then |d.part.value| else 0;
            Download(d, remote, w) == (Disk(None, Some(remote[..have + n])), Cancelled)
  {
    var a, have := w.attempt(0), if d.part.Some? then |d.part.value| else 0;
    StoredExactly(a, |remote| - have);
    ReplyExactly(d, have, remote, a, true);
  }

  /** As long as no content comes, nothing changes: the call goes on for three attempts,
      unless it is cancelled or another status than 429 comes. */
  lemma NothingReceived(d: Disk, remote: Bytes, w: World, k: nat)
    requires (d.dest == None || d.dest == Some([])) && k <= 3
    requires forall i | 0 <= i < k :: !w.cancelledBefore(i) && (w.attempt(i).NetError? || w.attempt(i).TooMany?)
    requires k < 3 ==> w.cancelledBefore(k) || w.attempt(k).OtherStatus?
    ensures Download(d, remote, w) == (d, if k < 3 && w.cancelledBefore(k) then Cancelled else Error)
  {
    NothingFrom(d, if d.part.Some? then |d.part.value| else 0, remote, w, 0, k);
  }

  lemma {:induction false} NothingFrom(d: Disk, resume: nat, remote: Bytes, w: World, j: nat, k: nat)
    requires j <= k <= 3 && (resume > 0 ==> d.part.Some? && resume <= |d.part.value|)
    requires forall i | j <= i < k :: !w.cancelledBefore(i) && (w.attempt(i).NetError? || w.attempt(i).TooMany?)
    requires k < 3 ==> w.cancelledBefore(k) || w.attempt(k).OtherStatus?
    ensures Attempts(d, resume, remote, w, j) == (d, if k < 3 && w.cancelledBefore(k) then Cancelled else Error)
    decreases k - j
  {
    if j < k {
      NothingFrom(d, resume, remote, w, j + 1, k);
    }
  }

  /** Within one call the offset is not moved: a call that begins without a `.part` file
      starts over at every retry, and what came before is lost. */
  lemma RetryStartsOver(remote: Bytes)
    requires |remote| > 1
    ensures exists w :: HonoursRanges(w) && Download(Disk(None, None), remote, w) == (Disk(None, Some(remote[..1])), Cancelled)
                        && w.attempt(0).Reply? && Sum(w.attempt(0).chunks) == |remote| - 1
  {
    var a0 := Reply(true, true, [|remote| - 1], 0, Cut, true, false);
    var a1 := Reply(true, true, [1], 0, Cut, true, false);
    var w := World(k => if k == 0 then a0 else a1, _ => false, k => k == 1);
    var d := Disk(None, None);
    OneChunk(a0, |remote|);
    OneChunk(a1, |remote|);
    ReplyExactly(d, 0, remote, a0, false);
    var d1 := d.(part := Some(remote[..|remote| - 1]));
    ReplyExactly(d1, 0, remote, a1, true);
    assert Attempts(d1, 0, remote, w, 1) == (Disk(None, Some(remote[..1])), Cancelled);
    assert Attempts(d, 0, remote, w, 0) == Attempts(d1, 0, remote, w, 1);
    assert HonoursRanges(w);
  }

  lemma OneChunk(a: Attempt, limit: nat)
    requires a.Reply? && |a.chunks| == 1 && a.end.Cut? && a.chunks[0] <= limit
    ensures Stored(a, limit) == a.chunks[0] == Sum(a.chunks)
  {
    StoredExactly(a, limit);
    assert a.chunks[..0] == [];
  }

  // -------------------------------------------------------------------------
  // When a download can succeed
  // -------------------------------------------------------------------------

  ghost predicate HonoursRanges(w: World) {
    forall k :: w.attempt(k).Reply? ==> w.attempt(k).ranges
  }

  /** A `.part` file that is already complete asks for an empty range: a server that
      honours ranges refuses (416), so no call ever succeeds or changes anything. */
  lemma {:induction false} CompletePartIsStuck(d: Disk, remote: Bytes, ws: seq<World>)
    requires d == Disk(None, Some(remote)) && remote != []
    requires forall i | 0 <= i < |ws| :: HonoursRanges(ws[i])
    ensures Calls(d, remote, ws) == d
    ensures forall w | HonoursRanges(w) :: Download(d, remote, w).0 == d && Download(d, remote, w).1 != Done
  {
    forall w | HonoursRanges(w) ensures Download(d, remote, w).0 == d && Download(d, remote, w).1 != Done {
      StuckAttempts(d, remote, w, 0);
    }
    if ws != [] {
      CompletePartIsStuck(d, remote, ws[..|ws| - 1]);
    }
  }

  lemma {:induction false} StuckAttempts(d: Disk, remote: Bytes, w: World, k: nat)
    requires d.part == Some(remote) && remote != [] && HonoursRanges(w) && k <= ATTEMPTS
    ensures Attempts(d, |remote|, remote, w, k).0 == d && Attempts(d, |remote|, remote, w, k).1 != Done
    decreases ATTEMPTS - k
  {
    if k < ATTEMPTS && !w.cancelledBefore(k) && (w.attempt(k).NetError? || w.attempt(k).TooMany?) {
      StuckAttempts(d, remote, w, k + 1);
    }
  }

  /** Nothing goes wrong in this attempt, with a server of either kind. */
  predicate Delivers(a: Attempt, remote: Bytes) {
    && a.Reply? && a.canOpen && a.canRename && !a.crashBeforeRename
    && a.end.Eof? && forall n | 0 <= n <= |remote| :: Taken(a.chunks, n) == n
  }

  /** The attempt fails in a way that is tried again. */
  predicate Transient(a: Attempt) {
    a.NetError? || a.TooMany? || (a.Reply? && a.canOpen && (a.end.Cut? || a.end.WriteFailed?))
  }

  /** From attempt `j` on there are only such failures, until attempt `k` delivers. */
  ghost predicate DeliversAt(w: World, remote: Bytes, j: nat, k: nat) {
    && j <= k < 3 && !w.cancelledBefore(k) && Delivers(w.attempt(k), remote)
    && forall i | j <= i < k :: Transient(w.attempt(i)) && !w.cancelledBefore(i) && !w.cancelledAfter(i)
  }

  /** The first attempt from `j` on that the server answers with content. */
  function FirstReply(w: World, j: nat, k: nat): (i: nat)
    requires j <= k
    ensures j <= i <= k
    decreases k - j
  {
    if j == k || w.attempt(j).Reply? then j else FirstReply(w, j + 1, k)
  }

  lemma {:induction false} AttemptsDeliver(d: Disk, resume: nat, remote: Bytes, w: World, j: nat, k: nat)
    requires Good(d, remote) && remote != [] && DeliversAt(w, remote, j, k)
    requires resume > 0 ==> d.part.Some? && resume <= |d.part.value|
    ensures Attempts(d, resume, remote, w, j).1 == Done <==> resume < |remote| || !w.attempt(FirstReply(w, j, k)).ranges
    decreases k - j
  {
    var a := w.attempt(j);
    if j == k {
      LastDelivers(d, resume, remote, w, j);
    } else if !a.Reply? {
      AttemptsDeliver(d, resume, remote, w, j + 1, k);
      NoReply(d, resume, remote, w, j);
    } else if a.ranges && resume >= |remote| {
      Refused(d, resume, remote, w, j);
    } else {
      var s := CutReply(d, resume, remote, w, j);
      AttemptsDeliver(s.disk, s.resume, remote, w, j + 1, k);
    }
  }

  lemma NoReply(d: Disk, resume: nat, remote: Bytes, w: World, j: nat)
    requires j < ATTEMPTS && !w.cancelledBefore(j) && (w.attempt(j).NetError? || w.attempt(j).TooMany?)
    requires resume > 0 ==> d.part.Some? && resume <= |d.part.value|
    ensures Attempts(d, resume, remote, w, j) == Attempts(d, resume, remote, w, j + 1)
  {
  }

  lemma Refused(d: Disk, resume: nat, remote: Bytes, w: World, j: nat)
    requires j < ATTEMPTS && !w.cancelledBefore(j) && w.attempt(j).Reply? && w.attempt(j).ranges && resume >= |remote| > 0
    requires d.part.Some? && resume <= |d.part.value|
    ensures Attempts(d, resume, remote, w, j) == (d, Error)
  {
  }

  lemma LastDelivers(d: Disk, resume: nat, remote: Bytes, w: World, k: nat)
    requires Good(d, remote) && remote != [] && DeliversAt(w, remote, k, k)
    requires resume > 0 ==> d.part.Some? && resume <= |d.part.value|
    ensures Attempts(d, resume, remote, w, k).1 == Done <==> resume < |remote| || !w.attempt(k).ranges
  {
    var a := w.attempt(k);
    var from := if a.ranges then resume else 0;
    if from < |remote| {
      assert from == 0 ==> remote[from..] == remote;
      assert Stored(a, |remote[from..]|) == |remote[from..]|;
    }
  }

  lemma CutReply(d: Disk, resume: nat, remote: Bytes, w: World, j: nat) returns (s: Step)
    requires Good(d, remote) && j < ATTEMPTS && !w.cancelledBefore(j) && !w.cancelledAfter(j)
    requires w.attempt(j).Reply? && Transient(w.attempt(j)) && !(w.attempt(j).ranges && resume >= |remote|) && remote != []
    requires resume > 0 ==> d.part.Some? && resume <= |d.part.value|
    ensures s.Again? && Good(s.disk, remote) && s.resume < |remote|
    ensures s.resume > 0 ==> s.disk.part.Some? && s.resume <= |s.disk.part.value|
    ensures Attempts(d, resume, remote, w, j) == Attempts(s.disk, s.resume, remote, w, j + 1)
  {
    s := Answered(d, resume, remote, w.attempt(j), w.cancelledAfter(j));
    AnsweredIsGood(d, resume, remote, w.attempt(j), w.cancelledAfter(j));
    AgainIsSound(d, resume, remote, w.attempt(j), w.cancelledAfter(j));
  }

  /** A call in which some attempt meets no trouble, after failures that are tried
      again or none, succeeds exactly when the `.part` file is not already complete, or
      the first reply comes from a server that ignores ranges. */
  lemma CallSucceedsExactly(d: Disk, remote: Bytes, w: World, k: nat)
    requires Good(d, remote) && d.dest == None && remote != [] && DeliversAt(w, remote, 0, k)
    ensures Download(d, remote, w).1 == Done <==> d.part != Some(remote) || !w.attempt(FirstReply(w, 0, k)).ranges
  {
    if d.part.Some? && |d.part.value| >= |remote| {
      assert d.part.value == remote[..|d.part.value|] == remote;
    }
    AttemptsDeliver(d, if d.part.Some? then |d.part.value| else 0, remote, w, 0, k);
  }

  /** The launcher can die between closing the finished `.part` file and renaming
      it; that leaves the stuck state. */
  lemma StuckStateIsReachable(remote: Bytes)
    requires remote != []
    ensures exists w :: HonoursRanges(w) && Download(Disk(None, None), remote, w) == (Disk(None, Some(remote)), Crashed)
  {
    var a := Reply(true, true, [|remote|], 0, Eof, true, true);
    var w := World(_ => a, _ => false, _ => false);
    assert Taken([|remote|], |remote|) == |remote|;
    assert Overwrite([], 0, remote[..|remote|]) == remote;
    assert HonoursRanges(w);
    assert Download(Disk(None, None), remote, w) == (Disk(None, Some(remote)), Crashed);
  }

  // -------------------------------------------------------------------------
  // The program's loops
  // -------------------------------------------------------------------------

  lemma OverwriteMore(file: Bytes, off: nat, x: Bytes, y: Bytes)
    requires off <= |file|
    ensures Overwrite(Overwrite(file, off, x), off + |x|, y) == Overwrite(file, off, x + y)
  {
  }

  lemma {:induction false} TakenSnoc(chunks: seq<nat>, limit: nat)
    requires chunks != []
    ensures var n := |chunks| - 1;
            var before := Taken(chunks[..n], limit);
            Taken(chunks, limit) == before + if chunks[n] <= limit - before then chunks[n] else limit - before
  {
    var n := |chunks| - 1;
    if n > 0 {
      var first := if chunks[0] <= limit then chunks[0] else limit;
      TakenSnoc(chunks[1..], limit - first);
      assert chunks[1..][..n - 1] == chunks[..n][1..];
    }
  }

  lemma OverwriteChunk(file: Bytes, off: nat, body: Bytes, stored: nat, n: nat)
    requires off <= |file| && stored + n <= |body|
    ensures Overwrite(Overwrite(file, off, body[..stored]), off + stored, body[stored..stored + n])
         == Overwrite(file, off, body[..stored + n])
  {
    OverwriteMore(file, off, body[..stored], body[stored..stored + n]);
    assert body[..stored] + body[stored..stored + n] == body[..stored + n];
  }

  /** What the first `i` chunks have brought into the file. */
  function StoredOf(a: Attempt, i: nat, limit: nat): (n: nat)
    requires a.Reply? && i <= |a.chunks|
    ensures n <= limit
  {
    if i < |a.chunks| then Taken(a.chunks[..i], limit) else Stored(a, limit)
  }

  lemma OneChunkMore(a: Attempt, i: nat, limit: nat)
    requires a.Reply? && i < |a.chunks|
    ensures var before := StoredOf(a, i, limit);
            var n := if a.chunks[i] <= limit - before then a.chunks[i] else limit - before;
            var kept := if i == |a.chunks| - 1 && (a.end.WriteFailed? || a.end.Crash?) && a.kept < n then a.kept else n;
            StoredOf(a, i + 1, limit) == before + kept
  {
    TakenSnoc(a.chunks[..i + 1], limit);
    assert a.chunks[..i + 1][..i] == a.chunks[..i];
    assert i == |a.chunks| - 1 ==> a.chunks[..i + 1] == a.chunks;
  }

  class Files {
    var dest: Option<Bytes>
    var part: Option<Bytes>

    ghost function State(): Disk
      reads this
    {
      Disk(dest, part)
    }

    /** The inner loop: chunks of the body go to the open `.part` file behind `from`. */
    method ReadBody(from: nat, body: Bytes, a: Attempt) returns (stored: nat)
      requires a.Reply? && part.Some? && from <= |part.value|
      modifies this`part
      ensures stored == Stored(a, |body|)
      ensures part == Some(Overwrite(old(part.value), from, body[..stored]))
    {
      stored := 0;
      assert part.value == Overwrite(part.value, from, body[..0]);
      for i := 0 to |a.chunks|
        invariant stored == StoredOf(a, i, |body|)
        invariant part == Some(Overwrite(old(part.value), from, body[..stored]))
      {
        var n := if a.chunks[i] <= |body| - stored then a.chunks[i] else |body| - stored;
        if i == |a.chunks| - 1 && (a.end.WriteFailed? || a.end.Crash?) && a.kept < n {
          n := a.kept;
        }
        OneChunkMore(a, i, |body|);
        OverwriteChunk(old(part.value), from, body, stored, n);
        part := Some(Overwrite(part.value, from + stored, body[stored..stored + n]));
        stored := stored + n;
      }
    }

    /** One reply: open the `.part` file, read the body, rename. `over` is None when
        the loop goes on with the next attempt, from `resumeFrom`. */
    method TakeReply(resume: nat, remote: Bytes, a: Attempt, cancelled: bool) returns (over: Option<Result>, resumeFrom: nat)
      requires resume > 0 ==> part.Some? && resume <= |part.value|
      requires a.Reply?
      modifies this
      ensures (if over.Some? then Over(State(), over.value) else Again(State(), resumeFrom))
           == Answered(old(State()), resume, remote, a, cancelled)
      ensures var from := Offset(a, resume);
              if !a.canOpen || (from > 0 && from >= |remote|) then over == Some(Error) && State() == old(State())
              else
                && (over == Some(Done) <==> a.end.Eof? && from + Stored(a, |remote| - from) == |remote| && !a.crashBeforeRename && a.canRename)
                && resumeFrom == from && (over != Some(Done) ==> dest == old(dest) && part.Some?)
                && (Good(old(State()), remote) ==>
                      if over == Some(Done) then State() == Disk(Some(remote), None)
                      else
                        var n := Stored(a, |remote| - from);
                        var reach := if from == 0 then n else Max(|old(part).value|, from + n);
                        reach <= |remote| && part.value == remote[..reach])
    {
      if Good(State(), remote) {
        ReplyExactly(State(), resume, remote, a, cancelled);
      }
      resumeFrom := resume;
      if a.ranges && resumeFrom > 0 && resumeFrom >= |remote| {
        return Some(Error), resumeFrom;
      }
      if !(a.ranges && resumeFrom > 0) {
        resumeFrom := 0;
      }
      if !a.canOpen {
        return Some(Error), resumeFrom;
      }
      if resumeFrom == 0 {
        part := Some([]);
      }
      var body := remote[resumeFrom..];
      assert resumeFrom == 0 ==> body == remote;
      var stored := ReadBody(resumeFrom, body, a);
      if a.end.Crash? {
        return Some(Crashed), resumeFrom;
      }
      if a.end.Eof? && stored == |body| {
        if a.crashBeforeRename {
          return Some(Crashed), resumeFrom;
        }
        if !a.canRename {
          return Some(Error), resumeFrom;
        }
        dest, part := part, None;
        return Some(Done), resumeFrom;
      }
      return if cancelled then Some(Cancelled) else None, resumeFrom;
    }

    /** The attempt loop, in any world. */
    method DownloadFileToResumable(remote: Bytes, w: World) returns (r: Result)
      modifies this
      ensures (State(), r) == Download(old(State()), remote, w)
      ensures old(dest).Some? && old(dest).value != [] ==> r == Done && State() == old(State())
    {
      if dest.Some? && |dest.value| > 0 {
        return Done;
      }
      var resumeFrom: nat := if part.Some? then |part.value| else 0;
      for k := 0 to ATTEMPTS
        invariant resumeFrom > 0 ==> part.Some? && resumeFrom <= |part.value|
        invariant Attempts(State(), resumeFrom, remote, w, k) == Download(old(State()), remote, w)
      {
        if w.cancelledBefore(k) {
          return Cancelled;
        }
        var a := w.attempt(k);
        match a {
          case NetError =>
          case TooMany =>
          case OtherStatus => return Error;
          case Reply(_, _, _, _, _, _, _) =>
            ghost var resume := resumeFrom;
            ghost var before := State();
            var over;
            over, resumeFrom := TakeReply(resumeFrom, remote, a, w.cancelledAfter(k));
            if over.Some? {
              return over.value;
            }
            AgainIsSound(before, resume, remote, a, w.cancelledAfter(k));
        }
      }
      return Error;
    }
  }
}
