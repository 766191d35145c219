/**
 * Adding a server to a pack and copying servers from one pack to another, one
 * address at a time or as a batch (backend/app.go).
 */
module ServerCopy {
  import opened Common
  import opened ServerList

  // -------------------------------------------------------------------------
  // One server into a list
  // -------------------------------------------------------------------------

  /** The position of the first entry with the address, or the length. */
  function First(es: seq<Entry>, ip: string): (i: nat)
    ensures i <= |es|
    ensures i < |es| ==> es[i].ip == ip
    ensures forall j | 0 <= j < i :: es[j].ip != ip
    ensures i < |es| <==> Has(es, ip)
  {
    if es == [] then 0
    else if es[0].ip == ip then 0
    else
      assert forall j | 0 < j < |es| :: es[j] == es[1..][j - 1];
      1 + First(es[1..], ip)
  }

  /** A known address gets the name (an empty name keeps the old one), a new one
      is put at the end; a server without a name is called by its address. */
  function Put(es: seq<Entry>, name: string, ip: string): seq<Entry> {
    var i := First(es, ip);
    if i < |es| then es[i := es[i].(name := FirstNonEmpty(name, FirstNonEmpty(es[i].name, ip)))]
    else es + [Entry(FirstNonEmpty(name, ip), ip, "")]
  }

  /** What that leaves: the first entry with the address gets the new name, or keeps its
      own if the new one is empty, or is called by the address if both are; all else stays.
      Without such an entry one more stands at the end, with the name or else the address. */
  lemma PutExactly(es: seq<Entry>, name: string, ip: string, k: nat)
    ensures var out := Put(es, name, ip);
            && ((forall j | 0 <= j < |es| :: es[j].ip != ip) ==>
                  out == es + [Entry(if name != "" then name else ip, ip, "")])
            && (k < |es| && es[k].ip == ip && (forall j | 0 <= j < k :: es[j].ip != ip) ==>
                  && |out| == |es|
                  && (forall j | 0 <= j < |es| && j != k :: out[j] == es[j])
                  && out[k] == Entry(if name != "" then name else if es[k].name != "" then es[k].name else ip, ip, es[k].extra))
  {
    if k < |es| && es[k].ip == ip && forall j | 0 <= j < k :: es[j].ip != ip {
      assert First(es, ip) == k;
    }
  }

  // -------------------------------------------------------------------------
  // Copying, on values
  // -------------------------------------------------------------------------

  type Files = map<string, seq<Entry>>

  /** A missing target file counts as an empty list. */
  function ListOf(files: Files, pack: string): seq<Entry> {
    if pack in files then files[pack] else []
  }

  /** The effect of `CopyServerToPack`. */
  function CopyOne(files: Files, src: string, a: string, dst: string): Files {
    if src !in files || !Has(files[src], a) || Trim(a) == "" then files
    else files[dst := Put(ListOf(files, dst), files[src][First(files[src], a)].name, Trim(a))]
  }

  /** `CopyServerToPack` on each address in turn. */
  function CopyEach(files: Files, src: string, addresses: seq<string>, dst: string): Files {
    if addresses == [] then files
    else
      var n := |addresses| - 1;
      CopyOne(CopyEach(files, src, addresses[..n], dst), src, addresses[n], dst)
  }

  predicate Wanted(byIp: map<string, Entry>, a: string) {
    Trim(a) != "" && Trim(a) in byIp
  }

  function PutAll(byIp: map<string, Entry>, addresses: seq<string>, es: seq<Entry>): seq<Entry> {
    if addresses == [] then es
    else
      var n := |addresses| - 1;
      var before := PutAll(byIp, addresses[..n], es);
      if Wanted(byIp, addresses[n]) then Put(before, byIp[Trim(addresses[n])].name, Trim(addresses[n])) else before
  }

  predicate AnyWanted(byIp: map<string, Entry>, addresses: seq<string>) {
    exists i :: 0 <= i < |addresses| && Wanted(byIp, addresses[i])
  }

  /** The effect of `CopyServersToPack` when the write succeeds. */
  function CopyBatch(files: Files, src: string, addresses: seq<string>, dst: string): Files {
    if src !in files || !AnyWanted(ByIp(files[src]), addresses) then files
    else files[dst := PutAll(ByIp(files[src]), addresses, ListOf(files, dst))]
  }

  // -------------------------------------------------------------------------
  // The batch and the simple copy
  // -------------------------------------------------------------------------

  predicate Trimmed(addresses: seq<string>) {
    forall i | 0 <= i < |addresses| :: Trim(addresses[i]) == addresses[i]
  }

  /** The first entry with the address, which the simple copy takes, and the last
      one, which the batch takes, have one name. */
  predicate SameName(es: seq<Entry>, a: string) {
    Has(es, a) ==> es[First(es, a)].name == ByIp(es)[a].name
  }

  /** Source entries with pairwise different addresses are the ordinary case. */
  lemma {:induction false} DistinctHaveSameName(es: seq<Entry>, a: string)
    requires forall i, j | 0 <= i < j < |es| :: es[i].ip != es[j].ip
    ensures SameName(es, a)
  {
    if Has(es, a) {
      ByIpIsLast(es, a);
      var j :| 0 <= j < |es| && es[j] == ByIp(es)[a];
      assert First(es, a) == j;
    }
  }

  lemma PutKeepsOthers(es: seq<Entry>, name: string, ip: string, a: string)
    ensures Has(Put(es, name, ip), a) <==> Has(es, a) || a == ip
    ensures Has(es, a) ==> First(Put(es, name, ip), a) == First(es, a)
    ensures Has(es, a) && a != ip ==> Put(es, name, ip)[First(es, a)] == es[First(es, a)]
    ensures |es| <= |Put(es, name, ip)|
    ensures forall k | 0 <= k < |es| :: Put(es, name, ip)[k].ip == es[k].ip && Put(es, name, ip)[k].extra == es[k].extra
  {
    var i, out := First(es, ip), Put(es, name, ip);
    assert forall k | 0 <= k < |es| :: out[k].ip == es[k].ip;
    if i == |es| { assert out[i].ip == ip; }
    if Has(es, a) {
      assert out[First(es, a)].ip == a;
    }
  }

  /** Copying keeps the target's entries where they are. */
  lemma {:induction false} PutAllKeepsOrder(byIp: map<string, Entry>, addresses: seq<string>, es: seq<Entry>)
    ensures var out := PutAll(byIp, addresses, es);
            && |es| <= |out|
            && forall k | 0 <= k < |es| :: out[k].ip == es[k].ip && out[k].extra == es[k].extra
  {
    if addresses != [] {
      var n := |addresses| - 1;
      PutAllKeepsOrder(byIp, addresses[..n], es);
      if Wanted(byIp, addresses[n]) {
        PutKeepsOthers(PutAll(byIp, addresses[..n], es), byIp[Trim(addresses[n])].name, Trim(addresses[n]), "");
      }
    }
  }

  /** The name a copied server has in the target: its name in the index of the source, else
      the one it had, else its address. */
  function NameInTarget(byIp: map<string, Entry>, es: seq<Entry>, a: string): string
    requires a in byIp
  {
    if byIp[a].name != "" then byIp[a].name
    else if Has(es, a) && es[First(es, a)].name != "" then es[First(es, a)].name
    else a
  }

  predicate WantedIn(byIp: map<string, Entry>, addresses: seq<string>, a: string) {
    exists i :: 0 <= i < |addresses| && Wanted(byIp, addresses[i]) && Trim(addresses[i]) == a
  }

  lemma WantedInSnoc(byIp: map<string, Entry>, addresses: seq<string>, a: string)
    requires addresses != []
    ensures var n := |addresses| - 1;
            WantedIn(byIp, addresses, a) <==> WantedIn(byIp, addresses[..n], a) || (Wanted(byIp, addresses[n]) && Trim(addresses[n]) == a)
  {
    var n := |addresses| - 1;
    if WantedIn(byIp, addresses, a) {
      var i :| 0 <= i < |addresses| && Wanted(byIp, addresses[i]) && Trim(addresses[i]) == a;
      if i < n { assert addresses[..n][i] == addresses[i]; }
    }
    if WantedIn(byIp, addresses[..n], a) {
      var i :| 0 <= i < n && Wanted(byIp, addresses[..n][i]) && Trim(addresses[..n][i]) == a;
      assert addresses[i] == addresses[..n][i];
    }
  }

  /** The batch brings every requested server the source knows, under its name, and leaves
      every other one as it was. */
  lemma {:induction false} CopiedAreThere(byIp: map<string, Entry>, addresses: seq<string>, es: seq<Entry>, a: string)
    ensures var out := PutAll(byIp, addresses, es);
            if WantedIn(byIp, addresses, a) then
              a in byIp && Has(out, a) && out[First(out, a)].name == NameInTarget(byIp, es, a)
            else
              (Has(out, a) <==> Has(es, a)) && (Has(es, a) ==> First(out, a) == First(es, a) && out[First(es, a)] == es[First(es, a)])
  {
    if addresses != [] {
      var n := |addresses| - 1;
      var before := PutAll(byIp, addresses[..n], es);
      CopiedAreThere(byIp, addresses[..n], es, a);
      WantedInSnoc(byIp, addresses, a);
      if Wanted(byIp, addresses[n]) {
        PutKeepsOthers(before, byIp[Trim(addresses[n])].name, Trim(addresses[n]), a);
        if Trim(addresses[n]) == a {
          PutExactly(before, byIp[a].name, a, First(before, a));
        }
      }
    }
  }

  /** The name under which the server `a` was in the source at the start, while a
      copy into the source itself goes on: only a missing name can have been
      filled in, by the address. */
  ghost predicate StillNamed(es: seq<Entry>, a: string, name: string) {
    Has(es, a) && (es[First(es, a)].name == name || (name == "" && es[First(es, a)].name == a))
  }

  /** The source list, as a copy into it leaves it, still answers like the index
      built at the start. */
  ghost predicate Answers(now: seq<Entry>, es: seq<Entry>) {
    && (forall a | a in ByIp(es) && SameName(es, a) :: StillNamed(now, a, ByIp(es)[a].name))
    && (forall a | Has(now, a) :: a in ByIp(es))
  }

  lemma PutKeepsAnswers(now: seq<Entry>, es: seq<Entry>, a: string)
    requires Answers(now, es) && a in ByIp(es) && SameName(es, a) && a != ""
    ensures Answers(Put(now, ByIp(es)[a].name, a), es)
    ensures Put(now, now[First(now, a)].name, a) == Put(now, ByIp(es)[a].name, a)
  {
    assert StillNamed(now, a, ByIp(es)[a].name);
    var out := Put(now, ByIp(es)[a].name, a);
    forall b | b in ByIp(es) && SameName(es, b) ensures StillNamed(out, b, ByIp(es)[b].name) {
      assert StillNamed(now, b, ByIp(es)[b].name);
      PutKeepsOthers(now, ByIp(es)[a].name, a, b);
    }
    forall b | Has(out, b) ensures b in ByIp(es) {
      PutKeepsOthers(now, ByIp(es)[a].name, a, b);
    }
  }

  lemma {:induction false} NoneWanted(byIp: map<string, Entry>, addresses: seq<string>, es: seq<Entry>)
    requires !AnyWanted(byIp, addresses)
    ensures PutAll(byIp, addresses, es) == es
  {
    if addresses != [] {
      var n := |addresses| - 1;
      assert !Wanted(byIp, addresses[n]);
      assert forall i | 0 <= i < n :: addresses[..n][i] == addresses[i];
      NoneWanted(byIp, addresses[..n], es);
    }
  }

  lemma WantedSnoc(byIp: map<string, Entry>, addresses: seq<string>)
    requires addresses != []
    ensures AnyWanted(byIp, addresses)
            <==> AnyWanted(byIp, addresses[..|addresses| - 1]) || Wanted(byIp, addresses[|addresses| - 1])
  {
    var n := |addresses| - 1;
    if AnyWanted(byIp, addresses) {
      var i :| 0 <= i < |addresses| && Wanted(byIp, addresses[i]);
      if i < n { assert Wanted(byIp, addresses[..n][i]); }
    }
    if AnyWanted(byIp, addresses[..n]) {
      var i :| 0 <= i < n && Wanted(byIp, addresses[..n][i]);
      assert Wanted(byIp, addresses[i]);
    }
  }

  /** One batch leaves exactly the files that copying each address in turn leaves,
      also when source and target are one pack, when addresses are unknown, empty
      or repeated, and when the target file is missing. */
  lemma {:induction false} BatchRefinesEach(files: Files, src: string, addresses: seq<string>, dst: string)
    requires Trimmed(addresses)
    requires src in files ==> forall i | 0 <= i < |addresses| :: addresses[i] != "" ==> SameName(files[src], addresses[i])
    ensures CopyEach(files, src, addresses, dst) == CopyBatch(files, src, addresses, dst)
    ensures src in files ==> src in CopyEach(files, src, addresses, dst)
    ensures src in files ==> Answers(CopyEach(files, src, addresses, dst)[src], files[src])
  {
    if addresses == [] {
      if src in files {
        StartAnswers(files[src]);
        assert !AnyWanted(ByIp(files[src]), addresses);
      }
    } else {
      var n := |addresses| - 1;
      BatchRefinesEach(files, src, addresses[..n], dst);
      if src in files {
        NextInStep(files, CopyEach(files, src, addresses[..n], dst), src, addresses, dst);
      }
    }
  }

  lemma StartAnswers(es: seq<Entry>)
    ensures Answers(es, es)
  {
    forall a | a in ByIp(es) && SameName(es, a) ensures StillNamed(es, a, ByIp(es)[a].name) {
      assert Has(es, a);
    }
  }

  lemma NextInStep(files: Files, now: Files, src: string, addresses: seq<string>, dst: string)
    requires src in files && addresses != []
    requires var a := addresses[|addresses| - 1]; Trim(a) == a && (a != "" ==> SameName(files[src], a))
    requires now == CopyBatch(files, src, addresses[..|addresses| - 1], dst)
    requires src in now && Answers(now[src], files[src])
    ensures var next := CopyOne(now, src, addresses[|addresses| - 1], dst);
            next == CopyBatch(files, src, addresses, dst) && src in next && Answers(next[src], files[src])
  {
    var n := |addresses| - 1;
    BatchSnoc(files, src, addresses, dst);
    ListSoFar(files, src, addresses[..n], dst);
    OneStep(now, src, dst, files[src], addresses[n]);
  }

  lemma BatchSnoc(files: Files, src: string, addresses: seq<string>, dst: string)
    requires src in files && addresses != []
    ensures var n := |addresses| - 1;
            var byIp, ip, before := ByIp(files[src]), Trim(addresses[n]), CopyBatch(files, src, addresses[..n], dst);
            CopyBatch(files, src, addresses, dst) == (
              if Wanted(byIp, addresses[n])
              then before[dst := Put(PutAll(byIp, addresses[..n], ListOf(files, dst)), byIp[ip].name, ip)]
              else before)
  {
    WantedSnoc(ByIp(files[src]), addresses);
  }

  lemma ListSoFar(files: Files, src: string, addresses: seq<string>, dst: string)
    requires src in files
    ensures ListOf(CopyBatch(files, src, addresses, dst), dst) == PutAll(ByIp(files[src]), addresses, ListOf(files, dst))
  {
    if !AnyWanted(ByIp(files[src]), addresses) {
      NoneWanted(ByIp(files[src]), addresses, ListOf(files, dst));
    }
  }

  /** One simple copy, in terms of the index of the source as it was at the start. */
  lemma OneStep(now: Files, src: string, dst: string, es: seq<Entry>, a: string)
    requires src in now && Answers(now[src], es) && Trim(a) == a && (a != "" ==> SameName(es, a))
    requires src != dst ==> now[src] == es
    ensures var next := CopyOne(now, src, a, dst);
            && next == (if Wanted(ByIp(es), a) then now[dst := Put(ListOf(now, dst), ByIp(es)[a].name, a)] else now)
            && Answers(next[src], es)
  {
    if Wanted(ByIp(es), a) {
      assert StillNamed(now[src], a, ByIp(es)[a].name);
      PutKeepsAnswers(now[src], es, a);
    }
  }

  // ---- exactly when ----

  /** A target that already has the server under a third name tells the two apart. */
  function Witness(a: string, one: string, two: string): seq<Entry> {
    [Entry("?" + one + two, a, "")]
  }

  /** The name the server `a` has at the head of the target list. */
  ghost predicate HeadIs(es: seq<Entry>, a: string, name: string) {
    es != [] && es[0].ip == a && es[0].name == name
  }

  lemma PutAtHead(es: seq<Entry>, a: string, old_: string, name: string, ip: string)
    requires HeadIs(es, a, old_) && old_ != ""
    ensures HeadIs(Put(es, name, ip), a, if ip == a then FirstNonEmpty(name, old_) else old_)
  {
    if ip == a {
      assert First(es, ip) == 0;
    } else {
      assert First(es, ip) > 0;
    }
  }

  lemma {:induction false} HeadAfterBatch(byIp: map<string, Entry>, addresses: seq<string>, es: seq<Entry>, a: string, old_: string)
    requires Trimmed(addresses) && HeadIs(es, a, old_) && old_ != "" && a != "" && a in byIp
    ensures HeadIs(PutAll(byIp, addresses, es), a, if a in addresses then FirstNonEmpty(byIp[a].name, old_) else old_)
  {
    if addresses != [] {
      var n := |addresses| - 1;
      assert addresses == addresses[..n] + [addresses[n]];
      HeadAfterBatch(byIp, addresses[..n], es, a, old_);
      var before := PutAll(byIp, addresses[..n], es);
      if Wanted(byIp, addresses[n]) {
        PutAtHead(before, a, before[0].name, byIp[addresses[n]].name, addresses[n]);
      }
    }
  }

  lemma {:induction false} HeadAfterEach(files: Files, src: string, addresses: seq<string>, dst: string, a: string, old_: string)
    requires Trimmed(addresses) && src in files && src != dst && dst in files
    requires HeadIs(files[dst], a, old_) && old_ != "" && a != "" && Has(files[src], a)
    ensures var out := CopyEach(files, src, addresses, dst);
            && src in out && out[src] == files[src] && dst in out
            && HeadIs(out[dst], a, if a in addresses then FirstNonEmpty(files[src][First(files[src], a)].name, old_) else old_)
  {
    if addresses != [] {
      var n := |addresses| - 1;
      assert addresses == addresses[..n] + [addresses[n]];
      HeadAfterEach(files, src, addresses[..n], dst, a, old_);
      var before := CopyEach(files, src, addresses[..n], dst);
      if Has(files[src], addresses[n]) && addresses[n] != "" {
        var target: seq<Entry> := before[dst];
        PutAtHead(target, a, target[0].name, files[src][First(files[src], addresses[n])].name, addresses[n]);
      }
    }
  }

  /** Both ways of copying leave the same files when the target list is `target`. */
  predicate Agree(files: Files, src: string, addresses: seq<string>, dst: string, target: seq<Entry>) {
    CopyEach(files[dst := target], src, addresses, dst) == CopyBatch(files[dst := target], src, addresses, dst)
  }

  lemma BatchDiffersOnTwins(files: Files, src: string, addresses: seq<string>, dst: string, a: string)
    requires Trimmed(addresses) && src in files && src != dst
    requires a in addresses && a != "" && !SameName(files[src], a)
    ensures exists target :: !Agree(files, src, addresses, dst, target)
  {
    var es := files[src];
    var one, two := es[First(es, a)].name, ByIp(es)[a].name;
    var target := Witness(a, one, two);
    var start := files[dst := target];
    var old_ := "?" + one + two;
    HeadAfterEach(start, src, addresses, dst, a, old_);
    HeadAfterBatch(ByIp(es), addresses, target, a, old_);
    var k :| 0 <= k < |addresses| && addresses[k] == a;
    assert Wanted(ByIp(es), addresses[k]);
    assert |old_| == 1 + |one| + |two|;
    assert !Agree(files, src, addresses, dst, target);
  }

  /** For two packs and trimmed addresses: the batch and the simple copy agree for
      every target list exactly when no requested server is stored under two
      names in the source. */
  lemma BatchIsEachExactly(files: Files, src: string, addresses: seq<string>, dst: string)
    requires Trimmed(addresses) && src in files && src != dst
    ensures (forall target :: Agree(files, src, addresses, dst, target))
            <==> forall i | 0 <= i < |addresses| && addresses[i] != "" :: SameName(files[src], addresses[i])
  {
    if forall i | 0 <= i < |addresses| && addresses[i] != "" :: SameName(files[src], addresses[i]) {
      forall target ensures Agree(files, src, addresses, dst, target) {
        BatchRefinesEach(files[dst := target], src, addresses, dst);
      }
    } else {
      var i :| 0 <= i < |addresses| && addresses[i] != "" && !SameName(files[src], addresses[i]);
      BatchDiffersOnTwins(files, src, addresses, dst, addresses[i]);
    }
  }

  // ---- one pack as source and target ----

  predicate Requested(addresses: seq<string>, a: string) {
    a in addresses && a != ""
  }

  /** The name of the `k`-th entry after copying a list into itself, one address at a time. */
  function NameAfterEach(es: seq<Entry>, addresses: seq<string>, k: nat): string
    requires k < |es|
  {
    if Requested(addresses, es[k].ip) && First(es, es[k].ip) == k then FirstNonEmpty(es[k].name, es[k].ip) else es[k].name
  }

  /** The same for the batch, which gives the first entry the name of the last. */
  function NameAfterBatch(es: seq<Entry>, addresses: seq<string>, k: nat): string
    requires k < |es|
  {
    if Requested(addresses, es[k].ip) && First(es, es[k].ip) == k
    then FirstNonEmpty(ByIp(es)[es[k].ip].name, FirstNonEmpty(es[k].name, es[k].ip)) else es[k].name
  }

  ghost predicate AfterEach(es: seq<Entry>, now: seq<Entry>, addresses: seq<string>) {
    |now| == |es| && forall k | 0 <= k < |es| :: now[k] == es[k].(name := NameAfterEach(es, addresses, k))
  }

  ghost predicate AfterBatch(es: seq<Entry>, now: seq<Entry>, addresses: seq<string>) {
    |now| == |es| && forall k | 0 <= k < |es| :: now[k] == es[k].(name := NameAfterBatch(es, addresses, k))
  }

  lemma SameFirst(es: seq<Entry>, now: seq<Entry>, a: string)
    requires |now| == |es| && forall k | 0 <= k < |es| :: now[k].ip == es[k].ip
    ensures First(now, a) == First(es, a) && (Has(now, a) <==> Has(es, a))
  {
    if First(es, a) < |es| {
      assert now[First(es, a)].ip == a;
    }
    if First(now, a) < |now| {
      assert es[First(now, a)].ip == a;
    }
  }

  lemma OneMoreEach(es: seq<Entry>, now: seq<Entry>, addresses: seq<string>, a: string)
    requires AfterEach(es, now, addresses) && Has(es, a) && a != ""
    ensures Has(now, a) && AfterEach(es, Put(now, now[First(now, a)].name, a), addresses + [a])
  {
    SameFirst(es, now, a);
    assert forall x :: x in addresses + [a] <==> x in addresses || x == a;
  }

  lemma OneMoreBatch(es: seq<Entry>, now: seq<Entry>, addresses: seq<string>, a: string)
    requires AfterBatch(es, now, addresses) && Has(es, a) && a != ""
    ensures AfterBatch(es, Put(now, ByIp(es)[a].name, a), addresses + [a])
  {
    SameFirst(es, now, a);
    assert forall x :: x in addresses + [a] <==> x in addresses || x == a;
  }

  lemma NoMore(es: seq<Entry>, now: seq<Entry>, addresses: seq<string>, a: string)
    requires !Has(es, a) || a == ""
    ensures AfterEach(es, now, addresses) ==> AfterEach(es, now, addresses + [a])
    ensures AfterBatch(es, now, addresses) ==> AfterBatch(es, now, addresses + [a])
  {
    assert forall x :: x in addresses + [a] <==> x in addresses || x == a;
  }

  /** `out` is `files` with the list of `src` as the simple copy leaves it. */
  ghost predicate Renames(files: Files, src: string, addresses: seq<string>, out: Files)
    requires src in files
  {
    src in out && out == files[src := out[src]] && AfterEach(files[src], out[src], addresses)
  }

  lemma OneIntoItself(files: Files, src: string, addresses: seq<string>, before: Files, a: string)
    requires src in files && Renames(files, src, addresses, before) && Trim(a) == a
    ensures Renames(files, src, addresses + [a], CopyOne(before, src, a, src))
  {
    var now := before[src];
    SameFirst(files[src], now, a);
    if Has(files[src], a) && a != "" {
      OneMoreEach(files[src], now, addresses, a);
      var more := Put(now, now[First(now, a)].name, a);
      assert CopyOne(before, src, a, src) == before[src := more];
    } else {
      NoMore(files[src], now, addresses, a);
      assert CopyOne(before, src, a, src) == before;
    }
  }

  lemma {:induction false} EachIntoItself(files: Files, src: string, addresses: seq<string>)
    requires Trimmed(addresses) && src in files
    ensures Renames(files, src, addresses, CopyEach(files, src, addresses, src))
  {
    if addresses == [] {
      assert files == files[src := files[src]];
    } else {
      var n := |addresses| - 1;
      EachIntoItself(files, src, addresses[..n]);
      assert addresses == addresses[..n] + [addresses[n]];
      OneIntoItself(files, src, addresses[..n], CopyEach(files, src, addresses[..n], src), addresses[n]);
    }
  }

  lemma {:induction false} BatchIntoItself(es: seq<Entry>, addresses: seq<string>)
    requires Trimmed(addresses)
    ensures AfterBatch(es, PutAll(ByIp(es), addresses, es), addresses)
  {
    if addresses != [] {
      var n := |addresses| - 1;
      var a, before := addresses[n], PutAll(ByIp(es), addresses[..n], es);
      BatchIntoItself(es, addresses[..n]);
      assert addresses == addresses[..n] + [a];
      if Has(es, a) && a != "" {
        OneMoreBatch(es, before, addresses[..n], a);
      } else {
        NoMore(es, before, addresses[..n], a);
      }
    }
  }

  /** The last entry with the address has no name, or the name the first one ends up with. */
  predicate OwnName(es: seq<Entry>, a: string) {
    Has(es, a) ==> ByIp(es)[a].name == "" || ByIp(es)[a].name == FirstNonEmpty(es[First(es, a)].name, a)
  }

  /** For one pack as source and target: the batch and the simple copy agree exactly
      when no requested server is stored a second time under another name. */
  lemma BatchIntoItselfExactly(files: Files, src: string, addresses: seq<string>)
    requires Trimmed(addresses) && src in files
    ensures CopyEach(files, src, addresses, src) == CopyBatch(files, src, addresses, src)
            <==> forall i | 0 <= i < |addresses| && addresses[i] != "" :: OwnName(files[src], addresses[i])
  {
    EachIntoItself(files, src, addresses);
    var es, each := files[src], CopyEach(files, src, addresses, src)[src];
    var batch := PutAll(ByIp(es), addresses, es);
    BatchIntoItself(es, addresses);
    if !AnyWanted(ByIp(es), addresses) {
      NoneWanted(ByIp(es), addresses, es);
      assert files == files[src := es];
    }
    assert CopyEach(files, src, addresses, src) == CopyBatch(files, src, addresses, src) <==> each == batch by {
      assert CopyBatch(files, src, addresses, src) == files[src := batch];
      assert files[src := each][src] == each && files[src := batch][src] == batch;
    }
    SameNamesExactly(es, each, batch, addresses);
  }

  lemma SameNamesExactly(es: seq<Entry>, each: seq<Entry>, batch: seq<Entry>, addresses: seq<string>)
    requires AfterEach(es, each, addresses) && AfterBatch(es, batch, addresses)
    ensures each == batch <==> forall i | 0 <= i < |addresses| && addresses[i] != "" :: OwnName(es, addresses[i])
  {
    if each == batch {
      forall i | 0 <= i < |addresses| && addresses[i] != "" ensures OwnName(es, addresses[i]) {
        var k := First(es, addresses[i]);
        if k < |es| {
          assert each[k].name == batch[k].name;
        }
      }
    }
    if forall i | 0 <= i < |addresses| && addresses[i] != "" :: OwnName(es, addresses[i]) {
      forall k | 0 <= k < |es| ensures each[k] == batch[k] {
        if Requested(addresses, es[k].ip) {
          var i :| 0 <= i < |addresses| && addresses[i] == es[k].ip;
          assert OwnName(es, addresses[i]);
        }
      }
    }
  }

  // -------------------------------------------------------------------------
  // The program's loops
  // -------------------------------------------------------------------------

  datatype Error = EmptyAddress | NotInSource | NoSource | WriteFailed

  datatype CopyResult = CopyResult(address: string, name: string, exists_: bool, copied: bool, error: Option<Error>)

  method AddPackServer(store: Store, pack: string, name: string, address: string) returns (ok: bool)
    modifies store
    ensures store.writable == old(store.writable)
    ensures ok <==> Trim(address) != "" && store.writable
    ensures store.files == if ok then old(store.files)[pack := Put(ListOf(old(store.files), pack), name, Trim(address))]
                           else old(store.files)
    ensures store.writes == old(store.writes) + if Trim(address) != "" then 1 else 0
  {
    var ip := Trim(address);
    if ip == "" {
      return false;
    }
    var entries := ListOf(store.files, pack);
    for i := 0 to |entries|
      invariant forall j | 0 <= j < i :: entries[j].ip != ip
    {
      if entries[i].ip == ip {
        assert First(entries, ip) == i;
        var named := entries[i].(name := FirstNonEmpty(name, FirstNonEmpty(entries[i].name, ip)));
        ok := store.SaveServersDat(pack, entries[i := named]);
        return;
      }
    }
    assert !Has(entries, ip);
    ok := store.SaveServersDat(pack, entries + [Entry(FirstNonEmpty(name, ip), ip, "")]);
  }

  method CopyServerToPack(store: Store, src: string, address: string, dst: string) returns (ok: bool)
    modifies store
    ensures store.writable == old(store.writable)
    ensures ok <==> store.writable && src in old(store.files) && Has(old(store.files)[src], address) && Trim(address) != ""
    ensures store.files == if store.writable then CopyOne(old(store.files), src, address, dst) else old(store.files)
  {
    if src !in store.files {
      return false;
    }
    var entries := store.files[src];
    for i := 0 to |entries|
      invariant forall j | 0 <= j < i :: entries[j].ip != address
    {
      if entries[i].ip == address {
        assert First(entries, address) == i;
        ok := AddPackServer(store, dst, entries[i].name, entries[i].ip);
        return;
      }
    }
    assert !Has(entries, address);
    return false;
  }

  /** What the result for the `i`-th address says: whether it was copied, and if so
      whether the target already had it, from before or from this batch. */
  predicate Reports(byIp: map<string, Entry>, addresses: seq<string>, target: seq<Entry>, i: nat, r: CopyResult)
    requires i < |addresses|
  {
    && r.address == Trim(addresses[i])
    && (r.copied <==> Wanted(byIp, addresses[i]))
    && r.error == (if Trim(addresses[i]) == "" then Some(EmptyAddress)
                   else if Trim(addresses[i]) !in byIp then Some(NotInSource)
                   else None)
    && (r.copied ==> r.name == byIp[r.address].name
                     && r.exists_ == Has(PutAll(byIp, addresses[..i], target), r.address))
  }

  /** The loop of the batch over the addresses. */
  method CopyInto(byIp: map<string, Entry>, addresses: seq<string>, target: seq<Entry>)
    returns (es: seq<Entry>, changed: bool, results: seq<CopyResult>)
    ensures es == PutAll(byIp, addresses, target)
    ensures changed <==> AnyWanted(byIp, addresses)
    ensures |results| == |addresses|
    ensures forall i | 0 <= i < |results| :: Reports(byIp, addresses, target, i, results[i])
  {
    es, changed, results := target, false, [];
    for n := 0 to |addresses|
      invariant es == PutAll(byIp, addresses[..n], target)
      invariant changed <==> AnyWanted(byIp, addresses[..n])
      invariant |results| == n
      invariant forall i | 0 <= i < n :: Reports(byIp, addresses, target, i, results[i])
    {
      WantedSnoc(byIp, addresses[..n + 1]);
      assert addresses[..n + 1][..n] == addresses[..n];
      var r;
      es, r := CopyNext(byIp, addresses, target, n, es);
      changed := changed || r.copied;
      results := results + [r];
    }
    assert addresses[..|addresses|] == addresses;
  }

  /** One round of that loop. */
  method CopyNext(byIp: map<string, Entry>, addresses: seq<string>, ghost target: seq<Entry>, n: nat, before: seq<Entry>)
    returns (es: seq<Entry>, r: CopyResult)
    requires n < |addresses| && before == PutAll(byIp, addresses[..n], target)
    ensures Reports(byIp, addresses, target, n, r)
    ensures es == if r.copied then Put(before, byIp[r.address].name, r.address) else before
  {
    es := before;
    var addr := Trim(addresses[n]);
    if addr == "" {
      return es, CopyResult(addr, "", false, false, Some(EmptyAddress));
    }
    if addr !in byIp {
      return es, CopyResult(addr, "", false, false, Some(NotInSource));
    }
    var found;
    es, found := PutInPlace(before, byIp[addr].name, addr);
    r := CopyResult(addr, byIp[addr].name, found, true, None);
  }

  /** The inner loop over the target's entries. */
  method PutInPlace(target: seq<Entry>, name: string, addr: string) returns (es: seq<Entry>, found: bool)
    ensures es == Put(target, name, addr)
    ensures found <==> Has(target, addr)
  {
    es := target;
    for i := 0 to |target|
      invariant forall j | 0 <= j < i :: target[j].ip != addr
    {
      if target[i].ip == addr {
        assert First(target, addr) == i;
        return target[i := target[i].(name := FirstNonEmpty(name, FirstNonEmpty(target[i].name, addr)))], true;
      }
    }
    return target + [Entry(FirstNonEmpty(name, addr), addr, "")], false;
  }

  /** One write for the whole batch, and none when nothing is to be copied; a failed
      write leaves the files alone and turns every result into that failure. */
  method CopyServersToPack(store: Store, src: string, addresses: seq<string>, dst: string) returns (results: seq<CopyResult>)
    modifies store
    ensures store.files == if store.writable then CopyBatch(old(store.files), src, addresses, dst) else old(store.files)
    ensures store.writable == old(store.writable)
    ensures store.writes == old(store.writes)
                          + if src in old(store.files) && AnyWanted(ByIp(old(store.files)[src]), addresses) then 1 else 0
    ensures |results| == |addresses|
    ensures src !in old(store.files) ==>
              forall i | 0 <= i < |results| :: results[i] == CopyResult(addresses[i], "", false, false, Some(NoSource))
    ensures src in old(store.files) && (store.writable || !AnyWanted(ByIp(old(store.files)[src]), addresses)) ==>
              forall i | 0 <= i < |results| ::
                Reports(ByIp(old(store.files)[src]), addresses, ListOf(old(store.files), dst), i, results[i])
    ensures src in old(store.files) && !store.writable && AnyWanted(ByIp(old(store.files)[src]), addresses) ==>
              forall i | 0 <= i < |results| ::
                results[i].address == Trim(addresses[i]) && !results[i].copied && results[i].error == Some(WriteFailed)
  {
    results := [];
    if addresses == [] {
      return;
    }
    if src !in store.files {
      for i := 0 to |addresses|
        invariant |results| == i
        invariant forall k | 0 <= k < i :: results[k] == CopyResult(addresses[k], "", false, false, Some(NoSource))
      {
        results := results + [CopyResult(addresses[i], "", false, false, Some(NoSource))];
      }
      return;
    }
    var byIp := store.IndexByIp(store.files[src]);
    var es, changed;
    es, changed, results := CopyInto(byIp, addresses, ListOf(store.files, dst));
    if changed {
      var ok := store.SaveServersDat(dst, es);
      if !ok {
        for i := 0 to |results|
          invariant |results| == |addresses|
          invariant forall k | 0 <= k < |results| :: results[k].address == Trim(addresses[k])
          invariant forall k | 0 <= k < i :: !results[k].copied && results[k].error == Some(WriteFailed)
        {
          results := results[i := results[i].(copied := false, error := Some(WriteFailed))];
        }
      }
    }
  }
}
