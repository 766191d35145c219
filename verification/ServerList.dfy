/**
 * The server list of a pack (`servers.dat`): reordering, adding, and copying
 * servers between packs (backend/app.go).
 */
module ServerList {

  /** An entry of servers.dat; `extra` stands for the fields that are only carried along. */
  datatype Entry = Entry(name: string, ip: string, extra: string)

  function FirstNonEmpty(a: string, b: string): string {
    if a != "" then a else b
  }

  predicate Has(es: seq<Entry>, ip: string) {
    exists i :: 0 <= i < |es| && es[i].ip == ip
  }

  // -------------------------------------------------------------------------
  // Reordering
  // -------------------------------------------------------------------------

  /** The map the program builds: the last entry wins. */
  function ByIp(es: seq<Entry>): (m: map<string, Entry>)
    ensures forall a :: a in m <==> Has(es, a)
  {
    if es == [] then map[]
    else
      var n := |es| - 1;
      ByIp(es[..n])[es[n].ip := es[n]]
  }

  /** The entries named so far, in order of first mention. */
  function Named(es: seq<Entry>, names: seq<string>): seq<Entry> {
    if names == [] then []
    else
      var n := |names| - 1;
      Named(es, names[..n]) +
      if names[n] in ByIp(es) && names[n] !in names[..n] then [ByIp(es)[names[n]]] else []
  }

  /** The entries that nothing names, in their old order. */
  function Unnamed(es: seq<Entry>, names: seq<string>): seq<Entry> {
    if es == [] then []
    else
      var n := |es| - 1;
      Unnamed(es[..n], names) + if es[n].ip in names then [] else [es[n]]
  }

  function Reordered(es: seq<Entry>, names: seq<string>): seq<Entry> {
    Named(es, names) + Unnamed(es, names)
  }

  /** No entry is there twice under an address that is named. */
  ghost predicate NamedOnce(es: seq<Entry>, names: seq<string>) {
    forall i, j | 0 <= i < j < |es| && es[i].ip == es[j].ip :: es[i].ip !in names
  }

  lemma {:induction false} UnnamedIps(es: seq<Entry>, names: seq<string>)
    ensures forall e | e in Unnamed(es, names) :: e.ip !in names && e in es
  {
    if es != [] {
      UnnamedIps(es[..|es| - 1], names);
    }
  }

  lemma {:induction false} ByIpIsLast(es: seq<Entry>, a: string)
    requires Has(es, a)
    ensures ByIp(es)[a] in es && ByIp(es)[a].ip == a
  {
    var n := |es| - 1;
    if es[n].ip != a {
      var i :| 0 <= i < |es| && es[i].ip == a;
      assert es[..n][i].ip == a;
      ByIpIsLast(es[..n], a);
    }
  }

  /** The entry in the map is the last one with its address. */
  lemma {:induction false} LastEntryWins(es: seq<Entry>, i: nat)
    requires i < |es| && forall j | i < j < |es| :: es[j].ip != es[i].ip
    ensures es[i].ip in ByIp(es) && ByIp(es)[es[i].ip] == es[i]
  {
    if i < |es| - 1 {
      LastEntryWins(es[..|es| - 1], i);
    }
  }

  lemma {:induction false} NamedIps(es: seq<Entry>, names: seq<string>)
    ensures forall e | e in Named(es, names) :: e.ip in names && e.ip in ByIp(es) && ByIp(es)[e.ip] == e
  {
    if names != [] {
      var n := |names| - 1;
      NamedIps(es, names[..n]);
      if names[n] in ByIp(es) {
        ByIpIsLast(es, names[n]);
      }
    }
  }

  // ---- how often an entry comes out ----

  lemma CountSnoc<T>(s: seq<T>, x: T, e: T)
    ensures multiset(s + [x])[e] == multiset(s)[e] + if x == e then 1 else 0
  {
  }

  lemma {:induction false} UnnamedCount(es: seq<Entry>, names: seq<string>, e: Entry)
    ensures multiset(Unnamed(es, names))[e] == if e.ip in names then 0 else multiset(es)[e]
  {
    if es != [] {
      var n := |es| - 1;
      UnnamedCount(es[..n], names, e);
      assert es == es[..n] + [es[n]];
      UnnamedSnoc(es, names, e);
      CountSnoc(es[..n], es[n], e);
    }
  }

  lemma UnnamedSnoc(es: seq<Entry>, names: seq<string>, e: Entry)
    requires es != []
    ensures var last := es[|es| - 1];
            multiset(Unnamed(es, names))[e]
            == multiset(Unnamed(es[..|es| - 1], names))[e] + if last.ip !in names && last == e then 1 else 0
  {
    CountSnoc(Unnamed(es[..|es| - 1], names), es[|es| - 1], e);
  }

  lemma {:induction false} NamedCount(es: seq<Entry>, names: seq<string>, e: Entry)
    ensures multiset(Named(es, names))[e]
         == if e.ip in names && e.ip in ByIp(es) && ByIp(es)[e.ip] == e then 1 else 0
  {
    if names != [] {
      var n := |names| - 1;
      NamedCount(es, names[..n], e);
      assert names == names[..n] + [names[n]];
      if names[n] in ByIp(es) {
        ByIpIsLast(es, names[n]);
        CountSnoc(Named(es, names[..n]), ByIp(es)[names[n]], e);
      }
    }
  }

  lemma {:induction false} LastOfOnce(es: seq<Entry>, names: seq<string>, e: Entry)
    requires NamedOnce(es, names) && e.ip in names
    ensures multiset(es)[e] == if e.ip in ByIp(es) && ByIp(es)[e.ip] == e then 1 else 0
  {
    if es != [] {
      var n := |es| - 1;
      assert es == es[..n] + [es[n]];
      assert NamedOnce(es[..n], names);
      LastOfOnce(es[..n], names, e);
      CountSnoc(es[..n], es[n], e);
      if es[n].ip == e.ip && Has(es[..n], e.ip) {
        var i :| 0 <= i < n && es[..n][i].ip == e.ip;
      }
    }
  }

  lemma CountTwice(es: seq<Entry>, i: nat, j: nat)
    requires i < j < |es| && es[i] == es[j]
    ensures multiset(es)[es[i]] >= 2
  {
    assert es == es[..j] + [es[j]] + es[j + 1..];
    assert es[i] in es[..j];
    assert multiset(es[..j])[es[i]] >= 1;
  }

  /** Reordering loses, doubles and changes no server exactly when no named
      address is stored twice. (It is stated that no server gets lost; for a
      doubled address that is named, all but the last entry are dropped.) */
  lemma ReorderIsPermutation(es: seq<Entry>, names: seq<string>)
    ensures multiset(Reordered(es, names)) == multiset(es) <==> NamedOnce(es, names)
  {
    if NamedOnce(es, names) {
      forall e: Entry ensures multiset(Reordered(es, names))[e] == multiset(es)[e] {
        ReorderedCount(es, names, e);
        if e.ip in names {
          LastOfOnce(es, names, e);
        }
      }
    } else {
      DoubledIsLost(es, names);
    }
  }

  lemma ReorderedCount(es: seq<Entry>, names: seq<string>, e: Entry)
    ensures multiset(Reordered(es, names))[e]
         == if e.ip in names then (if e.ip in ByIp(es) && ByIp(es)[e.ip] == e then 1 else 0) else multiset(es)[e]
  {
    UnnamedCount(es, names, e);
    NamedCount(es, names, e);
    assert multiset(Reordered(es, names)) == multiset(Named(es, names)) + multiset(Unnamed(es, names));
  }

  lemma DoubledIsLost(es: seq<Entry>, names: seq<string>)
    requires !NamedOnce(es, names)
    ensures multiset(Reordered(es, names)) != multiset(es)
  {
    var i, j :| 0 <= i < j < |es| && es[i].ip == es[j].ip && es[i].ip in names;
    if es[i] == es[j] {
      CountTwice(es, i, j);
      ReorderedCount(es, names, es[i]);
    } else {
      var e := if ByIp(es)[es[i].ip] == es[i] then es[j] else es[i];
      assert multiset(es)[e] > 0;
      ReorderedCount(es, names, e);
    }
  }

  /** Two entries with one address: naming it drops the first of them. */
  lemma DoubledAddressLosesAServer()
    ensures var es := [Entry("first", "play.example", ""), Entry("second", "play.example", "")];
            Reordered(es, ["play.example"]) == [Entry("second", "play.example", "")]
  {
    var a, b := Entry("first", "play.example", ""), Entry("second", "play.example", "");
    var es, names := [a, b], ["play.example"];
    assert es[..1] == [a] && names[..0] == [];
    assert ByIp(es)["play.example"] == b;
    assert Named(es, names) == [b];
    assert Unnamed([a], names) == [];
  }

  // ---- order ----

  /** The position of the first mention; everything not named comes behind. */
  function Rank(names: seq<string>, a: string): (r: nat)
    ensures r <= |names|
    ensures r < |names| ==> names[r] == a && a !in names[..r]
    ensures r == |names| ==> a !in names
  {
    if names == [] then 0
    else
      var n := |names| - 1;
      if Rank(names[..n], a) < n then Rank(names[..n], a) else if names[n] == a then n else n + 1
  }

  lemma RankOfEarlier(names: seq<string>, a: string)
    requires names != [] && a in names[..|names| - 1]
    ensures Rank(names, a) == Rank(names[..|names| - 1], a) < |names| - 1
  {
  }

  ghost predicate StrictlyRanked(out: seq<Entry>, names: seq<string>) {
    && (forall k | 0 <= k < |out| :: Rank(names, out[k].ip) < |names|)
    && forall i, j | 0 <= i < j < |out| :: Rank(names, out[i].ip) < Rank(names, out[j].ip)
  }

  lemma {:induction false} NamedIsRanked(es: seq<Entry>, names: seq<string>)
    ensures StrictlyRanked(Named(es, names), names)
  {
    if names != [] {
      var n := |names| - 1;
      var before := Named(es, names[..n]);
      NamedIsRanked(es, names[..n]);
      NamedIps(es, names[..n]);
      forall k | 0 <= k < |before| ensures Rank(names, before[k].ip) == Rank(names[..n], before[k].ip) < n {
        assert before[k] in before;
        RankOfEarlier(names, before[k].ip);
      }
      assert StrictlyRanked(before, names);
      if names[n] in ByIp(es) && names[n] !in names[..n] {
        ByIpIsLast(es, names[n]);
        RankedSnoc(before, names, ByIp(es)[names[n]]);
      }
    }
  }

  lemma RankedSnoc(out: seq<Entry>, names: seq<string>, e: Entry)
    requires names != [] && StrictlyRanked(out, names) && e.ip == names[|names| - 1] && e.ip !in names[..|names| - 1]
    requires forall k | 0 <= k < |out| :: Rank(names, out[k].ip) < |names| - 1
    ensures StrictlyRanked(out + [e], names)
  {
    assert Rank(names, e.ip) == |names| - 1;
  }

  lemma RestIsRankedLast(es: seq<Entry>, names: seq<string>, k: nat)
    requires k < |Unnamed(es, names)|
    ensures Rank(names, Unnamed(es, names)[k].ip) == |names|
  {
    UnnamedIps(es, names);
    assert Unnamed(es, names)[k] in Unnamed(es, names);
  }

  ghost predicate Ranked(out: seq<Entry>, names: seq<string>) {
    forall i, j | 0 <= i < j < |out| ::
      Rank(names, out[i].ip) < Rank(names, out[j].ip) || Rank(names, out[i].ip) == Rank(names, out[j].ip) == |names|
  }

  /** Named servers come first, in the order of first mention, and strictly so;
      behind them come the others in their old relative order. */
  lemma ReorderedIsRanked(es: seq<Entry>, names: seq<string>)
    ensures Ranked(Reordered(es, names), names)
    ensures Unnamed(Reordered(es, names), names) == Unnamed(es, names)
  {
    var named, rest := Named(es, names), Unnamed(es, names);
    var out := named + rest;
    NamedIsRanked(es, names);
    forall i, j | 0 <= i < j < |out|
      ensures Rank(names, out[i].ip) < Rank(names, out[j].ip) || Rank(names, out[i].ip) == Rank(names, out[j].ip) == |names|
    {
      assert i < |named| ==> out[i] == named[i];
      if j < |named| {
        assert out[j] == named[j];
      } else {
        RestIsRankedLast(es, names, j - |named|);
        if i >= |named| {
          RestIsRankedLast(es, names, i - |named|);
        }
      }
    }
    RestOfReordered(es, names);
  }

  lemma RestOfReordered(es: seq<Entry>, names: seq<string>)
    ensures Unnamed(Reordered(es, names), names) == Unnamed(es, names)
  {
    NamedIps(es, names);
    NoneUnnamed(Named(es, names), names);
    UnnamedTwice(es, names);
    UnnamedConcat(Named(es, names), Unnamed(es, names), names);
  }

  /** `at` lists, in increasing order, exactly the positions of the entries that nothing names. */
  ghost predicate RestAt(es: seq<Entry>, names: seq<string>, at: seq<nat>) {
    && (forall i, j | 0 <= i < j < |at| :: at[i] < at[j])
    && (forall k | 0 <= k < |at| :: at[k] < |es| && es[at[k]].ip !in names)
    && forall i: nat | i < |es| && es[i].ip !in names :: i in at
  }

  /** `rest` has the entries at these positions. */
  ghost predicate TakenFrom(es: seq<Entry>, at: seq<nat>, rest: seq<Entry>) {
    |rest| == |at| && forall k | 0 <= k < |at| :: at[k] < |es| && rest[k] == es[at[k]]
  }

  lemma {:induction false} RestKeepsOrder(es: seq<Entry>, names: seq<string>) returns (at: seq<nat>)
    ensures RestAt(es, names, at) && TakenFrom(es, at, Unnamed(es, names))
  {
    at := [];
    if es != [] {
      var n := |es| - 1;
      at := RestKeepsOrder(es[..n], names);
      TakenOneMore(es, at, Unnamed(es[..n], names));
      if es[n].ip in names {
        RestSame(es, names, at);
      } else {
        RestSnoc(es, names, at);
        at := at + [n];
      }
    }
  }

  lemma TakenOneMore(es: seq<Entry>, at: seq<nat>, rest: seq<Entry>)
    requires es != [] && TakenFrom(es[..|es| - 1], at, rest)
    ensures TakenFrom(es, at, rest) && TakenFrom(es, at + [|es| - 1], rest + [es[|es| - 1]])
  {
  }

  lemma RestSame(es: seq<Entry>, names: seq<string>, at: seq<nat>)
    requires es != [] && RestAt(es[..|es| - 1], names, at) && es[|es| - 1].ip in names
    ensures RestAt(es, names, at)
  {
    forall i: nat | i < |es| && es[i].ip !in names ensures i in at {
      assert es[..|es| - 1][i] == es[i];
    }
  }

  lemma RestSnoc(es: seq<Entry>, names: seq<string>, at: seq<nat>)
    requires es != [] && RestAt(es[..|es| - 1], names, at) && es[|es| - 1].ip !in names
    ensures RestAt(es, names, at + [|es| - 1])
  {
    var n, more := |es| - 1, at + [|es| - 1];
    forall i: nat | i < |es| && es[i].ip !in names ensures i in more {
      if i < n {
        assert es[..n][i] == es[i] && i in at;
      } else {
        assert more[|at|] == n;
      }
    }
  }

  /** Behind the named servers come exactly those that nothing names, in their old order,
      each once. */
  lemma RestComesLast(es: seq<Entry>, names: seq<string>)
    ensures exists at, k: nat :: RestAt(es, names, at) && k <= |Reordered(es, names)| && TakenFrom(es, at, Reordered(es, names)[k..])
  {
    var at := RestKeepsOrder(es, names);
    var k := |Named(es, names)|;
    assert Reordered(es, names)[k..] == Unnamed(es, names);
  }

  lemma {:induction false} UnnamedConcat(a: seq<Entry>, b: seq<Entry>, names: seq<string>)
    ensures Unnamed(a + b, names) == Unnamed(a, names) + Unnamed(b, names)
  {
    if b == [] {
      assert a + b == a;
    } else {
      var n := |b| - 1;
      assert (a + b)[..|a + b| - 1] == a + b[..n];
      UnnamedConcat(a, b[..n], names);
    }
  }

  lemma {:induction false} NoneUnnamed(a: seq<Entry>, names: seq<string>)
    requires forall e | e in a :: e.ip in names
    ensures Unnamed(a, names) == []
  {
    if a != [] {
      NoneUnnamed(a[..|a| - 1], names);
    }
  }

  lemma {:induction false} UnnamedTwice(es: seq<Entry>, names: seq<string>)
    ensures Unnamed(Unnamed(es, names), names) == Unnamed(es, names)
  {
    if es != [] {
      var first := Unnamed(es[..|es| - 1], names);
      UnnamedTwice(es[..|es| - 1], names);
      assert first + [] == first;
      OneMoreUnnamed(first, es[|es| - 1], names);
    }
  }

  lemma OneMoreUnnamed(a: seq<Entry>, e: Entry, names: seq<string>)
    ensures Unnamed(a + [e], names) == Unnamed(a, names) + if e.ip in names then [] else [e]
  {
    assert (a + [e])[..|a|] == a;
  }

  lemma {:induction false} ByIpConcat(a: seq<Entry>, b: seq<Entry>)
    ensures ByIp(a + b) == ByIp(a) + ByIp(b)
  {
    if b == [] {
      assert a + b == a;
    } else {
      var n := |b| - 1;
      assert (a + b)[..|a + b| - 1] == a + b[..n];
      ByIpConcat(a, b[..n]);
    }
  }

  lemma {:induction false} ByIpOfNamed(es: seq<Entry>, names: seq<string>, a: string)
    ensures a in ByIp(Named(es, names)) <==> a in names && a in ByIp(es)
    ensures a in names && a in ByIp(es) ==> ByIp(Named(es, names))[a] == ByIp(es)[a]
  {
    var named := Named(es, names);
    NamedIps(es, names);
    if a in ByIp(named) {
      ByIpIsLast(named, a);
    }
    if a in names && a in ByIp(es) {
      ByIpIsLast(es, a);
      NamedCount(es, names, ByIp(es)[a]);
      assert ByIp(es)[a] in named;
      var i :| 0 <= i < |named| && named[i] == ByIp(es)[a];
      assert Has(named, a);
    }
  }

  lemma {:induction false} NamedDependsOnByIp(es: seq<Entry>, es': seq<Entry>, names: seq<string>)
    requires forall a | a in names :: (a in ByIp(es) <==> a in ByIp(es')) && (a in ByIp(es) ==> ByIp(es)[a] == ByIp(es')[a])
    ensures Named(es, names) == Named(es', names)
  {
    if names != [] {
      NamedDependsOnByIp(es, es', names[..|names| - 1]);
    }
  }

  /** Reordering twice with the same list is reordering once. */
  lemma ReorderTwice(es: seq<Entry>, names: seq<string>)
    ensures Reordered(Reordered(es, names), names) == Reordered(es, names)
  {
    var named, rest := Named(es, names), Unnamed(es, names);
    RestOfReordered(es, names);
    UnnamedIps(es, names);
    ByIpConcat(named, rest);
    forall a | a in names
      ensures (a in ByIp(es) <==> a in ByIp(named + rest)) && (a in ByIp(es) ==> ByIp(es)[a] == ByIp(named + rest)[a])
    {
      ByIpOfNamed(es, names, a);
      if a in ByIp(rest) {
        ByIpIsLast(rest, a);
      }
    }
    NamedDependsOnByIp(es, named + rest, names);
  }

  // -------------------------------------------------------------------------
  // The files and the program's loops
  // -------------------------------------------------------------------------

  /** The servers.dat files by pack; a missing file cannot be read, and a write
      succeeds or leaves the old file in place. */
  class Store {
    var files: map<string, seq<Entry>>
    var writable: bool
    var writes: nat

    method SaveServersDat(pack: string, es: seq<Entry>) returns (ok: bool)
      modifies this
      ensures ok == writable == old(writable) && writes == old(writes) + 1
      ensures files == if ok then old(files)[pack := es] else old(files)
    {
      ok := writable;
      writes := writes + 1;
      if ok {
        files := files[pack := es];
      }
    }

    /** `byIP[e.IP] = e` for every entry. */
    method IndexByIp(es: seq<Entry>) returns (byIp: map<string, Entry>)
      ensures byIp == ByIp(es)
    {
      byIp := map[];
      for i := 0 to |es|
        invariant byIp == ByIp(es[..i])
      {
        assert es[..i + 1][..i] == es[..i];
        byIp := byIp[es[i].ip := es[i]];
      }
      assert es[..|es|] == es;
    }

    /** The loop over the requested addresses. */
    method PickNamed(entries: seq<Entry>, byIp: map<string, Entry>, addresses: seq<string>)
      returns (out: seq<Entry>, used: set<string>)
      requires byIp == ByIp(entries)
      ensures out == Named(entries, addresses)
      ensures forall a :: a in used <==> a in addresses && a in byIp
    {
      used, out := {}, [];
      for i := 0 to |addresses|
        invariant out == Named(entries, addresses[..i])
        invariant forall a :: a in used <==> a in addresses[..i] && a in byIp
      {
        var addr := addresses[i];
        assert addresses[..i + 1][..i] == addresses[..i];
        if addr in byIp && addr !in used {
          out := out + [byIp[addr]];
          used := used + {addr};
        }
      }
      assert addresses[..|addresses|] == addresses;
    }

    method ReorderPackServers(pack: string, addresses: seq<string>) returns (ok: bool)
      modifies this
      ensures ok <==> pack in old(files) && writable
      ensures files == if ok then old(files)[pack := Reordered(old(files)[pack], addresses)] else old(files)
    {
      if pack !in files {
        return false;
      }
      var entries := files[pack];
      var byIp := IndexByIp(entries);
      var out, used := PickNamed(entries, byIp, addresses);
      for i := 0 to |entries|
        invariant out == Named(entries, addresses) + Unnamed(entries[..i], addresses)
      {
        assert entries[..i + 1][..i] == entries[..i];
        assert Has(entries, entries[i].ip);
        if entries[i].ip !in used {
          out := out + [entries[i]];
        }
      }
      assert entries[..|entries|] == entries;
      ok := SaveServersDat(pack, out);
    }
  }
}
