/**
 * Installing a Modrinth version together with its required dependencies
 * (`installBrowserVersionDeps`, backend/browser_api.go). Dependencies may form
 * cycles; downloads may fail and are then logged and passed over.
 */
module VersionDeps {
  import opened Common
  import opened Reach

  type VersionId = string

  datatype File = File(url: string, fileName: string, primary: bool, fileType: string)
  datatype Dependency = Dependency(kind: string, versionId: VersionId, projectId: string)
  datatype Version = Version(files: seq<File>, dependencies: seq<Dependency>)
  datatype Listed = Listed(id: VersionId, channel: string)

  /** What comes back when one dependency is looked up: the versions of its project
      that fit the pack, newest first (none if that request fails), and whether the
      request for the version works. */
  datatype Reply = Reply(fitting: seq<Listed>, works: bool)

  /** The service: the versions it knows, and its reply to each lookup. A version is
      entered at most once, so each of its dependencies is looked up at most once, and
      a reply belongs to one lookup: the same version can be out of reach for one
      dependency and be found for another. `rootWorks` is the first request. */
  datatype Catalog = Catalog(versions: map<VersionId, Version>, reply: (VersionId, nat) -> Reply, rootWorks: bool)

  // -------------------------------------------------------------------------
  // Resolving a dependency
  // -------------------------------------------------------------------------

  datatype Resolution = Resolved(id: VersionId) | Nothing | Failed

  /** Whether `v` is the first of the list on its channel. */
  predicate FirstOn(vs: seq<Listed>, k: nat, channel: string) {
    k < |vs| && vs[k].channel == channel && forall j | 0 <= j < k :: vs[j].channel != channel
  }

  predicate NoneOn(vs: seq<Listed>, channel: string) {
    forall j | 0 <= j < |vs| :: vs[j].channel != channel
  }

  /** The best version: the first release, else the first beta, else the first
      alpha, else the first of all. */
  ghost predicate IsBest(vs: seq<Listed>, k: nat) {
    || FirstOn(vs, k, "release")
    || (NoneOn(vs, "release") && FirstOn(vs, k, "beta"))
    || (NoneOn(vs, "release") && NoneOn(vs, "beta") && FirstOn(vs, k, "alpha"))
    || (NoneOn(vs, "release") && NoneOn(vs, "beta") && NoneOn(vs, "alpha") && k == 0 && vs != [])
  }

  lemma BestIsUnique(vs: seq<Listed>, j: nat, k: nat)
    requires IsBest(vs, j) && IsBest(vs, k)
    ensures j == k
  {
  }

  /** One pass over the list, as the program makes it. */
  method PickBestVersion(vs: seq<Listed>) returns (best: Option<nat>)
    ensures best.None? <==> vs == []
    ensures best.Some? ==> best.value < |vs| && IsBest(vs, best.value)
  {
    var beta: Option<nat>, alpha: Option<nat> := None, None;
    for i := 0 to |vs|
      invariant NoneOn(vs[..i], "release")
      invariant if beta.Some? then FirstOn(vs, beta.value, "beta") else NoneOn(vs[..i], "beta")
      invariant if alpha.Some? then FirstOn(vs, alpha.value, "alpha") else NoneOn(vs[..i], "alpha")
    {
      if vs[i].channel == "release" {
        assert FirstOn(vs, i, "release");
        return Some(i);
      } else if vs[i].channel == "beta" {
        if beta == None { beta := Some(i); }
      } else if vs[i].channel == "alpha" {
        if alpha == None { alpha := Some(i); }
      }
    }
    assert vs[..|vs|] == vs;
    if beta.Some? { return beta; }
    if alpha.Some? { return alpha; }
    if |vs| > 0 { return Some(0); }
    return None;
  }

  /** A dependency names a version, or a project whose best fitting version is taken. */
  ghost predicate ResolvesTo(c: Catalog, d: Dependency, r: Reply, to: VersionId) {
    && r.works && to in c.versions
    && (if d.versionId != "" then to == d.versionId
        else d.projectId != "" && exists k: nat :: k < |r.fitting| && IsBest(r.fitting, k) && r.fitting[k].id == to)
  }

  lemma ResolvesToOne(c: Catalog, d: Dependency, r: Reply, a: VersionId, b: VersionId)
    requires ResolvesTo(c, d, r, a) && ResolvesTo(c, d, r, b)
    ensures a == b
  {
    if d.versionId == "" {
      var j: nat :| j < |r.fitting| && IsBest(r.fitting, j) && r.fitting[j].id == a;
      var k: nat :| k < |r.fitting| && IsBest(r.fitting, k) && r.fitting[k].id == b;
      BestIsUnique(r.fitting, j, k);
    }
  }

  method ResolveDependency(c: Catalog, d: Dependency, reply: Reply) returns (r: Resolution)
    ensures r.Resolved? ==> ResolvesTo(c, d, reply, r.id)
    ensures !r.Resolved? ==> forall to :: !ResolvesTo(c, d, reply, to)
    ensures r.Nothing? <==> d.versionId == "" && d.projectId == ""
  {
    if d.versionId != "" {
      return if reply.works && d.versionId in c.versions then Resolved(d.versionId) else Failed;
    }
    if d.projectId == "" {
      return Nothing;
    }
    var vs := reply.fitting;
    if vs == [] {
      return Failed;
    }
    var best := PickBestVersion(vs);
    forall k | 0 <= k < |vs| && IsBest(vs, k) ensures k == best.value {
      BestIsUnique(vs, k, best.value);
    }
    if reply.works && vs[best.value].id in c.versions {
      return Resolved(vs[best.value].id);
    }
    return Failed;
  }

  // -------------------------------------------------------------------------
  // Files
  // -------------------------------------------------------------------------

  /** The file to install: the first that is marked primary, else the first of all. */
  predicate PrimaryAt(v: Version, k: nat) {
    && k < |v.files|
    && (|| (v.files[k].primary && forall j | 0 <= j < k :: !v.files[j].primary)
        || (k == 0 && forall j | 0 <= j < |v.files| :: !v.files[j].primary))
  }

  lemma PrimaryIsUnique(v: Version, j: nat, k: nat)
    requires PrimaryAt(v, j) && PrimaryAt(v, k)
    ensures j == k
  {
  }

  method BrowserPrimaryFile(v: Version) returns (f: Option<File>)
    ensures f == None <==> v.files == []
    ensures f.Some? ==> exists k: nat :: PrimaryAt(v, k) && f.value == v.files[k]
  {
    for i := 0 to |v.files|
      invariant forall j | 0 <= j < i :: !v.files[j].primary
    {
      if v.files[i].primary {
        assert PrimaryAt(v, i);
        return Some(v.files[i]);
      }
    }
    assert |v.files| > 0 ==> PrimaryAt(v, 0);
    return if |v.files| > 0 then Some(v.files[0]) else None;
  }

  function WithoutSlashes(s: string): (t: string)
    ensures |t| == |s|
  {
    seq(|s|, i requires 0 <= i < |s| => if s[i] == '\\' || s[i] == '/' then '_' else s[i])
  }

  /** `cleaned` is the name after `safeModFileName`. */
  function SafeFileName(cleaned: string, fallback: string): string {
    var name := Trim(WithoutSlashes(cleaned));
    if name in {"", ".", ".."} then fallback else name
  }

  /** A name that stays in its folder: no slashes, no white space at the ends, and not one
      of the two names of folders; else the fallback is taken. */
  lemma SafeFileNameExactly(cleaned: string, fallback: string)
    ensures var name, r := Trim(WithoutSlashes(cleaned)), SafeFileName(cleaned, fallback);
            && IsTrimmed(WithoutSlashes(cleaned), name)
            && '/' !in name && '\\' !in name
            && r == (if name == "" || name == "." || name == ".." then fallback else name)
    ensures forall i | 0 <= i < |cleaned| ::
              WithoutSlashes(cleaned)[i] == if cleaned[i] in {'/', '\\'} then '_' else cleaned[i]
  {
    TrimExactly(WithoutSlashes(cleaned));
    PartOf(WithoutSlashes(cleaned), Trim(WithoutSlashes(cleaned)), '/');
    PartOf(WithoutSlashes(cleaned), Trim(WithoutSlashes(cleaned)), '\\');
  }

  lemma PartOf(s: string, t: string, c: char)
    requires IsTrimmed(s, t) && c !in s
    ensures c !in t
  {
    var front, back :| AllSpace(front) && AllSpace(back) && s == front + t + back;
    forall i | 0 <= i < |t| ensures t[i] != c {
      assert s[|front| + i] == t[i];
    }
  }

  /** A file of a pack: there before, downloaded as a whole, or what a failed download left. */
  datatype Content = Before | Whole(url: string) | Part

  /** Nothing of `a` was removed or replaced. */
  ghost predicate Kept(a: map<string, Content>, b: map<string, Content>) {
    forall p | p in a :: p in b && b[p] == a[p]
  }

  /** The files of a pack by relative path; every outcome of a download or of
      creating a directory is possible. A failed download may leave a file. `failLog`
      and `noDir` record what failed. */
  class GameDir {
    var files: map<string, Content>
    const clean: string -> string
    ghost var failLog: seq<string>
    ghost var noDir: nat

    method Download(path: string, url: string) returns (ok: bool)
      modifies this
      ensures if ok then files == old(files)[path := Whole(url)] else files == old(files) || files == old(files)[path := Part]
      ensures failLog == if ok then old(failLog) else old(failLog) + [path]
      ensures noDir == old(noDir)
    {
      ok := *;
      var left: bool := *;
      if ok {
        files := files[path := Whole(url)];
      } else {
        failLog := failLog + [path];
        if left {
          files := files[path := Part];
        }
      }
    }

    method MkdirAll() returns (ok: bool)
      modifies this`noDir
      ensures noDir == if ok then old(noDir) else old(noDir) + 1
    {
      ok := *;
      if !ok {
        noDir := noDir + 1;
      }
    }
  }

  /** The downloads that failed since the log had `n` entries. */
  ghost function FailedSince(log: seq<string>, n: nat): set<string> {
    set k | n <= k < |log| :: log[k]
  }

  lemma FailedMore(log: seq<string>, n: nat, path: string)
    requires n <= |log|
    ensures FailedSince(log + [path], n) == FailedSince(log, n) + {path}
  {
    var more := log + [path];
    assert more[|log|] == path;
    forall p | p in FailedSince(log, n) ensures p in FailedSince(more, n) {
      var k :| n <= k < |log| && log[k] == p;
      assert more[k] == p;
    }
  }

  /** Where the main file of a version goes. */
  function ModPath(clean: string -> string, id: VersionId, f: File): string {
    "mods/" + SafeFileName(clean(f.fileName), id + ".jar")
  }

  function CompanionPath(clean: string -> string, f: File): string {
    "resourcepacks/" + SafeFileName(clean(f.fileName), "resourcepack.zip")
  }

  const COMPANION := "required-resource-pack"

  // -------------------------------------------------------------------------
  // The graph
  // -------------------------------------------------------------------------

  /** The `i`-th dependency of `from` is required and resolves to `to`. */
  ghost predicate LooksUp(c: Catalog, from: VersionId, i: nat, to: VersionId) {
    && from in c.versions && i < |c.versions[from].dependencies|
    && c.versions[from].dependencies[i].kind == "required"
    && ResolvesTo(c, c.versions[from].dependencies[i], c.reply(from, i), to)
  }

  /** `from` has a required dependency that resolves to `to`. */
  ghost predicate Requires(c: Catalog, from: VersionId, to: VersionId) {
    exists i: nat :: LooksUp(c, from, i, to)
  }

  /** What the first `n` dependencies of a version resolve to has been seen. */
  ghost predicate Followed(c: Catalog, id: VersionId, n: nat, seen: set<VersionId>) {
    forall i, to | 0 <= i < n && LooksUp(c, id, i, to) :: to in seen
  }

  lemma FollowedMore(c: Catalog, id: VersionId, n: nat, before: set<VersionId>, seen: set<VersionId>)
    requires Followed(c, id, n, before) && before <= seen && forall to | LooksUp(c, id, n, to) :: to in seen
    ensures Followed(c, id, n + 1, seen)
  {
  }

  ghost function Edge(c: Catalog): (VersionId, VersionId) -> bool {
    (a, b) => Requires(c, a, b)
  }

  ghost function In(s: set<VersionId>): VersionId -> bool {
    a => a in s
  }

  ghost predicate Needed(c: Catalog, root: VersionId, entered: set<VersionId>, v: VersionId) {
    Reachable(Edge(c), In(entered), root, v)
  }

  ghost predicate HasFile(v: Version) {
    exists k: nat :: PrimaryAt(v, k) && v.files[k].url != ""
  }

  lemma NeededGrows(c: Catalog, root: VersionId, e: set<VersionId>, e': set<VersionId>, v: VersionId)
    requires Needed(c, root, e, v) && e <= e'
    ensures Needed(c, root, e', v)
  {
    var p :| IsPath(Edge(c), In(e), p) && p[0] == root && p[|p| - 1] == v;
    assert IsPath(Edge(c), In(e'), p);
  }

  // -------------------------------------------------------------------------
  // The search
  // -------------------------------------------------------------------------

  /** A moment of the search: the versions `seen`, those `entered`, the paths whose
      download has failed, the log of versions `tried`, the files there, the names reported as installed,
      and the paths that were downloaded. */
  datatype Moment = Moment(
    seen: set<VersionId>,
    entered: set<VersionId>,
    failed: set<string>,
    tried: seq<VersionId>,
    files: map<string, Content>,
    installed: seq<string>,
    got: seq<string>)

  /** Every seen version but the root was tried exactly once. */
  ghost predicate TriedOnce(root: VersionId, m: Moment) {
    && root in m.seen && m.entered <= m.seen
    && Distinct(m.tried) && forall v :: v in m.tried <==> v in m.seen && v != root
  }

  lemma TriedOneMore(root: VersionId, m: Moment, u: VersionId)
    requires TriedOnce(root, m) && u !in m.seen
    ensures TriedOnce(root, m.(seen := m.seen + {u}, tried := m.tried + [u]))
  {
    var more := m.tried + [u];
    forall i, j | 0 <= i < j < |more| ensures more[i] != more[j] {
      assert m.tried[i] in m.tried;
    }
  }

  ghost predicate Later(a: Moment, b: Moment) {
    && a.seen <= b.seen && a.entered <= b.entered && a.failed <= b.failed
    && Kept(a.files, b.files)
    && a.installed <= b.installed && a.got <= b.got
  }

  // ---- the report ----

  /** Downloading the `k`-th file of the version `v` from `url` to `path` is reported as `name`. */
  ghost predicate FileFor(c: Catalog, clean: string -> string, v: VersionId, k: nat, path: string, url: string, name: string) {
    && v in c.versions && k < |c.versions[v].files|
    && var f := c.versions[v].files[k];
       && f.url == url
       && (|| (PrimaryAt(c.versions[v], k) && path == "mods/" + SafeFileName(clean(f.fileName), v + ".jar") && name == f.fileName)
           || (f.fileType == "required-resource-pack"
               && path == "resourcepacks/" + SafeFileName(clean(f.fileName), "resourcepack.zip")
               && name == "resourcepacks/" + f.fileName))
  }

  ghost predicate Reported(c: Catalog, clean: string -> string, seen: set<VersionId>, path: string, url: string, name: string) {
    exists v, k: nat :: v in seen && FileFor(c, clean, v, k, path, url, name)
  }

  /** The `i`-th name reported belongs to a file that was not there at the start, came whole
      from the right place, and is that of a version seen. */
  ghost predicate Booked(c: Catalog, clean: string -> string, start: map<string, Content>, m: Moment, i: nat) {
    && i < |m.got| && i < |m.installed|
    && m.got[i] !in start && m.got[i] in m.files && m.files[m.got[i]].Whole?
    && Reported(c, clean, m.seen, m.got[i], m.files[m.got[i]].url, m.installed[i])
  }

  /** The report is right: no file from before was touched, and what is reported are exactly
      the files that were downloaded whole, each once. */
  ghost predicate Books(c: Catalog, clean: string -> string, start: map<string, Content>, m: Moment) {
    && Kept(start, m.files)
    && |m.installed| == |m.got| && Distinct(m.got)
    && (forall i | 0 <= i < |m.got| :: Booked(c, clean, start, m, i))
    && forall p | p in m.files && p !in start :: m.files[p] == Part || p in m.got
  }

  lemma ReportedLater(c: Catalog, clean: string -> string, a: set<VersionId>, b: set<VersionId>, path: string, url: string, name: string)
    requires Reported(c, clean, a, path, url, name) && a <= b
    ensures Reported(c, clean, b, path, url, name)
  {
    var v, k: nat :| v in a && FileFor(c, clean, v, k, path, url, name);
    assert v in b;
  }

  /** Books stay right as long as files and report stay as they are. */
  lemma BooksStay(c: Catalog, clean: string -> string, start: map<string, Content>, a: Moment, b: Moment)
    requires Books(c, clean, start, a) && a.seen <= b.seen && b.files == a.files && b.installed == a.installed && b.got == a.got
    ensures Books(c, clean, start, b)
  {
    forall i | 0 <= i < |b.got| ensures Booked(c, clean, start, b, i) {
      assert Booked(c, clean, start, a, i);
      ReportedLater(c, clean, a.seen, b.seen, a.got[i], a.files[a.got[i]].url, a.installed[i]);
    }
  }

  /** A failed download that left something. */
  lemma BooksWithPart(c: Catalog, clean: string -> string, start: map<string, Content>, m: Moment, path: string)
    requires Books(c, clean, start, m) && path !in m.files
    ensures Books(c, clean, start, m.(files := m.files[path := Part]))
  {
    var b := m.(files := m.files[path := Part]);
    forall i | 0 <= i < |b.got| ensures Booked(c, clean, start, b, i) {
      assert Booked(c, clean, start, m, i);
    }
  }

  /** A download that worked and is reported. */
  lemma BooksWithMore(c: Catalog, clean: string -> string, start: map<string, Content>, m: Moment, path: string, url: string, name: string)
    requires Books(c, clean, start, m) && path !in m.files && Reported(c, clean, m.seen, path, url, name)
    ensures Books(c, clean, start, m.(files := m.files[path := Whole(url)], installed := m.installed + [name], got := m.got + [path]))
  {
    var b := m.(files := m.files[path := Whole(url)], installed := m.installed + [name], got := m.got + [path]);
    forall i | 0 <= i < |b.got| ensures Booked(c, clean, start, b, i) {
      assert i < |m.got| ==> Booked(c, clean, start, m, i);
    }
    forall i, j | 0 <= i < j < |b.got| ensures b.got[i] != b.got[j] {
      assert Booked(c, clean, start, m, i);
    }
    assert forall p | p in m.got :: p in b.got;
    assert b.got[|m.got|] == path;
  }

  // ---- how the search goes on ----

  /** All that entering `v` asks for: what it requires has been seen, and its
      companion files are there unless their download failed. */
  ghost predicate DoneWith(c: Catalog, clean: string -> string, m: Moment, v: VersionId) {
    && v in c.versions
    && (forall u | Requires(c, v, u) :: u in m.seen)
    && (forall f | f in c.versions[v].files && f.fileType == "required-resource-pack" ::
          CompanionPath(clean, f) in m.files.Keys + m.failed)
  }

  ghost predicate Installed(c: Catalog, clean: string -> string, m: Moment, v: VersionId) {
    v in c.versions && exists k: nat :: PrimaryAt(c.versions[v], k) && c.versions[v].files[k].url != ""
                                        && "mods/" + SafeFileName(clean(c.versions[v].files[k].fileName), v + ".jar") in m.files
  }

  /** It has no file to download, or its download failed. */
  ghost predicate OutOfReach(c: Catalog, clean: string -> string, m: Moment, v: VersionId)
    requires v in c.versions
  {
    !HasFile(c.versions[v])
    || exists k: nat :: PrimaryAt(c.versions[v], k)
                        && "mods/" + SafeFileName(clean(c.versions[v].files[k].fileName), v + ".jar") in m.failed
  }

  /** A seen version is reached through entered ones, and it is entered with its
      file there unless it has no file or its download failed. */
  ghost predicate Settled(c: Catalog, clean: string -> string, root: VersionId, m: Moment, v: VersionId) {
    && v in c.versions
    && Needed(c, root, m.entered, v)
    && (v in m.entered ==> Installed(c, clean, m, v) && DoneWith(c, clean, m, v))
    && (v !in m.entered ==> OutOfReach(c, clean, m, v))
  }

  /** Only versions seen for the first time are entered. */
  ghost predicate EnteredIsNew(a: Moment, b: Moment) {
    forall v | v in b.entered && v !in a.entered :: v in b.seen && v !in a.seen
  }

  ghost predicate Progress(c: Catalog, clean: string -> string, root: VersionId, a: Moment, b: Moment) {
    && Later(a, b)
    && EnteredIsNew(a, b)
    && forall v | v in b.seen - a.seen :: Settled(c, clean, root, b, v)
  }

  lemma SettledLater(c: Catalog, clean: string -> string, root: VersionId, a: Moment, b: Moment, v: VersionId)
    requires Settled(c, clean, root, a, v) && v in a.seen
    requires Later(a, b) && EnteredIsNew(a, b)
    ensures Settled(c, clean, root, b, v)
  {
    NeededGrows(c, root, a.entered, b.entered, v);
  }

  lemma ProgressChain(c: Catalog, clean: string -> string, root: VersionId, m0: Moment, m1: Moment, m2: Moment)
    requires Progress(c, clean, root, m0, m1) && Progress(c, clean, root, m1, m2)
    ensures Progress(c, clean, root, m0, m2)
  {
    forall v | v in m2.seen - m0.seen ensures Settled(c, clean, root, m2, v) {
      if v in m1.seen {
        SettledLater(c, clean, root, m1, m2, v);
      }
    }
  }

  lemma ProgressFrom(c: Catalog, clean: string -> string, root: VersionId, m0: Moment, m1: Moment, m2: Moment, u: VersionId)
    requires u !in m0.seen && m1.seen == m0.seen + {u} && m0.entered <= m1.entered <= m0.entered + {u}
    requires Later(m0, m1) && Progress(c, clean, root, m1, m2)
    requires Settled(c, clean, root, m2, u)
    ensures Progress(c, clean, root, m0, m2)
  {
  }

  lemma StaysOut(c: Catalog, clean: string -> string, root: VersionId, m0: Moment, m1: Moment, u: VersionId)
    requires u !in m0.seen && m1.seen == m0.seen + {u} && m1.entered == m0.entered && u !in m1.entered
    requires Later(m0, m1) && u in c.versions && Needed(c, root, m1.entered, u) && OutOfReach(c, clean, m1, u)
    ensures Progress(c, clean, root, m0, m1)
  {
  }

  class Installer {
    const c: Catalog
    const root: VersionId
    const dir: GameDir
    var seen: set<VersionId>
    var installed: seq<string>
    ghost const start: map<string, Content>
    ghost const failedBefore: nat
    ghost var entered: set<VersionId>
    ghost var tried: seq<VersionId>
    ghost var got: seq<string>

    constructor (c: Catalog, root: VersionId, dir: GameDir)
      ensures this.c == c && this.root == root && this.dir == dir && start == dir.files && failedBefore == |dir.failLog|
      ensures Now() == Moment({root}, {root}, {}, [], dir.files, [], [])
    {
      this.c, this.root, this.dir, this.start, failedBefore := c, root, dir, dir.files, |dir.failLog|;
      seen, installed, entered, tried, got := {root}, [], {root}, [], [];
    }

    ghost function Now(): Moment
      reads this, dir
    {
      Moment(seen, entered, FailedSince(dir.failLog, failedBefore), tried, dir.files, installed, got)
    }

    ghost predicate Right()
      reads this, dir
    {
      TriedOnce(root, Now()) && Books(c, dir.clean, start, Now()) && failedBefore <= |dir.failLog|
    }

    /** A file that is not there is downloaded, and reported if that works. */
    method Fetch(path: string, url: string, name: string) returns (ok: bool)
      requires Right() && path !in dir.files && Reported(c, dir.clean, seen, path, url, name)
      modifies this, dir
      ensures Right() && Later(old(Now()), Now())
      ensures Now() == old(Now()).(files := dir.files, installed := installed, got := got, failed := Now().failed)
      ensures path in if ok then dir.files.Keys else Now().failed
      ensures dir.noDir == old(dir.noDir)
    {
      ghost var before := Now();
      FailedMore(dir.failLog, failedBefore, path);
      ok := dir.Download(path, url);
      if ok {
        installed := installed + [name];
        got := got + [path];
        BooksWithMore(c, dir.clean, start, before, path, url, name);
      } else {
        BooksStay(c, dir.clean, start, before, before.(failed := Now().failed));
        BooksWithPart(c, dir.clean, start, before.(failed := Now().failed), path);
      }
    }

    /** The first loop of `walk`: the companion files of the version itself. */
    method Companions(id: VersionId) returns (ok: bool)
      requires Right() && id in c.versions && id in seen
      modifies this, dir
      ensures Right() && Later(old(Now()), Now())
      ensures Now() == old(Now()).(files := dir.files, failed := Now().failed, installed := installed, got := got)
      ensures ok <==> dir.noDir == old(dir.noDir)
      ensures ok ==> forall f | f in c.versions[id].files && f.fileType == COMPANION :: CompanionPath(dir.clean, f) in dir.files.Keys + Now().failed
    {
      var files := c.versions[id].files;
      for i := 0 to |files|
        invariant dir.noDir == old(dir.noDir)
        invariant Right() && Later(old(Now()), Now())
        invariant Now() == old(Now()).(files := dir.files, failed := Now().failed, installed := installed, got := got)
        invariant forall j | 0 <= j < i && files[j].fileType == COMPANION :: CompanionPath(dir.clean, files[j]) in dir.files.Keys + Now().failed
      {
        if files[i].fileType == COMPANION {
          var made := Companion(id, i);
          if !made {
            return false;
          }
        }
      }
      return true;
    }

    /** One companion file. */
    method Companion(id: VersionId, k: nat) returns (ok: bool)
      requires Right() && id in c.versions && id in seen && k < |c.versions[id].files| && c.versions[id].files[k].fileType == COMPANION
      modifies this, dir
      ensures Right() && Later(old(Now()), Now())
      ensures Now() == old(Now()).(files := dir.files, failed := Now().failed, installed := installed, got := got)
      ensures ok <==> dir.noDir == old(dir.noDir)
      ensures ok ==> CompanionPath(dir.clean, c.versions[id].files[k]) in dir.files.Keys + Now().failed
    {
      ok := dir.MkdirAll();
      if !ok {
        return;
      }
      var f := c.versions[id].files[k];
      var dest := CompanionPath(dir.clean, f);
      if dest !in dir.files {
        assert FileFor(c, dir.clean, id, k, dest, f.url, "resourcepacks/" + f.fileName);
        var _ := Fetch(dest, f.url, "resourcepacks/" + f.fileName);
      }
    }

    /** `walk`: the companions of an entered version, then its dependencies. */
    method Walk(id: VersionId) returns (ok: bool)
      requires id in c.versions && id in seen && id in entered && Needed(c, root, entered, id)
      requires Right()
      modifies this, dir
      ensures Right() && Later(old(Now()), Now())
      ensures ok <==> dir.noDir == old(dir.noDir)
      ensures ok ==> Progress(c, dir.clean, root, old(Now()), Now()) && DoneWith(c, dir.clean, Now(), id)
      decreases c.versions.Keys - seen, 2
    {
      var fv := c.versions[id];
      ok := Companions(id);
      if ok {
        ghost var companions := Now();
        ok := Dependencies(id, fv.dependencies);
        if ok {
          RequiredAreSeen(c, id, seen);
        }
      }
    }

    /** The second loop of `walk`. */
    method Dependencies(id: VersionId, deps: seq<Dependency>) returns (ok: bool)
      requires id in c.versions && id in seen && id in entered && Needed(c, root, entered, id)
      requires deps == c.versions[id].dependencies
      requires Right()
      modifies this, dir
      ensures Right() && Later(old(Now()), Now())
      ensures ok <==> dir.noDir == old(dir.noDir)
      ensures ok ==> Progress(c, dir.clean, root, old(Now()), Now())
      ensures ok ==> Followed(c, id, |deps|, seen)
      decreases c.versions.Keys - seen, 1, 1
    {
      for i := 0 to |deps|
        invariant dir.noDir == old(dir.noDir)
        invariant Right()
        invariant Progress(c, dir.clean, root, old(Now()), Now())
        invariant Followed(c, id, i, seen)
      {
        ghost var before := Now();
        NeededGrows(c, root, old(entered), entered, id);
        ok := Follow(id, i);
        if !ok {
          return;
        }
        ProgressChain(c, dir.clean, root, old(Now()), before, Now());
        FollowedMore(c, id, i, before.seen, seen);
      }
      ok := true;
    }

    /** One round of that loop. */
    method Follow(id: VersionId, i: nat) returns (ok: bool)
      requires id in c.versions && id in seen && id in entered && Needed(c, root, entered, id)
      requires i < |c.versions[id].dependencies|
      requires Right()
      modifies this, dir
      ensures Right() && Later(old(Now()), Now())
      ensures ok <==> dir.noDir == old(dir.noDir)
      ensures ok ==> Progress(c, dir.clean, root, old(Now()), Now())
      ensures ok ==> forall to | LooksUp(c, id, i, to) :: to in seen
      decreases c.versions.Keys - seen, 1, 0
    {
      ok := true;
      var d := c.versions[id].dependencies[i];
      if d.kind == "required" {
        var r := ResolveDependency(c, d, c.reply(id, i));
        if r.Resolved? {
          assert LooksUp(c, id, i, r.id);
          forall to | LooksUp(c, id, i, to) ensures to == r.id {
            ResolvesToOne(c, d, c.reply(id, i), to, r.id);
          }
          if r.id !in seen {
            ResolvedIsNeeded(c, root, entered, entered, id, i, r.id);
            ok := Visit(r.id);
          }
        }
      }
    }

    /** The main file of a version: there already, or downloaded. */
    method MainFile(u: VersionId, f: File) returns (there: bool)
      requires Right() && u in c.versions && u in seen && exists k: nat :: PrimaryAt(c.versions[u], k) && f == c.versions[u].files[k]
      modifies this, dir
      ensures Right() && Later(old(Now()), Now())
      ensures Now() == old(Now()).(files := dir.files, installed := installed, got := got, failed := Now().failed)
      ensures ModPath(dir.clean, u, f) in if there then dir.files.Keys else Now().failed
      ensures dir.noDir == old(dir.noDir)
    {
      var dest := ModPath(dir.clean, u, f);
      if dest in dir.files {
        return true;
      }
      ghost var k: nat :| PrimaryAt(c.versions[u], k) && f == c.versions[u].files[k];
      assert FileFor(c, dir.clean, u, k, dest, f.url, f.fileName);
      there := Fetch(dest, f.url, f.fileName);
    }

    method See(u: VersionId)
      requires u !in seen && Right()
      modifies this`seen, this`tried
      ensures Right() && Now() == old(Now()).(seen := old(seen) + {u}, tried := old(tried) + [u])
    {
      TriedOneMore(root, Now(), u);
      seen := seen + {u};
      tried := tried + [u];
      BooksStay(c, dir.clean, start, old(Now()), Now());
    }

    /** A dependency that is met for the first time. */
    method Visit(u: VersionId) returns (ok: bool)
      requires u in c.versions && u !in seen && Needed(c, root, entered, u)
      requires entered <= seen
      requires Right()
      modifies this, dir
      ensures Right() && Later(old(Now()), Now()) && u in seen
      ensures ok <==> dir.noDir == old(dir.noDir)
      ensures ok ==> Progress(c, dir.clean, root, old(Now()), Now())
      decreases c.versions.Keys - seen, 0
    {
      See(u);
      var file := BrowserPrimaryFile(c.versions[u]);
      if file == None || file.value.url == "" {
        NoFile(c.versions[u], file);
        StaysOut(c, dir.clean, root, old(Now()), Now(), u);
        return true;
      }
      var made := dir.MkdirAll();
      if !made {
        return false;
      }
      var there := MainFile(u, file.value);
      if !there {
        StaysOut(c, dir.clean, root, old(Now()), Now(), u);
        return true;
      }
      ghost var fetched := Now();
      ok := Enter(u);
      if ok {
        ProgressFrom(c, dir.clean, root, old(Now()), fetched.(entered := fetched.entered + {u}), Now(), u);
      }
    }

    /** Its main file is there: the search goes on with its own dependencies. */
    method Enter(u: VersionId) returns (ok: bool)
      requires u in c.versions && u in seen && Needed(c, root, entered, u) && Installed(c, dir.clean, Now(), u)
      requires Right()
      modifies this, dir
      ensures Right() && Later(old(Now()), Now())
      ensures ok <==> dir.noDir == old(dir.noDir)
      ensures ok ==> Progress(c, dir.clean, root, old(Now()).(entered := old(entered) + {u}), Now()) && Settled(c, dir.clean, root, Now(), u)
      decreases c.versions.Keys - seen, 3
    {
      ghost var before := Now();
      entered := entered + {u};
      BooksStay(c, dir.clean, start, before, Now());
      NeededGrows(c, root, before.entered, entered, u);
      ok := Walk(u);
      if ok {
        NeededGrows(c, root, before.entered + {u}, entered, u);
      }
    }
  }

  lemma NoFile(v: Version, file: Option<File>)
    requires file == None <==> v.files == []
    requires file.Some? ==> file.value.url == "" && exists k: nat :: PrimaryAt(v, k) && file.value == v.files[k]
    ensures !HasFile(v)
  {
    if HasFile(v) {
      var j: nat :| PrimaryAt(v, j) && v.files[j].url != "";
      var k: nat :| PrimaryAt(v, k) && file.value == v.files[k];
      PrimaryIsUnique(v, j, k);
    }
  }

  lemma ResolvedIsNeeded(c: Catalog, root: VersionId, e: set<VersionId>, e': set<VersionId>, id: VersionId, i: nat, to: VersionId)
    requires Needed(c, root, e, id) && e <= e' && id in e' && LooksUp(c, id, i, to)
    ensures Needed(c, root, e', to) && to in c.versions
  {
    NeededGrows(c, root, e, e', id);
    assert Requires(c, id, to);
    ReachNext(Edge(c), In(e'), root, id, to);
  }

  lemma RequiredAreSeen(c: Catalog, id: VersionId, seen: set<VersionId>)
    requires id in c.versions
    requires Followed(c, id, |c.versions[id].dependencies|, seen)
    ensures forall u | Requires(c, id, u) :: u in seen
  {
    forall u | Requires(c, id, u) ensures u in seen {
      var i: nat :| LooksUp(c, id, i, u);
    }
  }

  /** A finished search: what was seen is exactly what is reached through entered
      versions, everything an entered version requires was seen, every entered
      version but the root is installed, and what was seen but not entered has no
      file to install or its download failed. */
  ghost predicate Complete(c: Catalog, clean: string -> string, root: VersionId, m: Moment) {
    && (forall v :: v in m.seen <==> Needed(c, root, m.entered, v))
    && root in m.entered && m.entered <= m.seen
    && (forall v | v in m.entered :: DoneWith(c, clean, m, v))
    && (forall v | v in m.entered && v != root :: Installed(c, clean, m, v))
    && (forall v | v in m.seen - m.entered :: v in c.versions && OutOfReach(c, clean, m, v))
  }

  lemma SearchIsComplete(c: Catalog, clean: string -> string, root: VersionId, m0: Moment, m: Moment)
    requires m0.seen == {root} == m0.entered && root in m.entered && m.entered <= m.seen
    requires Progress(c, clean, root, m0, m) && DoneWith(c, clean, m, root)
    ensures Complete(c, clean, root, m)
  {
    ReachRoot(Edge(c), In(m.entered), root);
    forall v | v in m.seen ensures v == root || Settled(c, clean, root, m, v) {
      assert v != root ==> v in m.seen - m0.seen;
    }
    forall v | Needed(c, root, m.entered, v) ensures v in m.seen {
      forall a, b | a in m.seen && (a == root || In(m.entered)(a)) && Edge(c)(a, b) ensures b in m.seen {
        assert DoneWith(c, clean, m, a);
      }
      ClosedHasReachable(Edge(c), In(m.entered), root, m.seen, v);
    }
  }

  datatype Outcome = Skipped | NoVersion | Finished(installed: seq<string>, ok: bool)

  /** The whole operation. The search ends on every graph, also a cyclic one; no
      version is tried twice; no file is removed; and a search that ends without
      an error is complete. */
  method InstallBrowserVersionDeps(source: string, c: Catalog, versionId: VersionId, dir: GameDir)
    returns (r: Outcome, ghost end: Moment)
    modifies dir
    ensures r.Skipped? <==> source != "modrinth"
    ensures r.NoVersion? <==> source == "modrinth" && !(c.rootWorks && versionId in c.versions)
    ensures Kept(old(dir.files), dir.files)
    ensures r.Finished? ==> end.files == dir.files && TriedOnce(versionId, end)
    ensures r.Finished? ==> end.installed == r.installed && Books(c, dir.clean, old(dir.files), end)
    ensures r.Finished? ==> end.failed == FailedSince(dir.failLog, |old(dir.failLog)|)
    ensures r.Finished? ==> (r.ok <==> dir.noDir == old(dir.noDir))
    ensures r.Finished? && r.ok ==> Complete(c, dir.clean, versionId, end)
    ensures !r.Finished? ==> dir.files == old(dir.files)
  {
    end := Moment({}, {}, {}, [], dir.files, [], []);
    if source != "modrinth" {
      return Skipped, end;
    }
    if !(c.rootWorks && versionId in c.versions) {
      return NoVersion, end;
    }
    var search := new Installer(c, versionId, dir);
    ghost var start := search.Now();
    ReachRoot(Edge(c), In(search.entered), versionId);
    var ok := search.Walk(versionId);
    end := search.Now();
    if ok {
      SearchIsComplete(c, dir.clean, versionId, start, end);
    }
    r := Finished(search.installed, ok);
  }
}
