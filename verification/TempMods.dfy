/**
 * Marking a mod temporary together with its dependencies
 * (backend/browser_tempmods_api.go). Dependencies may form cycles.
 */
module TempMods {
  import opened Common
  import opened Reach

  datatype Mod = Mod(fileName: string, id: string, offers: seq<string>, dependsOn: seq<string>)

  datatype Mark = Mark(expiresAt: int, action: string, addedByDependency: bool, requiredBy: string)

  predicate Answers(m: Mod, modId: string) {
    m.id == modId || modId in m.offers
  }

  /** The first of them is the `k`-th. */
  predicate FirstAnswer(all: seq<Mod>, modId: string, k: nat) {
    k < |all| && (all[k].id == modId || modId in all[k].offers) && forall j | 0 <= j < k :: !Answers(all[j], modId)
  }

  /** The first scanned mod with the ID, whether as its own or as a provided one. */
  function Find(all: seq<Mod>, modId: string): (r: Option<Mod>)
    ensures r.Some? ==> r.value in all && exists k: nat :: FirstAnswer(all, modId, k) && r.value == all[k]
    ensures r.None? ==> forall m | m in all :: !Answers(m, modId)
  {
    if all == [] then None
    else if Answers(all[0], modId) then
      assert FirstAnswer(all, modId, 0);
      Some(all[0])
    else
      var rest := Find(all[1..], modId);
      assert rest.Some? ==> exists k: nat :: FirstAnswer(all, modId, k) && rest.value == all[k] by {
        if rest.Some? {
          var k: nat :| FirstAnswer(all[1..], modId, k) && rest.value == all[1..][k];
          assert forall j | 1 <= j < k + 1 :: all[j] == all[1..][j - 1];
          assert FirstAnswer(all, modId, k + 1);
        }
      }
      rest
  }

  predicate DistinctFiles(all: seq<Mod>) {
    forall i, j | 0 <= i < j < |all| :: all[i].fileName != all[j].fileName
  }

  ghost function Names(all: seq<Mod>): set<string> {
    set m | m in all :: m.fileName
  }

  /** The mod `from` depends on an ID that the mod `to` answers. */
  ghost predicate DependsOn(all: seq<Mod>, from: string, to: string) {
    exists m, id :: m in all && m.fileName == from && id in m.dependsOn && Find(all, id).Some? && Find(all, id).value.fileName == to
  }

  /** A mark the player set by hand. */
  predicate Manual(existing: map<string, Mark>, fileName: string) {
    fileName in existing && !existing[fileName].addedByDependency
  }

  ghost function Edge(all: seq<Mod>): (string, string) -> bool {
    (a, b) => DependsOn(all, a, b)
  }

  function Open(existing: map<string, Mark>): string -> bool {
    a => !Manual(existing, a)
  }

  /** `f` is a dependency of `root`, directly or through mods without a manual mark. */
  ghost predicate Needed(all: seq<Mod>, existing: map<string, Mark>, root: string, f: string) {
    Reachable(Edge(all), Open(existing), root, f)
  }

  /** The loop of `findModByProvidedID`. */
  method FindModByProvidedId(all: seq<Mod>, modId: string) returns (r: Option<Mod>)
    ensures r == Find(all, modId)
    ensures r.Some? ==> exists k: nat :: FirstAnswer(all, modId, k) && r.value == all[k]
    ensures r.None? ==> forall m | m in all :: m.id != modId && modId !in m.offers
  {
    for i := 0 to |all|
      invariant Find(all, modId) == Find(all[i..], modId)
    {
      assert all[i..][1..] == all[i + 1..];
      if all[i].id == modId {
        return Some(all[i]);
      }
      var ps := all[i].offers;
      for j := 0 to |ps|
        invariant modId !in ps[..j]
      {
        if ps[j] == modId {
          return Some(all[i]);
        }
      }
    }
    return None;
  }

  /** The stored marks of one pack; a write can fail, and its error is ignored. */
  class MarkStore {
    var marks: map<string, Mark>
    const broken: set<string>

    constructor (marks: map<string, Mark>, broken: set<string>)
      ensures this.marks == marks && this.broken == broken
    {
      this.marks := marks;
      this.broken := broken;
    }

    method SetTempMod(fileName: string, mark: Mark)
      modifies this
      ensures marks == if fileName in broken then old(marks) else old(marks)[fileName := mark]
    {
      if fileName !in broken {
        marks := marks[fileName := mark];
      }
    }
  }

  /** One propagation: the scanned mods, the marks found at its start, and the
      files visited so far. */
  class Propagation {
    const all: seq<Mod>
    const existing: map<string, Mark>
    const root: string
    const mark: Mark
    const store: MarkStore
    var visited: set<string>

    constructor (all: seq<Mod>, root: string, mark: Mark, store: MarkStore)
      ensures this.all == all && this.existing == store.marks && this.root == root
      ensures this.mark == mark && this.store == store && visited == {root}
    {
      this.all, this.existing, this.root, this.mark, this.store := all, store.marks, root, mark, store;
      visited := {root};
    }

    /** A visited file is needed, and unless its mark is manual its dependencies
        are visited too. */
    ghost predicate Settled(fs: set<string>, f: string) {
      && f in Names(all) && Needed(all, existing, root, f)
      && (Manual(existing, f) || Done(all, fs, f))
    }

    /** What the search may do between two moments: visit needed files, see to the
        dependencies of those without a manual mark, and mark them. */
    ghost predicate Progress(before: set<string>, marks: map<string, Mark>, after: set<string>, marks': map<string, Mark>) {
      && before <= after
      && (forall f | f in after - before :: Settled(after, f))
      && marks' == marks + Marked(after - before)
    }

    /** The marks a set of newly visited files gets. */
    ghost function Marked(fs: set<string>): map<string, Mark> {
      map f | f in fs && !Manual(existing, f) && f !in store.broken :: mark
    }

    lemma MarkedUnion(a: set<string>, b: set<string>)
      ensures Marked(a + b) == Marked(a) + Marked(b)
    {
    }

    lemma SettledGrows(v: set<string>, v': set<string>, f: string)
      requires Settled(v, f) && v <= v'
      ensures Settled(v', f)
    {
    }

    lemma ProgressChain(v0: set<string>, m0: map<string, Mark>, v1: set<string>, m1: map<string, Mark>, v2: set<string>, m2: map<string, Mark>)
      requires Progress(v0, m0, v1, m1) && Progress(v1, m1, v2, m2)
      ensures Progress(v0, m0, v2, m2)
    {
      ChainedMarks(v0, m0, v1, m1, v2, m2);
      forall f | f in v2 - v0 ensures Settled(v2, f) {
        if f in v1 {
          SettledGrows(v1, v2, f);
        }
      }
    }

    lemma ChainedMarks(v0: set<string>, m0: map<string, Mark>, v1: set<string>, m1: map<string, Mark>, v2: set<string>, m2: map<string, Mark>)
      requires v0 <= v1 <= v2 && m1 == m0 + Marked(v1 - v0) && m2 == m1 + Marked(v2 - v1)
      ensures m2 == m0 + Marked(v2 - v0)
    {
      assert v2 - v0 == (v1 - v0) + (v2 - v1);
      MarkedUnion(v1 - v0, v2 - v1);
      assert m2 == m0 + (Marked(v1 - v0) + Marked(v2 - v1));
    }

    lemma ProgressFrom(v: set<string>, m: map<string, Mark>, f: string, v2: set<string>, m2: map<string, Mark>)
      requires f !in v && Settled(v2, f)
      requires Progress(v + {f}, m + Marked({f}), v2, m2)
      ensures Progress(v, m, v2, m2)
    {
      assert v2 - v == {f} + (v2 - (v + {f}));
      MarkedUnion({f}, v2 - (v + {f}));
      assert m2 == m + (Marked({f}) + Marked(v2 - (v + {f})));
    }

    /** The recursive closure of the program: the loop over the dependency IDs. */
    method Walk(depIds: seq<string>)
      requires DistinctFiles(all)
      requires forall id | id in depIds && Find(all, id).Some? :: Needed(all, existing, root, Find(all, id).value.fileName)
      modifies this, store
      ensures Progress(old(visited), old(store.marks), visited, store.marks)
      ensures forall id | id in depIds && Find(all, id).Some? :: Find(all, id).value.fileName in visited
      decreases Names(all) - visited, 1
    {
      for i := 0 to |depIds|
        invariant Progress(old(visited), old(store.marks), visited, store.marks)
        invariant forall j | 0 <= j < i && Find(all, depIds[j]).Some? :: Find(all, depIds[j]).value.fileName in visited
      {
        var dep := FindModByProvidedId(all, depIds[i]);
        assert depIds[i] in depIds;
        if dep.Some? && dep.value.fileName !in visited {
          ghost var v, m := visited, store.marks;
          Visit(dep.value);
          ProgressChain(old(visited), old(store.marks), v, m, visited, store.marks);
        }
      }
    }

    /** The body of that loop, for a dependency that is met for the first time. */
    method Visit(dep: Mod)
      requires DistinctFiles(all) && dep in all
      requires dep.fileName !in visited && Needed(all, existing, root, dep.fileName)
      modifies this, store
      ensures Progress(old(visited), old(store.marks), visited, store.marks)
      ensures dep.fileName in visited
      decreases Names(all) - visited, 0
    {
      var f := dep.fileName;
      visited := visited + {f};
      assert f in Names(all);
      if !Manual(existing, f) {
        store.SetTempMod(f, mark);
        assert store.marks == old(store.marks) + Marked({f});
        DependenciesNeeded(all, existing, root, dep);
        Walk(dep.dependsOn);
        DoneWithAll(all, visited, dep);
      }
      ProgressFrom(old(visited), old(store.marks), f, visited, store.marks);
    }
  }

  /** The dependencies of `f` are among `fs`. */
  ghost predicate Done(all: seq<Mod>, fs: set<string>, f: string) {
    forall g | DependsOn(all, f, g) :: g in fs
  }

  /** With distinct file names, the dependencies of a file are those of its mod. */
  lemma DoneWithAll(all: seq<Mod>, fs: set<string>, m: Mod)
    requires DistinctFiles(all) && m in all
    requires forall id | id in m.dependsOn && Find(all, id).Some? :: Find(all, id).value.fileName in fs
    ensures Done(all, fs, m.fileName)
  {
    forall g | DependsOn(all, m.fileName, g) ensures g in fs {
      var m', id :| m' in all && m'.fileName == m.fileName && id in m'.dependsOn && Find(all, id).Some? && Find(all, id).value.fileName == g;
      assert m' == m;
    }
  }

  lemma DependenciesNeeded(all: seq<Mod>, existing: map<string, Mark>, root: string, m: Mod)
    requires m in all && Needed(all, existing, root, m.fileName)
    requires m.fileName == root || !Manual(existing, m.fileName)
    ensures forall id | id in m.dependsOn && Find(all, id).Some? :: Needed(all, existing, root, Find(all, id).value.fileName)
  {
    forall id | id in m.dependsOn && Find(all, id).Some? ensures Needed(all, existing, root, Find(all, id).value.fileName) {
      var g := Find(all, id).value.fileName;
      assert DependsOn(all, m.fileName, g);
      ReachNext(Edge(all), Open(existing), root, m.fileName, g);
    }
  }

  /** Exactly the needed mods get the mark: everything else, manual marks and the
      root's own mark included, stays as it was. */
  method PropagateTempModToDeps(all: seq<Mod>, root: string, expiresAt: int, action: string, store: MarkStore)
    requires DistinctFiles(all)
    modifies store
    ensures root !in Names(all) ==> store.marks == old(store.marks)
    ensures root in Names(all) ==> forall f ::
              if f != root && Needed(all, old(store.marks), root, f) && !Manual(old(store.marks), f) && f !in store.broken
              then f in store.marks && store.marks[f] == Mark(expiresAt, action, true, root)
              else (f in store.marks <==> f in old(store.marks)) && (f in store.marks ==> store.marks[f] == old(store.marks)[f])
  {
    var i := 0;
    while i < |all| && all[i].fileName != root
      invariant 0 <= i <= |all|
      invariant forall j | 0 <= j < i :: all[j].fileName != root
    {
      i := i + 1;
    }
    if i == |all| {
      return;
    }
    ghost var existing := store.marks;
    var p := new Propagation(all, root, Mark(expiresAt, action, true, root), store);
    ReachRoot(Edge(all), Open(existing), root);
    DependenciesNeeded(all, existing, root, all[i]);
    p.Walk(all[i].dependsOn);
    DoneWithAll(all, p.visited, all[i]);
    forall f | f in p.visited && f != root ensures p.Settled(p.visited, f) {
      assert f in p.visited - {root};
    }
    VisitedIsNeeded(all, existing, root, p.visited);
  }

  /** A search that settled all it visited has visited exactly the needed files. */
  lemma VisitedIsNeeded(all: seq<Mod>, existing: map<string, Mark>, root: string, visited: set<string>)
    requires root in visited && Done(all, visited, root)
    requires forall f | f in visited && f != root ::
               Needed(all, existing, root, f) && (Manual(existing, f) || Done(all, visited, f))
    ensures forall f :: f in visited <==> Needed(all, existing, root, f)
  {
    ReachRoot(Edge(all), Open(existing), root);
    forall f | Needed(all, existing, root, f) ensures f in visited {
      forall u, v | u in visited && (u == root || Open(existing)(u)) && Edge(all)(u, v) ensures v in visited {
        assert Done(all, visited, u);
      }
      ClosedHasReachable(Edge(all), Open(existing), root, visited, f);
    }
  }
}
