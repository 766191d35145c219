/**
 * The recursive walk of `moveTreeWithProgress` (backend/data_migration.go): which
 * files it copies in which order. `os.ReadDir` lists names in increasing order.
 *
 * A disk is a map from paths to contents; a directory is there when a file lies
 * below it.
 */
module MigrationTree {
  import opened MigrationCopy

  // -------------------------------------------------------------------------
  // Sorted listings
  // -------------------------------------------------------------------------

  predicate Less(a: string, b: string) {
    if b == "" then false
    else if a == "" then true
    else a[0] < b[0] || (a[0] == b[0] && Less(a[1..], b[1..]))
  }

  lemma {:induction false} LessIrreflexive(a: string)
    ensures !Less(a, a)
  {
    if a != "" { LessIrreflexive(a[1..]); }
  }

  lemma {:induction false} LessTransitive(a: string, b: string, c: string)
    requires Less(a, b) && Less(b, c)
    ensures Less(a, c)
    decreases |a|
  {
    if a != "" && a[0] == b[0] == c[0] {
      LessTransitive(a[1..], b[1..], c[1..]);
    }
  }

  lemma {:induction false} LessTotal(a: string, b: string)
    ensures a == b || Less(a, b) || Less(b, a)
    decreases |a|
  {
    if a != "" && b != "" {
      if a[0] == b[0] {
        LessTotal(a[1..], b[1..]);
        assert a == [a[0]] + a[1..] && b == [b[0]] + b[1..];
      }
    }
  }

  /** A name comes before every longer name that starts with it. */
  lemma {:induction false} LessExtended(a: string, s: string)
    requires s != ""
    ensures Less(a, a + s)
    decreases |a|
  {
    if a != "" {
      LessExtended(a[1..], s);
      assert (a + s)[1..] == a[1..] + s;
    }
  }

  predicate IsMin(m: string, s: set<string>) {
    m in s && forall x | x in s :: x == m || Less(m, x)
  }

  lemma {:induction false} MinExists(s: set<string>)
    requires s != {}
    ensures exists m :: IsMin(m, s)
    decreases |s|
  {
    var x :| x in s;
    var rest := s - {x};
    if rest == {} {
      assert s == {x};
      assert IsMin(x, s);
    } else {
      MinExists(rest);
      var m :| IsMin(m, rest);
      LessTotal(x, m);
      if Less(x, m) {
        forall y | y in s ensures y == x || Less(x, y) {
          if y != x && y != m { LessTransitive(x, m, y); }
        }
        assert IsMin(x, s);
      } else {
        assert IsMin(m, s);
      }
    }
  }

  lemma MinUnique(a: string, b: string, s: set<string>)
    requires IsMin(a, s) && IsMin(b, s)
    ensures a == b
  {
    if a != b {
      LessTransitive(a, b, a);
      LessIrreflexive(a);
    }
  }

  function Min(s: set<string>): (m: string)
    requires s != {}
    ensures IsMin(m, s)
  {
    MinExists(s);
    assert forall a, b | IsMin(a, s) && IsMin(b, s) :: a == b by {
      forall a, b | IsMin(a, s) && IsMin(b, s) ensures a == b { MinUnique(a, b, s); }
    }
    var m :| IsMin(m, s); m
  }

  predicate Increasing(names: seq<string>) {
    forall i, j | 0 <= i < j < |names| :: Less(names[i], names[j])
  }

  function Listing(s: set<string>): (names: seq<string>)
    ensures Increasing(names)
    ensures forall x :: x in names <==> x in s
    decreases |s|
  {
    if s == {} then []
    else
      var m := Min(s);
      var rest := Listing(s - {m});
      assert forall j | 0 <= j < |rest| :: rest[j] in rest && Less(m, rest[j]);
      [m] + rest
  }

  // -------------------------------------------------------------------------
  // The walk
  // -------------------------------------------------------------------------

  predicate Under(dir: Path, p: Path) {
    |dir| < |p| && p[..|dir|] == dir
  }

  /** The names in a directory. */
  function Names(fs: Files, dir: Path): set<string> {
    set p | p in fs.Keys && Under(dir, p) :: p[|dir|]
  }

  datatype Enter = Opened | Unreadable | DiesThere

  /** What happens during one run of the launcher: to each copy, by its source, and
      to each directory as the walk comes to it. */
  datatype Luck = Luck(copy: Path -> Event, enter: Path -> Enter)

  /** The actions of the walk through `src`, of depth up to `h`. */
  function Plan(fs: Files, src: Path, dst: Path, w: Luck, h: nat): seq<Action>
    decreases h, 1
  {
    match w.enter(src)
    case DiesThere => [Death]
    case Unreadable => [Trouble]
    case Opened => PlanEntries(fs, src, dst, Listing(Names(fs, src)), w, h)
  }

  function PlanEntries(fs: Files, src: Path, dst: Path, names: seq<string>, w: Luck, h: nat): seq<Action>
    decreases h, 0, |names|
  {
    if names == [] then []
    else
      var k := |names| - 1;
      PlanEntries(fs, src, dst, names[..k], w, h) + PlanEntry(fs, src, dst, names[k], w, h)
  }

  function PlanEntry(fs: Files, src: Path, dst: Path, name: string, w: Luck, h: nat): seq<Action>
    decreases h, 0, 0
  {
    if src + [name] in fs then [Copy(Job(src + [name], dst + [name]), w.copy(src + [name]))]
    else if h == 0 then []
    else Plan(fs, src + [name], dst + [name], w, h - 1)
  }

  /** The copies of the walk. */
  function Jobs(fs: Files, src: Path, dst: Path, h: nat): seq<Job>
    decreases h, 1
  {
    JobsIn(fs, src, dst, Listing(Names(fs, src)), h)
  }

  function JobsIn(fs: Files, src: Path, dst: Path, names: seq<string>, h: nat): seq<Job>
    decreases h, 0, |names|
  {
    if names == [] then []
    else
      var k := |names| - 1;
      JobsIn(fs, src, dst, names[..k], h) + JobsOf(fs, src, dst, names[k], h)
  }

  function JobsOf(fs: Files, src: Path, dst: Path, name: string, h: nat): seq<Job>
    decreases h, 0, 0
  {
    if src + [name] in fs then [Job(src + [name], dst + [name])]
    else if h == 0 then []
    else Jobs(fs, src + [name], dst + [name], h - 1)
  }

  // -------------------------------------------------------------------------
  // Order
  // -------------------------------------------------------------------------

  /** Neither directory lies in the other. */
  predicate Apart(a: Path, b: Path) {
    !(a <= b) && !(b <= a)
  }

  /** A copy from below `src` to the same place below `dst`. */
  predicate Mirrors(fs: Files, src: Path, dst: Path, j: Job) {
    Under(src, j.from) && j.from in fs && j.to == dst + j.from[|src|..]
  }

  ghost predicate AllMirror(fs: Files, src: Path, dst: Path, jobs: seq<Job>) {
    forall i | 0 <= i < |jobs| :: Mirrors(fs, src, dst, jobs[i])
  }

  lemma MirrorsFromBelow(fs: Files, src: Path, dst: Path, name: string, j: Job)
    requires Mirrors(fs, src + [name], dst + [name], j)
    ensures Mirrors(fs, src, dst, j) && j.from[|src|] == name
  {
    var below := src + [name];
    assert j.from[..|src|] == j.from[..|below|][..|src|] == src;
    assert j.from[|src|] == j.from[..|below|][|src|] == name;
    assert j.from[|src|..] == [name] + j.from[|below|..];
  }

  lemma {:induction false} JobsMirror(fs: Files, src: Path, dst: Path, h: nat)
    ensures AllMirror(fs, src, dst, Jobs(fs, src, dst, h))
    decreases h, 1
  {
    JobsInMirror(fs, src, dst, Listing(Names(fs, src)), h);
  }

  lemma {:induction false} JobsInMirror(fs: Files, src: Path, dst: Path, names: seq<string>, h: nat)
    ensures AllMirror(fs, src, dst, JobsIn(fs, src, dst, names, h))
    decreases h, 0, |names|
  {
    if names != [] {
      var k := |names| - 1;
      JobsInMirror(fs, src, dst, names[..k], h);
      JobsOfMirror(fs, src, dst, names[k], h);
    }
  }

  lemma {:induction false} JobsOfMirror(fs: Files, src: Path, dst: Path, name: string, h: nat)
    ensures AllMirror(fs, src, dst, JobsOf(fs, src, dst, name, h))
    ensures forall i | 0 <= i < |JobsOf(fs, src, dst, name, h)| :: JobsOf(fs, src, dst, name, h)[i].from[|src|] == name
    decreases h, 0, 0
  {
    var jobs := JobsOf(fs, src, dst, name, h);
    if src + [name] in fs {
      assert (src + [name])[|src|..] == [name];
    } else if h > 0 {
      JobsMirror(fs, src + [name], dst + [name], h - 1);
      forall i | 0 <= i < |jobs| ensures Mirrors(fs, src, dst, jobs[i]) && jobs[i].from[|src|] == name {
        MirrorsFromBelow(fs, src, dst, name, jobs[i]);
      }
    }
  }

  lemma MirrorTarget(fs: Files, src: Path, dst: Path, j: Job)
    requires Mirrors(fs, src, dst, j)
    ensures j.to != [] && Under(dst, j.to) && Under(dst, Tmp(j.to)) && j.to[|dst|] == j.from[|src|]
    ensures Tmp(j.to)[|dst|] == j.from[|src|] || Tmp(j.to)[|dst|] == j.from[|src|] + ".tmp"
  {
    assert j.to[|dst|..] == j.from[|src|..];
    assert j.to[..|dst|] == dst;
    assert Tmp(j.to)[..|dst|] == j.to[..|j.to| - 1][..|dst|] == dst;
    if |j.to| > |dst| + 1 {
      assert Tmp(j.to)[|dst|] == j.to[..|j.to| - 1][|dst|];
    }
  }

  lemma Comparable(a: Path, b: Path, p: Path)
    requires Under(a, p) && Under(b, p)
    ensures a <= b || b <= a
  {
    if |a| <= |b| {
      assert b[..|a|] == p[..|b|][..|a|] == a;
    } else {
      assert a[..|b|] == p[..|a|][..|b|] == b;
    }
  }

  lemma UnderOne(a: Path, b: Path, p: Path)
    requires Apart(a, b) && Under(a, p)
    ensures !Under(b, p)
  {
    if Under(b, p) {
      Comparable(a, b, p);
    }
  }

  /** With separate trees no source is a target or a temporary file. */
  lemma SourceIsNoTarget(fs: Files, src: Path, dst: Path, a: Job, b: Job)
    requires Apart(src, dst) && Mirrors(fs, src, dst, a) && Mirrors(fs, src, dst, b)
    ensures b.to != [] && a.from != b.to && a.from != Tmp(b.to)
  {
    MirrorTarget(fs, src, dst, b);
    UnderOne(src, dst, a.from);
  }

  /** No name in the list is the temporary name of a later one. */
  predicate TmpLater(names: seq<string>) {
    forall i, j | 0 <= i < j < |names| :: names[i] != names[j] && names[i] != names[j] + ".tmp"
  }

  /** This is what sorted listings give: `x` comes before `x.tmp`. */
  lemma IncreasingPutsTmpLater(names: seq<string>)
    requires Increasing(names)
    ensures TmpLater(names)
  {
    forall i, j | 0 <= i < j < |names| ensures names[i] != names[j] && names[i] != names[j] + ".tmp" {
      LessIrreflexive(names[i]);
      LessExtended(names[j], ".tmp");
      if names[i] == names[j] + ".tmp" {
        LessTransitive(names[i], names[j], names[i]);
      }
    }
  }

  lemma OrderlyConcat(fs: Files, src: Path, dst: Path, a: seq<Job>, b: seq<Job>)
    requires Apart(src, dst) && AllMirror(fs, src, dst, a) && AllMirror(fs, src, dst, b)
    requires Orderly(a) && Orderly(b)
    requires forall i, j | 0 <= i < |a| && 0 <= j < |b| :: Before(a[i], b[j])
    ensures Orderly(a + b)
  {
    var jobs := a + b;
    forall i | 0 <= i < |jobs| ensures jobs[i].to != [] {
      MirrorTarget(fs, src, dst, jobs[i]);
    }
    forall i, j | 0 <= i < |jobs| && 0 <= j < |jobs| ensures jobs[i].from != jobs[j].to && jobs[i].from != Tmp(jobs[j].to) {
      SourceIsNoTarget(fs, src, dst, jobs[i], jobs[j]);
    }
    forall i, j | 0 <= i < j < |jobs| ensures jobs[i].to != jobs[j].to && Tmp(jobs[j].to) != jobs[i].to {
      if j < |a| {
        assert jobs[i] == a[i] && jobs[j] == a[j];
      } else if |a| <= i {
        assert jobs[i] == b[i - |a|] && jobs[j] == b[j - |a|];
      } else {
        assert Before(a[i], b[j - |a|]);
      }
    }
  }

  lemma PrefixAbove(a: Path, b: Path, x: string, y: string)
    requires a + [x] <= b + [y]
    ensures a <= b
  {
    assert a == (a + [x])[..|a|] == (b + [y])[..|a|] == b[..|a|];
  }

  lemma BelowApart(src: Path, dst: Path, name: string)
    requires Apart(src, dst)
    ensures Apart(src + [name], dst + [name])
  {
    if src + [name] <= dst + [name] {
      PrefixAbove(src, dst, name, name);
    }
    if dst + [name] <= src + [name] {
      PrefixAbove(dst, src, name, name);
    }
  }

  /** The walk is orderly. */
  lemma {:induction false} JobsOrderly(fs: Files, src: Path, dst: Path, h: nat)
    requires Apart(src, dst)
    ensures Orderly(Jobs(fs, src, dst, h))
    decreases h, 1
  {
    IncreasingPutsTmpLater(Listing(Names(fs, src)));
    JobsInOrderly(fs, src, dst, Listing(Names(fs, src)), h);
  }

  lemma {:induction false} JobsInOrderly(fs: Files, src: Path, dst: Path, names: seq<string>, h: nat)
    requires Apart(src, dst) && TmpLater(names)
    ensures Orderly(JobsIn(fs, src, dst, names, h))
    decreases h, 0, |names|
  {
    if names != [] {
      var k := |names| - 1;
      var a, b := JobsIn(fs, src, dst, names[..k], h), JobsOf(fs, src, dst, names[k], h);
      JobsInOrderly(fs, src, dst, names[..k], h);
      JobsOfOrderly(fs, src, dst, names[k], h);
      JobsInMirror(fs, src, dst, names[..k], h);
      JobsOfMirror(fs, src, dst, names[k], h);
      JobsInNames(fs, src, dst, names[..k], h);
      forall i, j | 0 <= i < |a| && 0 <= j < |b| ensures Before(a[i], b[j]) {
        assert a[i].from[|src|] in names[..k];
        BeforeAcross(fs, src, dst, names, a[i], b[j]);
      }
      OrderlyConcat(fs, src, dst, a, b);
    }
  }

  lemma BeforeAcross(fs: Files, src: Path, dst: Path, names: seq<string>, a: Job, b: Job)
    requires Mirrors(fs, src, dst, a) && Mirrors(fs, src, dst, b) && TmpLater(names) && names != []
    requires a.from[|src|] in names[..|names| - 1] && b.from[|src|] == names[|names| - 1]
    ensures Before(a, b)
  {
    MirrorTarget(fs, src, dst, a);
    MirrorTarget(fs, src, dst, b);
  }

  lemma {:induction false} JobsOfOrderly(fs: Files, src: Path, dst: Path, name: string, h: nat)
    requires Apart(src, dst)
    ensures Orderly(JobsOf(fs, src, dst, name, h))
    decreases h, 0, 0
  {
    if src + [name] in fs {
      JobsOfMirror(fs, src, dst, name, h);
      var j := JobsOf(fs, src, dst, name, h)[0];
      SourceIsNoTarget(fs, src, dst, j, j);
    } else if h > 0 {
      BelowApart(src, dst, name);
      JobsOrderly(fs, src + [name], dst + [name], h - 1);
    }
  }

  lemma {:induction false} JobsInNames(fs: Files, src: Path, dst: Path, names: seq<string>, h: nat)
    ensures forall i | 0 <= i < |JobsIn(fs, src, dst, names, h)| ::
              Under(src, JobsIn(fs, src, dst, names, h)[i].from) && JobsIn(fs, src, dst, names, h)[i].from[|src|] in names
    decreases |names|
  {
    JobsInMirror(fs, src, dst, names, h);
    if names != [] {
      JobsInNames(fs, src, dst, names[..|names| - 1], h);
      JobsOfMirror(fs, src, dst, names[|names| - 1], h);
    }
  }

  // -------------------------------------------------------------------------
  // No file is forgotten
  // -------------------------------------------------------------------------

  /** No file is also a directory, and no path below `src` is longer than `h` names. */
  ghost predicate TreeLike(fs: Files, src: Path, h: nat) {
    && (forall p, q | p in fs && q in fs :: !Under(p, q))
    && (forall p | p in fs && Under(src, p) :: |p| <= |src| + 1 + h)
  }

  ghost predicate HasJob(jobs: seq<Job>, p: Path) {
    exists i :: 0 <= i < |jobs| && jobs[i].from == p
  }

  /** Every file below the walked directory has its job. */
  lemma {:induction false} EveryFileHasAJob(fs: Files, src: Path, dst: Path, h: nat, p: Path)
    requires TreeLike(fs, src, h) && p in fs && Under(src, p)
    ensures HasJob(Jobs(fs, src, dst, h), p)
    decreases h, 1
  {
    var names := Listing(Names(fs, src));
    assert p[|src|] in Names(fs, src);
    assert p[|src|] in names;
    var i :| 0 <= i < |names| && names[i] == p[|src|];
    HasJobIn(fs, src, dst, names, i, h, p);
  }

  lemma HasJobConcat(a: seq<Job>, b: seq<Job>, p: Path)
    requires HasJob(a, p) || HasJob(b, p)
    ensures HasJob(a + b, p)
  {
    if HasJob(a, p) {
      var m :| 0 <= m < |a| && a[m].from == p;
      assert (a + b)[m].from == p;
    } else {
      var m :| 0 <= m < |b| && b[m].from == p;
      assert (a + b)[|a| + m].from == p;
    }
  }

  lemma {:induction false} HasJobIn(fs: Files, src: Path, dst: Path, names: seq<string>, i: nat, h: nat, p: Path)
    requires TreeLike(fs, src, h) && p in fs && Under(src, p) && i < |names| && names[i] == p[|src|]
    ensures HasJob(JobsIn(fs, src, dst, names, h), p)
    decreases h, 0, |names|
  {
    var k := |names| - 1;
    if i < k {
      HasJobIn(fs, src, dst, names[..k], i, h, p);
    } else {
      HasJobOf(fs, src, dst, h, p);
    }
    HasJobConcat(JobsIn(fs, src, dst, names[..k], h), JobsOf(fs, src, dst, names[k], h), p);
  }

  lemma {:induction false} HasJobOf(fs: Files, src: Path, dst: Path, h: nat, p: Path)
    requires TreeLike(fs, src, h) && p in fs && Under(src, p)
    ensures HasJob(JobsOf(fs, src, dst, p[|src|], h), p)
    decreases h, 0, 0
  {
    var below := src + [p[|src|]];
    assert p[..|below|] == below;
    if below in fs {
      assert !Under(below, p);
      assert p == below;
      assert JobsOf(fs, src, dst, p[|src|], h)[0].from == p;
    } else {
      Longer(below, p);
      DeeperTreeLike(fs, src, p[|src|], h);
      EveryFileHasAJob(fs, below, dst + [p[|src|]], h - 1, p);
    }
  }

  lemma Longer(a: Path, p: Path)
    requires a <= p && a != p
    ensures |a| < |p|
  {
    assert p[..|p|] == p;
  }

  lemma DeeperTreeLike(fs: Files, src: Path, name: string, h: nat)
    requires TreeLike(fs, src, h) && h > 0
    ensures TreeLike(fs, src + [name], h - 1)
  {
    forall p | p in fs && Under(src + [name], p) ensures |p| <= |src + [name]| + 1 + (h - 1) {
      assert p[..|src|] == p[..|src| + 1][..|src|] == src;
      assert Under(src, p);
    }
  }

  /** The actions of a walk are copies among its jobs. */
  ghost predicate FromJobs(plan: seq<Action>, jobs: seq<Job>, w: Luck) {
    forall a | a in plan && a.Copy? :: a.job in jobs && a.how == w.copy(a.job.from)
  }

  lemma {:induction false} PlanFromJobs(fs: Files, src: Path, dst: Path, w: Luck, h: nat)
    ensures FromJobs(Plan(fs, src, dst, w, h), Jobs(fs, src, dst, h), w)
    decreases h, 1
  {
    EntriesFromJobs(fs, src, dst, Listing(Names(fs, src)), w, h);
  }

  lemma {:induction false} EntriesFromJobs(fs: Files, src: Path, dst: Path, names: seq<string>, w: Luck, h: nat)
    ensures FromJobs(PlanEntries(fs, src, dst, names, w, h), JobsIn(fs, src, dst, names, h), w)
    decreases h, 0, |names|
  {
    if names != [] {
      var k := |names| - 1;
      EntriesFromJobs(fs, src, dst, names[..k], w, h);
      if src + [names[k]] !in fs && h > 0 {
        PlanFromJobs(fs, src + [names[k]], dst + [names[k]], w, h - 1);
      }
    }
  }

  /** Whatever the walk meets, its copies are in the order in which `x` comes before
      `x.tmp`. */
  lemma {:induction false} PlanInOrder(fs: Files, src: Path, dst: Path, w: Luck, h: nat)
    ensures InOrder(Plan(fs, src, dst, w, h))
    decreases h, 1
  {
    IncreasingPutsTmpLater(Listing(Names(fs, src)));
    EntriesInOrder(fs, src, dst, Listing(Names(fs, src)), w, h);
  }

  lemma {:induction false} EntriesInOrder(fs: Files, src: Path, dst: Path, names: seq<string>, w: Luck, h: nat)
    requires TmpLater(names)
    ensures InOrder(PlanEntries(fs, src, dst, names, w, h))
    decreases h, 0, |names|
  {
    if names != [] {
      var k := |names| - 1;
      var a, b := PlanEntries(fs, src, dst, names[..k], w, h), PlanEntry(fs, src, dst, names[k], w, h);
      EntriesInOrder(fs, src, dst, names[..k], w, h);
      EntryInOrder(fs, src, dst, names[k], w, h);
      forall i, j | 0 <= i < |a| && 0 <= j < |b| && a[i].Copy? && b[j].Copy? ensures Before(a[i].job, b[j].job) {
        EntriesGo(fs, src, dst, names[..k], w, h, i);
        EntryGoes(fs, src, dst, names[k], w, h, j);
        BeforeAcross(fs, src, dst, names, a[i].job, b[j].job);
      }
      InOrderConcat(a, b);
    }
  }

  lemma {:induction false} EntryInOrder(fs: Files, src: Path, dst: Path, name: string, w: Luck, h: nat)
    ensures InOrder(PlanEntry(fs, src, dst, name, w, h))
    decreases h, 0, 0
  {
    if src + [name] !in fs && h > 0 {
      PlanInOrder(fs, src + [name], dst + [name], w, h - 1);
    }
  }

  lemma InOrderConcat(a: seq<Action>, b: seq<Action>)
    requires InOrder(a) && InOrder(b)
    requires forall i, j | 0 <= i < |a| && 0 <= j < |b| && a[i].Copy? && b[j].Copy? :: Before(a[i].job, b[j].job)
    ensures InOrder(a + b)
  {
    var plan := a + b;
    forall i, j | 0 <= i < j < |plan| && plan[i].Copy? && plan[j].Copy? ensures Before(plan[i].job, plan[j].job) {
      if j < |a| {
        assert plan[i] == a[i] && plan[j] == a[j];
      } else if |a| <= i {
        assert plan[i] == b[i - |a|] && plan[j] == b[j - |a|];
      } else {
        assert plan[i] == a[i] && plan[j] == b[j - |a|];
      }
    }
  }

  lemma EntriesGo(fs: Files, src: Path, dst: Path, names: seq<string>, w: Luck, h: nat, i: nat)
    requires i < |PlanEntries(fs, src, dst, names, w, h)| && PlanEntries(fs, src, dst, names, w, h)[i].Copy?
    ensures var j := PlanEntries(fs, src, dst, names, w, h)[i].job; Mirrors(fs, src, dst, j) && j.from[|src|] in names
  {
    var a := PlanEntries(fs, src, dst, names, w, h)[i];
    EntriesFromJobs(fs, src, dst, names, w, h);
    assert a in PlanEntries(fs, src, dst, names, w, h);
    JobsInNames(fs, src, dst, names, h);
    JobsInMirror(fs, src, dst, names, h);
  }

  lemma EntryGoes(fs: Files, src: Path, dst: Path, name: string, w: Luck, h: nat, i: nat)
    requires i < |PlanEntry(fs, src, dst, name, w, h)| && PlanEntry(fs, src, dst, name, w, h)[i].Copy?
    ensures var j := PlanEntry(fs, src, dst, name, w, h)[i].job; Mirrors(fs, src, dst, j) && j.from[|src|] == name
  {
    var a := PlanEntry(fs, src, dst, name, w, h)[i];
    assert a in PlanEntry(fs, src, dst, name, w, h);
    if src + [name] !in fs && h > 0 {
      PlanFromJobs(fs, src + [name], dst + [name], w, h - 1);
    }
    JobsOfMirror(fs, src, dst, name, h);
  }

  /** The walk comes through every directory between `src` and `p`. */
  ghost predicate Opens(w: Luck, src: Path, p: Path) {
    forall l | |src| <= l < |p| :: w.enter(p[..l]) == Opened
  }

  ghost predicate HasCopy(plan: seq<Action>, p: Path) {
    exists a :: a in plan && a.Copy? && a.job.from == p
  }

  lemma HasCopyConcat(a: seq<Action>, b: seq<Action>, p: Path)
    ensures HasCopy(a + b, p) <==> HasCopy(a, p) || HasCopy(b, p)
  {
    forall x | x in a || x in b ensures x in a + b {
    }
  }

  /** A user file is tried exactly if the walk comes through all its directories. */
  lemma {:induction false} TriedExactly(fs: Files, src: Path, dst: Path, w: Luck, h: nat, p: Path)
    requires TreeLike(fs, src, h) && p in fs && Under(src, p)
    ensures HasCopy(Plan(fs, src, dst, w, h), p) <==> Opens(w, src, p)
    decreases h, 1
  {
    assert p[..|src|] == src;
    if w.enter(src) == Opened {
      var names := Listing(Names(fs, src));
      assert p[|src|] in Names(fs, src);
      EntriesTry(fs, src, dst, names, w, h, p);
    }
  }

  lemma {:induction false} EntriesTry(fs: Files, src: Path, dst: Path, names: seq<string>, w: Luck, h: nat, p: Path)
    requires TreeLike(fs, src, h) && p in fs && Under(src, p) && w.enter(src) == Opened
    ensures HasCopy(PlanEntries(fs, src, dst, names, w, h), p) <==> p[|src|] in names && Opens(w, src, p)
    decreases h, 0, |names|
  {
    if names != [] {
      var k := |names| - 1;
      assert names == names[..k] + [names[k]];
      EntriesTry(fs, src, dst, names[..k], w, h, p);
      EntryTries(fs, src, dst, names[k], w, h, p);
      HasCopyConcat(PlanEntries(fs, src, dst, names[..k], w, h), PlanEntry(fs, src, dst, names[k], w, h), p);
    }
  }

  lemma {:induction false} EntryTries(fs: Files, src: Path, dst: Path, name: string, w: Luck, h: nat, p: Path)
    requires TreeLike(fs, src, h) && p in fs && Under(src, p) && w.enter(src) == Opened
    ensures HasCopy(PlanEntry(fs, src, dst, name, w, h), p) <==> p[|src|] == name && Opens(w, src, p)
    decreases h, 0, 0
  {
    var below := src + [name];
    if below in fs {
      OnlyFile(fs, src, name, w, p);
      var a := Copy(Job(below, dst + [name]), w.copy(below));
      assert PlanEntry(fs, src, dst, name, w, h) == [a];
      assert a in [a];
    } else if p[|src|] != name {
      PlanFromJobs(fs, below, dst + [name], w, if h == 0 then 0 else h - 1);
      NoCopyElsewhere(fs, src, dst, name, w, h, p);
    } else {
      assert p[..|below|] == below;
      Longer(below, p);
      DeeperTreeLike(fs, src, name, h);
      TriedExactly(fs, below, dst + [name], w, h - 1, p);
      OpensBelow(w, src, name, p);
    }
  }

  lemma OnlyFile(fs: Files, src: Path, name: string, w: Luck, p: Path)
    requires (forall a, b | a in fs && b in fs :: !Under(a, b)) && p in fs && Under(src, p) && src + [name] in fs && w.enter(src) == Opened
    ensures src + [name] == p <==> p[|src|] == name && Opens(w, src, p)
  {
    if p[|src|] == name {
      assert p[..|src| + 1] == src + [name];
      assert !Under(src + [name], p);
      assert p == src + [name];
      assert p[..|src|] == src;
    }
  }

  lemma OpensBelow(w: Luck, src: Path, name: string, p: Path)
    requires Under(src + [name], p) && w.enter(src) == Opened
    ensures Opens(w, src, p) <==> Opens(w, src + [name], p)
  {
    assert p[..|src|] == p[..|src| + 1][..|src|] == src;
  }

  lemma NoCopyElsewhere(fs: Files, src: Path, dst: Path, name: string, w: Luck, h: nat, p: Path)
    requires Under(src, p) && p[|src|] != name && src + [name] !in fs
    ensures !HasCopy(PlanEntry(fs, src, dst, name, w, h), p)
  {
    if h > 0 {
      PlanFromJobs(fs, src + [name], dst + [name], w, h - 1);
      JobsOfMirror(fs, src, dst, name, h);
    }
  }
}
