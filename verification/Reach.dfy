/**
 * Reachability in a directed graph whose nodes may be closed: a path may end in
 * a closed node but not go on from it. The two dependency searches are proved
 * against this notion.
 */
module Reach {

  ghost predicate IsPath<T(!new)>(edge: (T, T) -> bool, open_: T -> bool, p: seq<T>) {
    && p != []
    && (forall i | 0 <= i < |p| - 1 :: edge(p[i], p[i + 1]))
    && (forall i | 0 < i < |p| - 1 :: open_(p[i]))
  }

  /** `x` can be reached from `root` through open nodes; `root` itself counts as open. */
  ghost predicate Reachable<T(!new)>(edge: (T, T) -> bool, open_: T -> bool, root: T, x: T) {
    exists p :: IsPath(edge, open_, p) && p[0] == root && p[|p| - 1] == x
  }

  lemma ReachRoot<T(!new)>(edge: (T, T) -> bool, open_: T -> bool, root: T)
    ensures Reachable(edge, open_, root, root)
  {
    assert IsPath(edge, open_, [root]);
  }

  lemma ReachNext<T(!new)>(edge: (T, T) -> bool, open_: T -> bool, root: T, x: T, y: T)
    requires Reachable(edge, open_, root, x) && (x == root || open_(x)) && edge(x, y)
    ensures Reachable(edge, open_, root, y)
  {
    if x == root {
      assert IsPath(edge, open_, [root, y]);
    } else {
      var p :| IsPath(edge, open_, p) && p[0] == root && p[|p| - 1] == x;
      var q := p + [y];
      assert IsPath(edge, open_, q);
      assert q[0] == root && q[|q| - 1] == y;
    }
  }

  /** A set that has the root and, with every open node in it, the node's
      successors, has everything that is reachable. */
  lemma ClosedHasReachable<T(!new)>(edge: (T, T) -> bool, open_: T -> bool, root: T, s: set<T>, x: T)
    requires root in s
    requires forall u, v | u in s && (u == root || open_(u)) && edge(u, v) :: v in s
    requires Reachable(edge, open_, root, x)
    ensures x in s
  {
    var p :| IsPath(edge, open_, p) && p[0] == root && p[|p| - 1] == x;
    PathStaysInside(edge, open_, root, s, p, |p| - 1);
  }

  lemma {:induction false} PathStaysInside<T(!new)>(edge: (T, T) -> bool, open_: T -> bool, root: T, s: set<T>, p: seq<T>, k: nat)
    requires root in s
    requires forall u, v | u in s && (u == root || open_(u)) && edge(u, v) :: v in s
    requires IsPath(edge, open_, p) && p[0] == root && k < |p|
    ensures p[k] in s
  {
    if k > 0 {
      PathStaysInside(edge, open_, root, s, p, k - 1);
      assert edge(p[k - 1], p[k - 1 + 1]);
    }
  }
}
