/** Finite directed graphs over identifiers: paths, cycles and separators. */
module Digraph {

  type Id = string
  type Graph = map<Id, seq<Id>>

  predicate Edge(g: Graph, a: Id, b: Id) {
    a in g && b in g[a]
  }

  /** A non-empty walk along the edges of `g`; a single vertex is a path to itself. */
  ghost predicate IsPath(g: Graph, p: seq<Id>) {
    p != [] && forall i {:trigger p[i]} :: 0 <= i < |p| - 1 ==> Edge(g, p[i], p[i + 1])
  }

  ghost predicate IsPathBetween(g: Graph, p: seq<Id>, a: Id, b: Id) {
    IsPath(g, p) && p[0] == a && p[|p| - 1] == b
  }

  ghost predicate Reaches(g: Graph, a: Id, b: Id) {
    exists p :: IsPathBetween(g, p, a, b)
  }

  ghost predicate IsCycle(g: Graph, p: seq<Id>) {
    |p| >= 2 && IsPath(g, p) && p[0] == p[|p| - 1]
  }

  ghost predicate Acyclic(g: Graph) {
    forall p :: !IsCycle(g, p)
  }

  /** Some cycle can be reached from `a`. */
  ghost predicate ReachesCycle(g: Graph, a: Id) {
    exists p, q :: IsCycleBeyond(g, a, p, q)
  }

  ghost predicate IsCycleBeyond(g: Graph, a: Id, p: seq<Id>, q: seq<Id>) {
    IsCycle(g, q) && IsPathBetween(g, p, a, q[0])
  }

  /** Every path from `a` into `targets` passes through `cut`. */
  ghost predicate Separates(g: Graph, cut: set<Id>, a: Id, targets: set<Id>) {
    forall p :: IsPath(g, p) && p[0] == a && p[|p| - 1] in targets ==> Meets(p, cut)
  }

  ghost predicate Meets(p: seq<Id>, s: set<Id>) {
    exists i :: 0 <= i < |p| && p[i] in s
  }

  lemma PathPrefix(g: Graph, p: seq<Id>, n: nat)
    requires IsPath(g, p) && 0 < n <= |p|
    ensures IsPath(g, p[..n])
  {
  }

  lemma PathSuffix(g: Graph, p: seq<Id>, n: nat)
    requires IsPath(g, p) && n < |p|
    ensures IsPath(g, p[n..])
  {
    forall i {:trigger p[n..][i]} | 0 <= i < |p[n..]| - 1
      ensures Edge(g, p[n..][i], p[n..][i + 1])
    {
      assert p[n..][i] == p[n + i];
    }
  }

  /** Two paths that share an end vertex join into one. */
  lemma PathJoin(g: Graph, p: seq<Id>, q: seq<Id>)
    requires IsPath(g, p) && IsPath(g, q) && p[|p| - 1] == q[0]
    ensures IsPath(g, p + q[1..])
    ensures (p + q[1..])[0] == p[0]
    ensures (p + q[1..])[|p| + |q| - 2] == q[|q| - 1]
  {
    var r := p + q[1..];
    forall i {:trigger r[i]} | 0 <= i < |r| - 1
      ensures Edge(g, r[i], r[i + 1])
    {
      if i < |p| - 1 {
        assert r[i] == p[i] && r[i + 1] == p[i + 1];
      } else {
        assert r[i] == q[i - |p| + 1] && r[i + 1] == q[i - |p| + 2];
      }
    }
  }

  lemma ReachesTransitive(g: Graph, a: Id, b: Id, c: Id)
    requires Reaches(g, a, b) && Reaches(g, b, c)
    ensures Reaches(g, a, c)
  {
    var p :| IsPathBetween(g, p, a, b);
    var q :| IsPathBetween(g, q, b, c);
    PathJoin(g, p, q);
    assert IsPathBetween(g, p + q[1..], a, c);
  }

  lemma ReachesSelf(g: Graph, a: Id)
    ensures Reaches(g, a, a)
  {
    assert IsPathBetween(g, [a], a, a);
  }

  lemma ReachesStep(g: Graph, a: Id, b: Id)
    requires Edge(g, a, b)
    ensures Reaches(g, a, b)
  {
    assert IsPathBetween(g, [a, b], a, b);
  }

  lemma SeparatesMonotone(g: Graph, small: set<Id>, big: set<Id>, a: Id, targets: set<Id>)
    requires small <= big && Separates(g, small, a, targets)
    ensures Separates(g, big, a, targets)
  {
    forall p | IsPath(g, p) && p[0] == a && p[|p| - 1] in targets
      ensures Meets(p, big)
    {
      assert Meets(p, small);
    }
  }

  /** A vertex of `set` that is the last one of its kind on a path. */
  lemma LastMember(p: seq<Id>, s: set<Id>) returns (k: nat)
    requires Meets(p, s)
    ensures k < |p| && p[k] in s && !Meets(p[k + 1..], s)
  {
    k := |p| - 1;
    while p[k] !in s
      invariant k < |p| && !Meets(p[k + 1..], s)
      invariant exists i :: 0 <= i <= k && p[i] in s
      decreases k
    {
      assert p[k..] == [p[k]] + p[k + 1..];
      k := k - 1;
    }
  }

  /** Behind its last visit to `a` a path meets `cut`, if every successor is separated with `a`. */
  lemma MeetsBehind(g: Graph, cut: set<Id>, a: Id, targets: set<Id>, p: seq<Id>, k: nat)
    requires forall b :: Edge(g, a, b) ==> Separates(g, cut + {a}, b, targets)
    requires IsPath(g, p) && k < |p| - 1 && p[k] == a && p[|p| - 1] in targets && !Meets(p[k + 1..], {a})
    ensures Meets(p, cut)
  {
    var q := p[k + 1..];
    assert Edge(g, p[k], p[k + 1]);
    PathSuffix(g, p, k + 1);
    assert q[|q| - 1] == p[|p| - 1] && q[0] == p[k + 1];
    assert Meets(q, cut + {a});
    var i :| 0 <= i < |q| && q[i] in cut + {a};
    assert q[i] !in {a};
    assert p[k + 1 + i] == q[i];
  }

  /**
   * When every successor of `a` is separated from the targets by `cut + {a}`
   * and `a` itself is no target, `cut` alone separates `a`.
   */
  lemma SeparatesStep(g: Graph, cut: set<Id>, a: Id, targets: set<Id>)
    requires a !in targets
    requires forall b :: Edge(g, a, b) ==> Separates(g, cut + {a}, b, targets)
    ensures Separates(g, cut, a, targets)
  {
    forall p | IsPath(g, p) && p[0] == a && p[|p| - 1] in targets
      ensures Meets(p, cut)
    {
      assert Meets(p, {a}) by { assert p[0] in {a}; }
      var k := LastMember(p, {a});
      MeetsBehind(g, cut, a, targets, p, k);
    }
  }

  /** A cycle can be started at any of its vertices. */
  lemma CycleRotate(g: Graph, p: seq<Id>, k: nat)
    requires IsCycle(g, p) && k < |p|
    ensures IsCycle(g, p[k..] + p[1..k + 1]) && (p[k..] + p[1..k + 1])[0] == p[k]
  {
    PathSuffix(g, p, k);
    PathPrefix(g, p, k + 1);
    PathJoin(g, p[k..], p[..k + 1]);
    assert p[..k + 1][1..] == p[1..k + 1];
  }

  /** A walk cannot leave a set that is closed under edges. */
  lemma {:induction false} PathStaysInside(g: Graph, p: seq<Id>, s: set<Id>, k: nat)
    requires IsPath(g, p) && k < |p| && p[k] in s
    requires forall a, b :: a in s && Edge(g, a, b) ==> b in s
    ensures forall i :: k <= i < |p| ==> p[i] in s
    decreases |p| - k
  {
    if k + 1 < |p| {
      assert Edge(g, p[k], p[k + 1]);
      PathStaysInside(g, p, s, k + 1);
    }
  }

  /** If some successor reaches a cycle, so does the vertex. */
  lemma ReachesCycleStep(g: Graph, a: Id, b: Id)
    requires Edge(g, a, b) && ReachesCycle(g, b)
    ensures ReachesCycle(g, a)
  {
    var p, q :| IsCycleBeyond(g, b, p, q);
    PathJoin(g, [a, b], p);
    assert IsCycleBeyond(g, a, [a, b] + p[1..], q);
  }

  /** A vertex that reaches a cycle has a successor that does. */
  lemma ReachesCycleSplit(g: Graph, a: Id) returns (b: Id)
    requires ReachesCycle(g, a)
    ensures Edge(g, a, b) && ReachesCycle(g, b)
  {
    var p, q :| IsCycleBeyond(g, a, p, q);
    if |p| == 1 {
      b := q[1];
      assert Edge(g, q[0], q[1]);
      CycleRotate(g, q, 1);
      assert IsCycleBeyond(g, b, [b], q[1..] + q[1..2]);
    } else {
      b := p[1];
      assert Edge(g, p[0], p[1]);
      PathSuffix(g, p, 1);
      assert IsCycleBeyond(g, b, p[1..], q);
    }
  }

  lemma SinkReachesNoCycle(g: Graph, a: Id)
    requires forall b :: !Edge(g, a, b)
    ensures !ReachesCycle(g, a)
  {
    if ReachesCycle(g, a) {
      var b := ReachesCycleSplit(g, a);
    }
  }

  lemma CycleIsReached(g: Graph, a: Id, b: Id)
    requires Edge(g, a, b) && Reaches(g, b, a)
    ensures ReachesCycle(g, a)
  {
    var p :| IsPathBetween(g, p, b, a);
    PathJoin(g, [a, b], p);
    assert IsCycle(g, [a, b] + p[1..]);
    assert IsCycleBeyond(g, a, [a], [a, b] + p[1..]);
  }

  ghost predicate HasSuccessor(g: Graph, a: Id) {
    exists b :: Edge(g, a, b)
  }

  /** Cycles only use vertices that have successors, so other edges do not matter for them. */
  lemma ReachesCycleTransfers(g: Graph, h: Graph, a: Id)
    requires forall x, y :: Edge(g, x, y) && HasSuccessor(g, y) ==> Edge(h, x, y)
    requires ReachesCycle(g, a)
    ensures ReachesCycle(h, a)
  {
    var p, q :| IsCycleBeyond(g, a, p, q);
    forall i | 0 <= i < |q| - 1 ensures HasSuccessor(g, q[i]) {
      assert Edge(g, q[i], q[i + 1]);
    }
    forall i {:trigger q[i]} | 0 <= i < |q| - 1 ensures Edge(h, q[i], q[i + 1]) {
      assert Edge(g, q[i], q[i + 1]);
      assert HasSuccessor(g, q[0]);
    }
    forall i {:trigger p[i]} | 0 <= i < |p| - 1 ensures Edge(h, p[i], p[i + 1]) {
      assert Edge(g, p[i], p[i + 1]);
      assert i + 1 < |p| - 1 ==> Edge(g, p[i + 1], p[i + 2]);
    }
    assert IsCycleBeyond(h, a, p, q);
  }

  /** No edge leads to either root, and all other edges are shared. */
  ghost predicate OnlyRootsDiffer(g: Graph, h: Graph, r: Id, q: Id) {
    && (forall a :: !Edge(g, a, r) && !Edge(g, a, q) && !Edge(h, a, r) && !Edge(h, a, q))
    && (forall b :: Edge(g, r, b) <==> Edge(h, q, b))
    && forall a, b :: a != r && a != q ==> (Edge(g, a, b) <==> Edge(h, a, b))
  }

  lemma PathBelowRoot(g: Graph, h: Graph, r: Id, q: Id, p: seq<Id>)
    requires OnlyRootsDiffer(g, h, r, q) && IsPath(g, p) && p[0] != r && p[0] != q
    ensures IsPath(h, p)
    ensures forall i :: 0 <= i < |p| ==> p[i] != r && p[i] != q
  {
    forall i | 0 <= i < |p| ensures p[i] != r && p[i] != q {
      if i > 0 {
        assert Edge(g, p[i - 1], p[i - 1 + 1]);
      }
    }
    forall i {:trigger p[i]} | 0 <= i < |p| - 1 ensures Edge(h, p[i], p[i + 1]) {
      assert Edge(g, p[i], p[i + 1]);
    }
  }

  /** Whether a root that nobody lists reaches a cycle does not depend on its name. */
  lemma RootRenamed(g: Graph, h: Graph, r: Id, q: Id)
    requires OnlyRootsDiffer(g, h, r, q) && ReachesCycle(g, r)
    ensures ReachesCycle(h, q)
  {
    var b := ReachesCycleSplit(g, r);
    var path, cycle :| IsCycleBeyond(g, b, path, cycle);
    assert b != r && b != q;
    PathBelowRoot(g, h, r, q, path);
    assert path[|path| - 1] != r;
    PathBelowRoot(g, h, r, q, cycle);
    assert IsCycleBeyond(h, b, path, cycle);
    ReachesCycleStep(h, q, b);
  }
}
