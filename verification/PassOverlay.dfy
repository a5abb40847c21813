/**
 * A pass never reads the map it writes into, so each pass lays the entries it would store
 * into an empty map over the earlier ones. What an entry lists after a pass follows from
 * the two maps alone.
 */
module PassOverlay {
  import opened Text
  import opened Digraph
  import opened Profiles
  import opened GroupResolution
  import opened ContextBuild

  // ------------------------------------------------------------ passes lay maps on maps

  function Over(base: Proxies, walk: Walk): Walk {
    Walk(walk.visited, base + walk.proxies)
  }

  function ProgressOver(base: Proxies, progress: Progress): Progress {
    progress.(walk := Over(base, progress.walk))
  }

  lemma StoreOver(base: Proxies, p: Proxies, id: Id, entry: Profile)
    ensures (base + p)[id := entry] == base + p[id := entry]
  {
  }

  lemma {:induction false} TraverseOver(env: Env, node: Profile, ancestors: set<Id>, base: Proxies, walk: Walk)
    ensures var o := Traverse(env, node, ancestors, walk);
            Traverse(env, node, ancestors, Over(base, walk)) == Outcome(Over(base, o.walk), o.result)
    decreases IdsOf(env.profiles) - ancestors, 2, 0
  {
    var kids, start := env.ChildProfiles(node.protocol), Progress(walk, [], EMPTY_RESULT);
    VisitChildrenOver(env, node, kids, ancestors, base, start);
    var progress := VisitChildren(env, node, kids, ancestors, start);
    StoreOver(base, progress.walk.proxies, node.indexId, node.WithChildren(progress.childIds));
  }

  lemma {:induction false} VisitChildrenOver(env: Env, node: Profile, kids: seq<Profile>, ancestors: set<Id>,
                                             base: Proxies, progress: Progress)
    requires forall kid :: kid in kids ==> kid in env.profiles
    ensures VisitChildren(env, node, kids, ancestors, ProgressOver(base, progress))
            == ProgressOver(base, VisitChildren(env, node, kids, ancestors, progress))
    decreases IdsOf(env.profiles) - ancestors, 1, |kids|
  {
    if kids != [] {
      VisitChildOver(env, node, kids[0], ancestors, base, progress);
      VisitChildrenOver(env, node, kids[1..], ancestors, base, VisitChild(env, node, kids[0], ancestors, progress));
    }
  }

  lemma {:induction false} VisitChildOver(env: Env, node: Profile, kid: Profile, ancestors: set<Id>, base: Proxies,
                                          progress: Progress)
    requires kid in env.profiles
    ensures VisitChild(env, node, kid, ancestors, ProgressOver(base, progress))
            == ProgressOver(base, VisitChild(env, node, kid, ancestors, progress))
    decreases IdsOf(env.profiles) - ancestors, 0, 0
  {
    if kid.indexId !in ancestors && kid.indexId !in progress.walk.visited {
      if kid.IsGroup() {
        TraverseOver(env, kid, ancestors + {kid.indexId}, base, progress.walk);
      } else {
        StoreOver(base, progress.walk.proxies, kid.indexId, kid);
      }
    }
  }

  /** The entries that the pass over `node` stores. */
  function Fresh(env: Env, node: Profile): Proxies {
    ResolveNode(env, map[], node).proxies
  }

  /** A pass lays its own entries over the map and reports what it reports alone. */
  lemma PassIsOverlay(env: Env, proxies: Proxies, node: Profile)
    ensures ResolveNode(env, proxies, node)
            == Built(proxies + Fresh(env, node), ResolveNode(env, map[], node).result)
  {
    assert proxies + map[] == proxies;
    if Trim(node.indexId) != "" && node.IsGroup() {
      TraverseOver(env, node, {node.indexId}, proxies, Walk({node.indexId}, map[]));
    }
  }

  // ------------------------------------------------------------------- reaching through

  /** A walk outside `inner` from `a` to `t`. */
  ghost predicate ReachesOutside(g: Graph, inner: set<Id>, a: Id, t: Id) {
    exists p :: IsPathBetween(g, p, a, t) && !Meets(p, inner)
  }

  /** A walk from `a` that is outside `inner` up to its last vertex `v`, which is inside. */
  ghost predicate EntersAt(g: Graph, inner: set<Id>, a: Id, v: Id) {
    v in inner && exists p :: EntersBy(g, inner, a, v, p)
  }

  ghost predicate EntersBy(g: Graph, inner: set<Id>, a: Id, v: Id, p: seq<Id>) {
    IsPathBetween(g, p, a, v) && !Meets(p[..|p| - 1], inner)
  }

  lemma FirstMember(p: seq<Id>, s: set<Id>) returns (k: nat)
    requires Meets(p, s)
    ensures k < |p| && p[k] in s && !Meets(p[..k], s)
  {
    k := 0;
    while p[k] !in s
      invariant k < |p| && !Meets(p[..k], s)
      invariant exists i :: k <= i < |p| && p[i] in s
      decreases |p| - k
    {
      assert p[..k + 1] == p[..k] + [p[k]];
      k := k + 1;
    }
  }

  lemma EntersFirst(g: Graph, inner: set<Id>, p: seq<Id>, k: nat)
    requires IsPath(g, p) && k < |p| && p[k] in inner && !Meets(p[..k], inner)
    ensures EntersAt(g, inner, p[0], p[k])
  {
    var before := p[..k + 1];
    PathPrefix(g, p, k + 1);
    assert before[..|before| - 1] == p[..k];
    assert EntersBy(g, inner, p[0], p[k], before);
  }

  /** Where `f` is laid over `g` and no edge leaves `f`, a walk stays outside or ends inside `f`. */
  lemma OverlayReaches(g: Graph, f: Graph, a: Id, t: Id)
    requires forall x, y :: Edge(f, x, y) ==> y in f
    ensures Reaches(g + f, a, t)
            <==> ReachesOutside(g, f.Keys, a, t) || exists v :: EntersAt(g, f.Keys, a, v) && Reaches(f, v, t)
  {
    if Reaches(g + f, a, t) {
      var p :| IsPathBetween(g + f, p, a, t);
      OverlayPathSplits(g, f, p, a, t);
    }
    if ReachesOutside(g, f.Keys, a, t) {
      var p :| IsPathBetween(g, p, a, t) && !Meets(p, f.Keys);
      OutsidePathStays(g, f, p);
      assert IsPathBetween(g + f, p, a, t);
    }
    if v :| EntersAt(g, f.Keys, a, v) && Reaches(f, v, t) {
      var p :| EntersBy(g, f.Keys, a, v, p);
      OutsidePrefixStays(g, f, p);
      assert IsPathBetween(g + f, p, a, v);
      var q :| IsPathBetween(f, q, v, t);
      InsidePathStays(g, f, q);
      assert IsPathBetween(g + f, q, v, t);
      ReachesTransitive(g + f, a, v, t);
    }
  }

  lemma OutsidePathStays(g: Graph, f: Graph, p: seq<Id>)
    requires IsPath(g, p) && !Meets(p, f.Keys)
    ensures IsPath(g + f, p)
  {
    forall i {:trigger p[i]} | 0 <= i < |p| - 1 ensures Edge(g + f, p[i], p[i + 1]) {
      assert Edge(g, p[i], p[i + 1]) && p[i] !in f.Keys;
    }
  }

  lemma OutsidePrefixStays(g: Graph, f: Graph, p: seq<Id>)
    requires IsPath(g, p) && !Meets(p[..|p| - 1], f.Keys)
    ensures IsPath(g + f, p)
  {
    forall i {:trigger p[i]} | 0 <= i < |p| - 1 ensures Edge(g + f, p[i], p[i + 1]) {
      assert Edge(g, p[i], p[i + 1]) && p[..|p| - 1][i] !in f.Keys;
    }
  }

  lemma InsidePathStays(g: Graph, f: Graph, q: seq<Id>)
    requires IsPath(f, q)
    ensures IsPath(g + f, q)
  {
    forall i {:trigger q[i]} | 0 <= i < |q| - 1 ensures Edge(g + f, q[i], q[i + 1]) {
      assert Edge(f, q[i], q[i + 1]);
    }
  }

  lemma OverlayPathSplits(g: Graph, f: Graph, p: seq<Id>, a: Id, t: Id)
    requires forall x, y :: Edge(f, x, y) ==> y in f
    requires IsPathBetween(g + f, p, a, t)
    ensures ReachesOutside(g, f.Keys, a, t) || exists v :: EntersAt(g, f.Keys, a, v) && Reaches(f, v, t)
  {
    if Meets(p, f.Keys) {
      var k := FirstMember(p, f.Keys);
      var before, behind := p[..k + 1], p[k..];
      assert before[..|before| - 1] == p[..k];
      forall i {:trigger before[i]} | 0 <= i < |before| - 1 ensures Edge(g, before[i], before[i + 1]) {
        assert Edge(g + f, p[i], p[i + 1]) && p[..k][i] !in f.Keys;
      }
      assert EntersBy(g, f.Keys, a, p[k], before);
      assert EntersAt(g, f.Keys, a, p[k]);
      PathSuffix(g + f, p, k);
      StaysInside(g, f, behind);
      assert IsPathBetween(f, behind, p[k], t);
      assert Reaches(f, p[k], t);
    } else {
      forall i {:trigger p[i]} | 0 <= i < |p| - 1 ensures Edge(g, p[i], p[i + 1]) {
        assert Edge(g + f, p[i], p[i + 1]) && p[i] !in f.Keys;
      }
      assert IsPathBetween(g, p, a, t);
    }
  }

  lemma StaysInside(g: Graph, f: Graph, p: seq<Id>)
    requires forall x, y :: Edge(f, x, y) ==> y in f
    requires IsPath(g + f, p) && p[0] in f
    ensures IsPath(f, p)
  {
    forall x, y | x in f.Keys && Edge(g + f, x, y) ensures y in f.Keys {
      assert Edge(f, x, y);
    }
    PathStaysInside(g + f, p, f.Keys, 0);
    forall i {:trigger p[i]} | 0 <= i < |p| - 1 ensures Edge(f, p[i], p[i + 1]) {
      assert Edge(g + f, p[i], p[i + 1]);
    }
  }
}
