/**
 * A build whose second pass hides a server from the first root. Two chains `a` and `b`
 * list each other; the pass over `b`, a rule outbound, cuts the edge from `a` to `b` that
 * the pass over the active node had kept, so whatever only `b` lists is lost to it.
 */
module HiddenServer {
  import opened Text
  import opened Digraph
  import opened Profiles
  import opened GroupResolution
  import opened ContextBuild
  import opened BuildGraph
  import opened BuildServers

  /** After a successful pass no visited entry lists the root of that pass. */
  lemma PassDropsRoot(env: Env, raw: Raw, root: Profile, proxies: Proxies, above: Id, t: Id)
    requires Describes(raw, env) && root.IsGroup() && raw.root == root.indexId && raw.profiles[raw.root] == root
    requires RawServerBelow(raw, root.indexId, t) && t != root.indexId
    requires forall id :: Edge(raw.graph, id, t) ==> id == above
    ensures var o := RegisterGroup(env, root, proxies);
            && o.result.Success()
            && above in o.walk.proxies
            && root.indexId !in o.walk.proxies[above].protocol.ChildIds()
  {
    var o := RegisterGroup(env, root, proxies);
    var visited := o.walk.visited;
    TraverseEstablishes(env, raw, root, {raw.root}, Walk({raw.root}, proxies));
    OutcomeServers(env, raw, proxies, o);
    assert ServerBelow(o.walk.proxies, raw.root, t);
    var g := ChildGraph(o.walk.proxies);
    var p :| IsPathBetween(g, p, raw.root, t);
    forall u, v | u in visited && Edge(g, u, v) ensures v in visited {
      ResolvedEdge(raw, o.walk, u, v);
    }
    PathStaysInside(g, p, visited, 0);
    var k := |p| - 2;
    assert Edge(g, p[k], p[k + 1]);
    ResolvedEdge(raw, o.walk, p[k], p[k + 1]);
    if Edge(g, above, raw.root) {
      ResolvedEdge(raw, o.walk, above, raw.root);
    }
  }

  /** A vertex listed only by a vertex that nobody lists is reached from nowhere else. */
  lemma Unreachable(g: Graph, r: Id, b: Id, y: Id)
    requires r != b && r != y
    requires forall id :: Edge(g, id, y) ==> id == b
    requires forall id :: !Edge(g, id, b)
    ensures !Reaches(g, r, y)
  {
    forall p | IsPath(g, p) && p[|p| - 1] == y ensures p[0] in {b, y} {
      if |p| > 1 {
        var k := |p| - 2;
        LastEdge(g, p);
        if k > 0 {
          PathPrefix(g, p, k + 1);
          LastEdge(g, p[..k + 1]);
        }
      }
    }
  }

  lemma LastEdge(g: Graph, p: seq<Id>)
    requires IsPath(g, p) && |p| > 1
    ensures Edge(g, p[|p| - 2], p[|p| - 1])
  {
    var k := |p| - 2;
    assert Edge(g, p[k], p[k + 1]);
  }

  /**
   * From `r` a server `y` is reached, but only through `b`; `b` is listed only by `above`,
   * and `above` in turn is the only way from `b` to some server `t`.
   */
  ghost predicate OnlyThrough(raw: Raw, r: Id, b: Id, above: Id, t: Id, y: Id) {
    && r != b && r != y && t != b
    && RawServerBelow(raw, r, y)
    && RawServerBelow(raw, b, t)
    && (forall id :: Edge(raw.graph, id, y) ==> id == b)
    && (forall id :: Edge(raw.graph, id, b) ==> id == above)
    && (forall id :: Edge(raw.graph, id, t) ==> id == above)
  }

  lemma SecondPass(env: Env, raw: Raw, fromB: Raw, b: Profile, proxies: Proxies, above: Id, r: Id, t: Id, y: Id)
    requires Describes(fromB, env) && b.IsGroup() && fromB == raw.(root := b.indexId) && fromB.profiles[b.indexId] == b
    requires Trim(b.indexId) != "" && !IsAlias(above)
    requires OnlyThrough(raw, r, b.indexId, above, t, y)
    requires EntriesOk(raw, ResolveNode(env, proxies, b).proxies)
    ensures var built := ResolveNode(env, proxies, b);
            && built.result.Success()
            && (forall id :: !Edge(IdGraph(built.proxies), id, b.indexId))
            && (forall id :: Edge(IdGraph(built.proxies), id, y) ==> id == b.indexId)
  {
    assert RawServerBelow(fromB, b.indexId, t);
    PassDropsRoot(env, fromB, b, proxies, above, t);
    var after := ResolveNode(env, proxies, b).proxies;
    forall id, kid | Edge(IdGraph(after), id, kid) ensures Edge(raw.graph, id, kid) {
      assert EntrySound(raw, after[id], id);
    }
  }

  /** In every such arrangement a pass over the rule outbound `b` leaves `r` without `y`. */
  lemma LaterPassHidesServer(env: Env, r: Profile, b: Profile, above: Id, t: Id, y: Id, rule: Rule)
    requires UniqueIds(env.profiles) && r in env.profiles && b in env.profiles && r.IsGroup() && b.IsGroup()
    requires Trim(r.indexId) != "" && Trim(b.indexId) != "" && !IsAlias(above)
    requires rule.enabled && rule.outboundTag == Some(b.remarks) && !IsBuiltinOutbound(rule.outboundTag)
    requires Trim(b.remarks) == b.remarks != "" && FindRemarks(env.profiles, b.remarks) == Some(b)
    requires OnlyThrough(RawOf(env, r), r.indexId, b.indexId, above, t, y)
    ensures RawServerBelow(RawOf(env, r), r.indexId, y)
    ensures !ServerListed(Build(env, r, [rule]).proxies, r.indexId, y)
  {
    var raw := RawOf(env, r);
    var first := ResolveNode(env, map[], r);
    ResolutionPreservesServers(env, r, map[]);
    ResolveNodeKeepsEntries(env, r, r, map[]);
    ResolveNodeKeepsEntries(env, r, b, first.proxies);
    RawOfDescribes(env, b);
    SameArrangement(env, r, b);
    ProfilesDescribed(env, b);
    SecondPass(env, raw, RawOf(env, b), b, first.proxies, above, r.indexId, t, y);
    BuildOneRule(env, r, b, rule);
    var second := ResolveNode(env, first.proxies, b).proxies;
    AliasAddsNoEdge(second, ALIAS_PREFIX + b.remarks, b);
    Unreachable(IdGraph(Build(env, r, [rule]).proxies), r.indexId, b.indexId, y);
  }

  lemma AliasAddsNoEdge(proxies: Proxies, key: Id, node: Profile)
    requires IsAlias(key)
    ensures IdGraph(proxies[key := node]) == IdGraph(proxies)
  {
  }

  lemma BuildOneRule(env: Env, r: Profile, b: Profile, rule: Rule)
    requires rule.enabled && rule.outboundTag == Some(b.remarks) && !IsBuiltinOutbound(rule.outboundTag)
    requires Trim(b.remarks) == b.remarks != "" && FindRemarks(env.profiles, b.remarks) == Some(b)
    requires ResolveNode(env, map[], r).result.Success()
    requires ResolveNode(env, ResolveNode(env, map[], r).proxies, b).result.Success()
    ensures Build(env, r, [rule]).proxies
            == ResolveNode(env, ResolveNode(env, map[], r).proxies, b).proxies[ALIAS_PREFIX + b.remarks := b]
  {
    var first := ResolveNode(env, map[], r);
    assert [rule][1..] == [];
    assert ResolveRules(env, first, [rule]) == ResolveRule(env, first, rule);
  }

  // ----------------------------------------------------------------- one arrangement

  /** Without subscriptions, an edge is an entry of a stored profile's list. */
  lemma ListedEdge(env: Env, root: Profile, id: Id, kid: Id)
    requires UniqueIds(env.profiles) && root in env.profiles
    requires forall p :: p in env.profiles ==> !p.protocol.PolicyGroup?
    ensures Edge(RawChildren(env, root), id, kid)
            <==> exists p :: p in env.profiles && p.indexId == id && kid in p.protocol.ChildIds() && kid in IdsOf(env.profiles)
  {
    StoredChildren(env, root, id);
    forall p | p in env.profiles && p.indexId == id ensures Find(env.profiles, id) == Some(p) {
      FindSelf(env.profiles, p);
    }
    if id in IdsOf(env.profiles) {
      var p := Find(env.profiles, id).value;
      ListedChild(env, p, kid);
    }
  }

  lemma ListedChild(env: Env, p: Profile, kid: Id)
    requires !p.protocol.PolicyGroup?
    ensures kid in IdList(env.ChildProfiles(p.protocol))
            <==> kid in p.protocol.ChildIds() && kid in IdsOf(env.profiles)
  {
    if kid in p.protocol.ChildIds() && kid in IdsOf(env.profiles) {
      assert Find(env.profiles, kid).value in env.ChildProfiles(p.protocol);
    }
  }

  lemma StoredLeaf(env: Env, root: Profile, leaf: Profile)
    requires UniqueIds(env.profiles) && root in env.profiles && leaf in env.profiles
    requires !leaf.IsGroup() && leaf.Accepted()
    ensures leaf.indexId in RawLeaves(env, root)
  {
    FindSelf(env.profiles, leaf);
    StoredRootIsLookup(env, root, leaf.indexId);
  }

  const R := Profile("r", "R", None, ProxyChain(["a"]), [])
  const A := Profile("a", "A", None, ProxyChain(["b", "x"]), [])
  const B := Profile("b", "B", None, ProxyChain(["a", "y"]), [])
  const X := Profile("x", "X", None, Server, [])
  const Y := Profile("y", "Y", None, Server, [])

  predicate ArrangementEdge(id: Id, kid: Id) {
    (id == "r" && kid == "a") || (id == "a" && kid in ["b", "x"]) || (id == "b" && kid in ["a", "y"])
  }

  lemma ArrangementMembers(profiles: seq<Profile>)
    requires profiles == [R, A, B, X, Y]
    ensures UniqueIds(profiles)
    ensures forall p :: p in profiles <==> p == R || p == A || p == B || p == X || p == Y
    ensures IdsOf(profiles) == {"r", "a", "b", "x", "y"}
  {
    assert R in profiles && A in profiles && B in profiles && X in profiles && Y in profiles;
  }

  lemma ArrangementLists(p: Profile, kid: Id)
    requires p == R || p == A || p == B || p == X || p == Y
    ensures kid in p.protocol.ChildIds() <==> ArrangementEdge(p.indexId, kid)
    ensures ArrangementEdge(p.indexId, kid) ==> kid in {"r", "a", "b", "x", "y"}
    ensures p.indexId in {"r", "a", "b", "x", "y"}
  {
  }

  lemma ArrangementEdges(env: Env, id: Id, kid: Id)
    requires UniqueIds(env.profiles) && IdsOf(env.profiles) == {"r", "a", "b", "x", "y"}
    requires forall p :: p in env.profiles <==> p == R || p == A || p == B || p == X || p == Y
    ensures Edge(RawChildren(env, R), id, kid) <==> ArrangementEdge(id, kid)
  {
    ListedEdge(env, R, id, kid);
    if Edge(RawChildren(env, R), id, kid) {
      var p :| p in env.profiles && p.indexId == id && kid in p.protocol.ChildIds();
      ArrangementLists(p, kid);
    } else if ArrangementEdge(id, kid) {
      var p := Find(env.profiles, id).value;
      ArrangementLists(p, kid);
    }
  }

  lemma ArrangementReaches(raw: Raw)
    requires forall id, kid :: Edge(raw.graph, id, kid) <==> ArrangementEdge(id, kid)
    requires "x" in raw.leaves && "y" in raw.leaves
    ensures OnlyThrough(raw, "r", "b", "a", "x", "y")
  {
    assert IsPathBetween(raw.graph, ["r", "a", "b", "y"], "r", "y");
    assert IsPathBetween(raw.graph, ["b", "a", "x"], "b", "x");
  }

  /** Five profiles in which `r` leads to `y` only through `b`. */
  lemma ArrangementExists(env: Env)
    requires env.profiles == [R, A, B, X, Y]
    ensures UniqueIds(env.profiles) && OnlyThrough(RawOf(env, R), "r", "b", "a", "x", "y")
  {
    ArrangementMembers(env.profiles);
    forall id, kid ensures Edge(RawChildren(env, R), id, kid) <==> ArrangementEdge(id, kid) {
      ArrangementEdges(env, id, kid);
    }
    StoredLeaf(env, R, X);
    StoredLeaf(env, R, Y);
    ArrangementReaches(RawOf(env, R));
  }

  const RULE_B := Rule(None, Some("B"), true)

  lemma FindsB(profiles: seq<Profile>)
    requires profiles == [R, A, B, X, Y]
    ensures FindRemarks(profiles, "B") == Some(B)
  {
    assert profiles[1..] == [A, B, X, Y] && profiles[1..][1..] == [B, X, Y];
    assert FindRemarks([B, X, Y], "B") == Some(B);
    assert FindRemarks([A, B, X, Y], "B") == FindRemarks([B, X, Y], "B");
  }

  lemma RuleFacts()
    ensures Trim("r") == "r" && Trim("b") == "b" && Trim("B") == "B"
    ensures !IsAlias("a") && !IsBuiltinOutbound(Some("B"))
  {
    assert "a"[0] != ALIAS_PREFIX[0];
    assert |PROXY_TAG| > 1 && |DIRECT_TAG| > 1 && |BLOCK_TAG| > 1;
  }

  lemma ExampleHides(env: Env, r: Profile, b: Profile, rule: Rule)
    requires UniqueIds(env.profiles) && r in env.profiles && b in env.profiles && r.IsGroup() && b.IsGroup()
    requires r.indexId == "r" && b.indexId == "b" && b.remarks == "B" && rule == Rule(None, Some("B"), true)
    requires FindRemarks(env.profiles, "B") == Some(b)
    requires OnlyThrough(RawOf(env, r), "r", "b", "a", "x", "y")
    ensures RawServerBelow(RawOf(env, r), "r", "y")
    ensures !ServerListed(Build(env, r, [rule]).proxies, "r", "y")
  {
    RuleFacts();
    LaterPassHidesServer(env, r, b, "a", "x", "y", rule);
  }

  /** With them, a build for `r` and one rule for `b` leaves `r` without `y`. */
  lemma HiddenServerExample(env: Env)
    requires env.profiles == [R, A, B, X, Y]
    ensures RawServerBelow(RawOf(env, R), "r", "y")
    ensures !ServerListed(Build(env, R, [RULE_B]).proxies, "r", "y")
  {
    ArrangementExists(env);
    ArrangementMembers(env.profiles);
    FindsB(env.profiles);
    ExampleHides(env, R, B, RULE_B);
  }
}
