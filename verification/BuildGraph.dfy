/** The proxy map after any number of passes: what its entries list, and what they reach. */
module BuildGraph {
  import opened Text
  import opened Digraph
  import opened Profiles
  import opened GroupResolution
  import opened ContextBuild

  /** The child lists of the entries stored under profile ids, leaving out rule aliases. */
  function IdGraph(proxies: Proxies): Graph {
    map id | id in proxies && !IsAlias(id) :: proxies[id].protocol.ChildIds()
  }

  ghost predicate ListsOnlyKeys(proxies: Proxies) {
    forall a, b :: Edge(IdGraph(proxies), a, b) ==> b in proxies
  }

  ghost predicate GraphOk(proxies: Proxies) {
    Acyclic(IdGraph(proxies)) && ListsOnlyKeys(proxies)
  }

  lemma IdGraphCycleIsChildCycle(proxies: Proxies, p: seq<Id>)
    requires IsCycle(IdGraph(proxies), p)
    ensures IsCycle(ChildGraph(proxies), p)
  {
    forall i {:trigger p[i]} | 0 <= i < |p| - 1 ensures Edge(ChildGraph(proxies), p[i], p[i + 1]) {
      assert Edge(IdGraph(proxies), p[i], p[i + 1]);
    }
  }

  lemma CycleStaysOld(before: Proxies, after: Proxies, written: set<Id>, p: seq<Id>)
    requires OnlyWrites(before, after, written)
    requires IsCycle(IdGraph(after), p) && !Meets(p, written)
    ensures IsCycle(IdGraph(before), p)
  {
    forall i {:trigger p[i]} | 0 <= i < |p| - 1 ensures Edge(IdGraph(before), p[i], p[i + 1]) {
      assert Edge(IdGraph(after), p[i], p[i + 1]);
      assert p[i] !in written;
    }
  }

  /**
   * Overwriting part of an acyclic graph by a closed acyclic part keeps it acyclic: no
   * new edge leads out of the new part, so no cycle can cross its border.
   */
  lemma OverwriteKeepsGraph(before: Proxies, after: Proxies, written: set<Id>)
    requires GraphOk(before) && OnlyWrites(before, after, written)
    requires forall id :: id in written ==> id in after
    requires forall a, b :: a in written && Edge(ChildGraph(after), a, b) ==> b in written
    requires NoCycleFrom(after, written)
    ensures GraphOk(after)
  {
    var h := IdGraph(after);
    forall p ensures !IsCycle(h, p) {
      if IsCycle(h, p) {
        if Meets(p, written) {
          CycleIntoWritten(after, written, p);
        } else {
          CycleStaysOld(before, after, written, p);
        }
      }
    }
    forall a, b | Edge(h, a, b) ensures b in after {
      if a in written {
        assert Edge(ChildGraph(after), a, b);
      } else {
        assert Edge(IdGraph(before), a, b);
      }
    }
  }

  lemma CycleIntoWritten(after: Proxies, written: set<Id>, p: seq<Id>)
    requires IsCycle(IdGraph(after), p) && Meets(p, written)
    requires forall a, b :: a in written && Edge(ChildGraph(after), a, b) ==> b in written
    ensures IsCycle(ChildGraph(after), p) && p[0] in written
  {
    IdGraphCycleIsChildCycle(after, p);
    var k :| 0 <= k < |p| && p[k] in written;
    PathStaysInside(ChildGraph(after), p, written, k);
  }

  /** One successful pass over a group keeps the graph closed and acyclic. */
  lemma RegisterGroupKeepsGraph(env: Env, root: Profile, proxies: Proxies)
    requires UniqueIds(env.profiles) && root.IsGroup() && GraphOk(proxies)
    ensures var o := RegisterGroup(env, root, proxies);
            && GraphOk(o.walk.proxies)
            && (o.result.Success() ==> root.indexId in o.walk.proxies)
  {
    var raw := RawOf(env, root);
    RegisterGroupEstablishes(env, root, proxies);
    TraverseWrites(env, root, {root.indexId}, Walk({root.indexId}, proxies));
    PassKeepsGraph(raw, proxies, RegisterGroup(env, root, proxies));
  }

  lemma PassKeepsGraph(raw: Raw, proxies: Proxies, o: Outcome)
    requires GraphOk(proxies)
    requires TraverseOk(raw, raw.root, {raw.root}, Walk({raw.root}, proxies), o)
    requires OnlyWrites(proxies, o.walk.proxies, o.walk.visited - {raw.root} + {raw.root})
    ensures GraphOk(o.walk.proxies)
    ensures o.result.Success() ==> raw.root in o.walk.proxies
  {
    if o.result.Success() {
      var visited := o.walk.visited;
      var done := visited - {raw.root};
      assert visited - {raw.root} + {raw.root} == visited;
      forall id | id in visited ensures EntryOk(raw, o.walk.proxies, done, id) {
      }
      forall a, b | a in visited && Edge(ChildGraph(o.walk.proxies), a, b) ensures b in done {
        ResolvedEdge(raw, o.walk, a, b);
      }
      assert done + {raw.root} == visited;
      NoCycleGrow(o.walk.proxies, done, raw.root);
      OverwriteKeepsGraph(proxies, o.walk.proxies, visited);
    }
  }

  /** Storing a node without children, or an alias, adds no edge. */
  lemma StoreKeepsGraph(proxies: Proxies, key: Id, entry: Profile)
    requires GraphOk(proxies)
    requires !entry.IsGroup() || IsAlias(key)
    ensures GraphOk(proxies[key := entry])
  {
    var after := proxies[key := entry];
    forall a, b | Edge(IdGraph(after), a, b) ensures Edge(IdGraph(proxies), a, b) {
    }
    forall p ensures !IsCycle(IdGraph(after), p) {
      if IsCycle(IdGraph(after), p) {
        EdgeSubsetCycle(IdGraph(after), IdGraph(proxies), p);
      }
    }
  }

  lemma EdgeSubsetCycle(g: Graph, h: Graph, p: seq<Id>)
    requires forall a, b :: Edge(g, a, b) ==> Edge(h, a, b)
    requires IsCycle(g, p)
    ensures IsCycle(h, p)
  {
  }

  lemma ResolveNodeKeepsGraph(env: Env, proxies: Proxies, node: Profile)
    requires UniqueIds(env.profiles) && GraphOk(proxies)
    ensures var built := ResolveNode(env, proxies, node);
            && GraphOk(built.proxies)
            && (built.result.Success() && Trim(node.indexId) != "" ==> node.indexId in built.proxies)
            && (!built.result.Success() ==> built.proxies == proxies)
  {
    if Trim(node.indexId) != "" {
      if node.IsGroup() {
        RegisterGroupKeepsGraph(env, node, proxies);
        TraverseWrites(env, node, {node.indexId}, Walk({node.indexId}, proxies));
      } else if node.Accepted() {
        StoreKeepsGraph(proxies, node.indexId, node);
      } else {
        assert SingleResult(node).errors[0] == NodeError(node.ValidationErrors()[0]);
      }
    }
  }

  lemma {:induction false} ResolveRulesKeepsGraph(env: Env, built: Built, rules: seq<Rule>)
    requires UniqueIds(env.profiles) && GraphOk(built.proxies)
    ensures GraphOk(ResolveRules(env, built, rules).proxies)
    decreases |rules|
  {
    if rules != [] {
      if rules[0].enabled && !IsBuiltinOutbound(rules[0].outboundTag) {
        ResolveRuleKeepsGraph(env, built, rules[0]);
        ResolveRulesKeepsGraph(env, ResolveRule(env, built, rules[0]), rules[1..]);
      } else {
        ResolveRulesKeepsGraph(env, built, rules[1..]);
      }
    }
  }

  lemma ResolveRuleKeepsGraph(env: Env, built: Built, rule: Rule)
    requires UniqueIds(env.profiles) && GraphOk(built.proxies)
    ensures GraphOk(ResolveRule(env, built, rule).proxies)
  {
    var tag := if rule.outboundTag.Some? then Trim(rule.outboundTag.value) else "";
    var found := FindRemarks(env.profiles, tag);
    if tag != "" && found.Some? {
      ResolveNodeKeepsGraph(env, built.proxies, found.value);
      StoreKeepsGraph(ResolveNode(env, built.proxies, found.value).proxies, ALIAS_PREFIX + tag, found.value);
    }
  }

  lemma EmptyGraphOk()
    ensures GraphOk(map[])
  {
    var empty: Proxies := map[];
    forall p ensures !IsCycle(IdGraph(empty), p) {
      assert |p| >= 2 ==> !Edge(IdGraph(empty), p[0], p[1]);
    }
  }

  /**
   * After the active node and any list of rule outbounds have been registered into one
   * map, the child lists under profile ids form an acyclic graph and name only keys.
   */
  lemma BuildKeepsGraph(env: Env, node: Profile, rules: seq<Rule>)
    requires UniqueIds(env.profiles)
    ensures GraphOk(Build(env, node, rules).proxies)
  {
    EmptyGraphOk();
    ResolveNodeKeepsGraph(env, map[], node);
    ResolveRulesKeepsGraph(env, ResolveNode(env, map[], node), rules);
  }
}
