/**
 * What an entry still reaches after later passes have overwritten part of the map: never
 * a wrong server, and every right one unless a cycle of groups lies below it.
 */
module BuildServers {
  import opened Text
  import opened Digraph
  import opened Profiles
  import opened GroupResolution
  import opened GroupCycles
  import opened ContextBuild
  import opened BuildGraph

  ghost predicate LeadsToServer(raw: Raw, id: Id) {
    exists t :: RawServerBelow(raw, id, t)
  }

  /** A child that leads to a server is listed, unless a cycle lies below the group. */
  ghost predicate Complete(raw: Raw, id: Id, ids: seq<Id>) {
    forall b :: Edge(raw.graph, id, b) ==> b in ids || ReachesCycle(raw.graph, id) || !LeadsToServer(raw, b)
  }

  ghost predicate NewComplete(raw: Raw, ancestors: set<Id>, before: Walk, after: Walk) {
    forall d :: d in after.visited && d !in before.visited ==>
      && d !in ancestors
      && d in after.proxies
      && Complete(raw, d, after.proxies[d].protocol.ChildIds())
  }

  /** A child that was dropped leads to servers and finished ids only through ancestors. */
  ghost predicate ListedOrCut(raw: Raw, ancestors: set<Id>, start: Walk, ids: seq<Id>, b: Id) {
    b in ids || Separates(raw.graph, ancestors, b, raw.leaves + start.visited)
  }

  ghost predicate ProgressComplete(raw: Raw, ancestors: set<Id>, start: Walk, progress: Progress) {
    ProgressWrites(start, progress) && NewComplete(raw, ancestors, start, progress.walk)
  }

  lemma {:induction false} TraverseCompletes(env: Env, raw: Raw, node: Profile, ancestors: set<Id>, walk: Walk)
    requires Expandable(env, raw, node, ancestors) && Lineage(raw, ancestors, node.indexId)
    ensures var o := Traverse(env, node, ancestors, walk);
            && NewComplete(raw, ancestors, walk, o.walk)
            && if o.result.Success() then
                 && node.indexId in o.walk.proxies
                 && Complete(raw, node.indexId, o.walk.proxies[node.indexId].protocol.ChildIds())
               else
                 forall b :: Edge(raw.graph, node.indexId, b) ==> Separates(raw.graph, ancestors, b, raw.leaves + walk.visited)
    decreases IdsOf(env.profiles) - ancestors, 2, 0
  {
    var kids := env.ChildProfiles(node.protocol);
    var start := Progress(walk, [], EMPTY_RESULT);
    VisitChildrenCompletes(env, raw, node, kids, ancestors, walk, start);
    var progress := VisitChildren(env, node, kids, ancestors, start);
    assert ProfileDescribed(raw, env, node.indexId);
    forall b | Edge(raw.graph, node.indexId, b)
      ensures ListedOrCut(raw, ancestors, walk, progress.childIds, b)
    {
      assert ListsChild(env, node, b);
      var kid :| kid in kids && kid.indexId == b;
    }
    ListedOrCutIsComplete(raw, ancestors, walk, node.indexId, progress.childIds);
  }

  lemma ListedOrCutIsComplete(raw: Raw, ancestors: set<Id>, start: Walk, id: Id, ids: seq<Id>)
    requires Lineage(raw, ancestors, id)
    requires forall b :: Edge(raw.graph, id, b) ==> ListedOrCut(raw, ancestors, start, ids, b)
    ensures Complete(raw, id, ids)
  {
    forall b | Edge(raw.graph, id, b) && b !in ids && LeadsToServer(raw, b)
      ensures ReachesCycle(raw.graph, id)
    {
      var t :| RawServerBelow(raw, b, t);
      var p :| IsPathBetween(raw.graph, p, b, t);
      assert ListedOrCut(raw, ancestors, start, ids, b);
      assert Meets(p, ancestors);
      var k :| 0 <= k < |p| && p[k] in ancestors;
      PathPrefix(raw.graph, p, k + 1);
      assert IsPathBetween(raw.graph, p[..k + 1], b, p[k]);
      ReachesTransitive(raw.graph, b, p[k], id);
      CycleIsReached(raw.graph, id, b);
    }
  }

  lemma {:induction false} VisitChildrenCompletes(env: Env, raw: Raw, node: Profile, kids: seq<Profile>,
                                                  ancestors: set<Id>, start: Walk, progress: Progress)
    requires Expandable(env, raw, node, ancestors) && Lineage(raw, ancestors, node.indexId)
    requires forall kid :: kid in kids ==> kid in env.profiles && kid in env.ChildProfiles(node.protocol)
    requires ProgressComplete(raw, ancestors, start, progress)
    ensures var after := VisitChildren(env, node, kids, ancestors, progress);
            && ProgressComplete(raw, ancestors, start, after)
            && (forall c :: c in progress.childIds ==> c in after.childIds)
            && forall kid :: kid in kids ==> ListedOrCut(raw, ancestors, start, after.childIds, kid.indexId)
    decreases IdsOf(env.profiles) - ancestors, 1, |kids|
  {
    if kids != [] {
      VisitChildCompletes(env, raw, node, kids[0], ancestors, start, progress);
      VisitChildrenCompletes(env, raw, node, kids[1..], ancestors, start, VisitChild(env, node, kids[0], ancestors, progress));
    }
  }

  lemma {:induction false} VisitChildCompletes(env: Env, raw: Raw, node: Profile, kid: Profile, ancestors: set<Id>,
                                               start: Walk, progress: Progress)
    requires Expandable(env, raw, node, ancestors) && Lineage(raw, ancestors, node.indexId)
    requires kid in env.profiles && kid in env.ChildProfiles(node.protocol)
    requires ProgressComplete(raw, ancestors, start, progress)
    ensures var after := VisitChild(env, node, kid, ancestors, progress);
            && ProgressComplete(raw, ancestors, start, after)
            && (forall c :: c in progress.childIds ==> c in after.childIds)
            && ListedOrCut(raw, ancestors, start, after.childIds, kid.indexId)
    decreases IdsOf(env.profiles) - ancestors, 0, 0
  {
    var id, walk := kid.indexId, progress.walk;
    var targets := raw.leaves + start.visited;
    KidFacts(env, raw, node, kid);
    VisitChildWrites(env, node, kid, ancestors, start, progress);
    if id in ancestors {
      SelfSeparates(raw.graph, ancestors, id, targets);
    } else if id !in walk.visited {
      if !kid.IsGroup() {
        if !kid.Accepted() {
          SinkSeparates(raw.graph, ancestors, id, targets);
        }
      } else {
        var below := ancestors + {id};
        LineageGrows(raw, ancestors, node.indexId, id);
        TraverseCompletes(env, raw, kid, below, walk);
        TraverseWrites(env, kid, below, walk);
        var inner := Traverse(env, kid, below, walk);
        if inner.result.Success() {
          GroupFinished(raw, ancestors, start, walk, inner.walk, id);
        } else {
          forall b | Edge(raw.graph, id, b) ensures Separates(raw.graph, below, b, targets) {
            SeparatesFewer(raw.graph, below, b, targets, raw.leaves + walk.visited);
          }
          SeparatesStep(raw.graph, ancestors, id, targets);
        }
      }
    }
  }

  lemma GroupFinished(raw: Raw, ancestors: set<Id>, start: Walk, before: Walk, after: Walk, id: Id)
    requires start.visited <= before.visited <= after.visited
    requires id !in ancestors && id !in before.visited
    requires NewComplete(raw, ancestors, start, before)
    requires NewComplete(raw, ancestors + {id}, before, after)
    requires OnlyWrites(before.proxies, after.proxies, after.visited - before.visited + {id})
    requires id in after.proxies && Complete(raw, id, after.proxies[id].protocol.ChildIds())
    ensures NewComplete(raw, ancestors, start, after.(visited := after.visited + {id}))
  {
  }

  lemma SinkSeparates(g: Graph, cut: set<Id>, a: Id, targets: set<Id>)
    requires a !in targets && forall b :: !Edge(g, a, b)
    ensures Separates(g, cut, a, targets)
  {
    forall p | IsPath(g, p) && p[0] == a ensures p[|p| - 1] == a {
    }
  }

  lemma SeparatesFewer(g: Graph, cut: set<Id>, a: Id, few: set<Id>, many: set<Id>)
    requires few <= many && Separates(g, cut, a, many)
    ensures Separates(g, cut, a, few)
  {
    forall p | IsPath(g, p) && p[0] == a && p[|p| - 1] in few ensures Meets(p, cut) {
    }
  }

  // ------------------------------------------------------------------ over all passes

  /** Every entry is a registered profile, lists children of the arrangement, and is complete. */
  ghost predicate EntriesOk(raw: Raw, proxies: Proxies) {
    forall d :: d in proxies && !IsAlias(d) ==> EntrySound(raw, proxies[d], d)
  }

  ghost predicate EntrySound(raw: Raw, entry: Profile, id: Id) {
    var ids := entry.protocol.ChildIds();
    && id in raw.profiles
    && entry == raw.profiles[id].WithChildren(ids)
    && (forall c :: c in ids ==> Edge(raw.graph, id, c))
    && Complete(raw, id, ids)
    && (!entry.IsGroup() ==> id in raw.leaves)
  }

  lemma StoredRootIsLookup(env: Env, root: Profile, id: Id)
    requires UniqueIds(env.profiles) && root in env.profiles
    ensures ProfileAt(env, root, id) == Find(env.profiles, id)
    ensures IdsOf(env.profiles) + {root.indexId} == IdsOf(env.profiles)
  {
    FindSelf(env.profiles, root);
  }

  lemma SameProfiles(env: Env, a: Profile, b: Profile)
    requires UniqueIds(env.profiles) && a in env.profiles && b in env.profiles
    ensures RawProfiles(env, a) == RawProfiles(env, b)
  {
    forall id ensures ProfileAt(env, a, id) == ProfileAt(env, b, id) {
      StoredRootIsLookup(env, a, id);
      StoredRootIsLookup(env, b, id);
    }
    StoredRootIsLookup(env, a, "");
    StoredRootIsLookup(env, b, "");
  }

  lemma StoredChildren(env: Env, root: Profile, id: Id)
    requires UniqueIds(env.profiles) && root in env.profiles
    ensures id in RawChildren(env, root) <==> id in IdsOf(env.profiles)
    ensures id in IdsOf(env.profiles) ==>
              RawChildren(env, root)[id] == IdList(env.ChildProfiles(Find(env.profiles, id).value.protocol))
  {
    StoredRootIsLookup(env, root, id);
  }

  predicate SameAt(g: Graph, h: Graph, id: Id) {
    (id in g <==> id in h) && (id in g ==> g[id] == h[id])
  }

  lemma SameMaps(g: Graph, h: Graph)
    requires forall id :: SameAt(g, h, id)
    ensures g == h
  {
    assert forall id :: id in g ==> SameAt(g, h, id);
    assert g.Keys == h.Keys by {
      forall id ensures id in g.Keys <==> id in h.Keys {
        assert SameAt(g, h, id);
      }
    }
  }

  lemma SameChildren(env: Env, a: Profile, b: Profile)
    requires UniqueIds(env.profiles) && a in env.profiles && b in env.profiles
    ensures RawChildren(env, a) == RawChildren(env, b)
  {
    var g, h := RawChildren(env, a), RawChildren(env, b);
    forall id ensures SameAt(g, h, id) {
      StoredChildren(env, a, id);
      StoredChildren(env, b, id);
    }
    SameMaps(g, h);
  }

  lemma SameLeaves(env: Env, a: Profile, b: Profile)
    requires UniqueIds(env.profiles) && a in env.profiles && b in env.profiles
    ensures RawLeaves(env, a) == RawLeaves(env, b)
  {
    forall id ensures id in RawLeaves(env, a) <==> id in RawLeaves(env, b) {
      StoredRootIsLookup(env, a, id);
      StoredRootIsLookup(env, b, id);
    }
  }

  /** Seen from any stored profile the arrangement is the same. */
  lemma SameArrangement(env: Env, a: Profile, b: Profile)
    requires UniqueIds(env.profiles) && a in env.profiles && b in env.profiles
    ensures RawOf(env, b) == RawOf(env, a).(root := b.indexId)
  {
    SameProfiles(env, a, b);
    SameChildren(env, a, b);
    SameLeaves(env, a, b);
  }

  lemma PassKeepsEntries(raw: Raw, proxies: Proxies, o: Outcome)
    requires EntriesOk(raw, proxies)
    requires TraverseOk(raw, raw.root, {raw.root}, Walk({raw.root}, proxies), o)
    requires OnlyWrites(proxies, o.walk.proxies, o.walk.visited - {raw.root} + {raw.root})
    requires NewComplete(raw, {raw.root}, Walk({raw.root}, proxies), o.walk)
    requires o.result.Success() ==>
               raw.root in o.walk.proxies && Complete(raw, raw.root, o.walk.proxies[raw.root].protocol.ChildIds())
    ensures EntriesOk(raw, o.walk.proxies)
  {
    var after := o.walk.proxies;
    if o.result.Success() {
      forall d | d in after && !IsAlias(d) ensures EntrySound(raw, after[d], d) {
        if d in o.walk.visited {
          assert EntryOk(raw, after, o.walk.visited - {raw.root}, d);
        } else {
          assert after[d] == proxies[d];
        }
      }
    }
  }

  lemma RegisterKeepsEntries(env: Env, raw: Raw, node: Profile, proxies: Proxies)
    requires Describes(raw, env) && node.IsGroup() && raw.root == node.indexId && raw.profiles[raw.root] == node
    requires EntriesOk(raw, proxies)
    ensures EntriesOk(raw, RegisterGroup(env, node, proxies).walk.proxies)
  {
    var start := Walk({raw.root}, proxies);
    ReachesSelf(raw.graph, raw.root);
    TraverseEstablishes(env, raw, node, {raw.root}, start);
    TraverseWrites(env, node, {raw.root}, start);
    TraverseCompletes(env, raw, node, {raw.root}, start);
    PassKeepsEntries(raw, proxies, RegisterGroup(env, node, proxies));
  }

  lemma LeafEntrySound(env: Env, raw: Raw, node: Profile)
    requires node.indexId in raw.profiles && raw.profiles[node.indexId] == node
    requires ProfileDescribed(raw, env, node.indexId)
    requires !node.IsGroup() && node.Accepted()
    ensures EntrySound(raw, node, node.indexId)
  {
    assert env.ChildProfiles(node.protocol) == [];
    assert forall b :: !ListsChild(env, node, b);
  }

  /** The arrangement is described as far as nodes of any kind need it. */
  lemma ProfilesDescribed(env: Env, node: Profile)
    requires UniqueIds(env.profiles) && node in env.profiles
    ensures var raw := RawOf(env, node);
            && node.indexId in raw.profiles
            && raw.profiles[node.indexId] == node
            && ProfileDescribed(raw, env, node.indexId)
  {
    RawOfProfileDescribed(env, node, node.indexId);
  }

  lemma ResolveNodeKeepsEntries(env: Env, first: Profile, node: Profile, proxies: Proxies)
    requires UniqueIds(env.profiles) && first in env.profiles && node in env.profiles
    requires EntriesOk(RawOf(env, first), proxies)
    ensures EntriesOk(RawOf(env, first), ResolveNode(env, proxies, node).proxies)
  {
    SameArrangement(env, first, node);
    ProfilesDescribed(env, node);
    if node.IsGroup() {
      RawOfDescribes(env, node);
    }
    ResolveNodeKeepsBoth(env, RawOf(env, first), RawOf(env, node), node, proxies);
  }

  lemma ResolveNodeKeepsBoth(env: Env, a: Raw, raw: Raw, node: Profile, proxies: Proxies)
    requires raw == a.(root := node.indexId)
    requires raw.root in raw.profiles && raw.profiles[raw.root] == node && ProfileDescribed(raw, env, raw.root)
    requires node.IsGroup() ==> Describes(raw, env)
    requires EntriesOk(a, proxies)
    ensures EntriesOk(a, ResolveNode(env, proxies, node).proxies)
  {
    SameEntries(a, raw, proxies);
    if node.IsGroup() {
      RegisterKeepsEntries(env, raw, node, proxies);
    } else if node.Accepted() {
      LeafEntrySound(env, raw, node);
    }
    SameEntries(raw, a, ResolveNode(env, proxies, node).proxies);
  }

  lemma SameEntries(a: Raw, b: Raw, proxies: Proxies)
    requires b == a.(root := b.root) && EntriesOk(a, proxies)
    ensures EntriesOk(b, proxies)
  {
    forall d | d in proxies && !IsAlias(d) ensures EntrySound(b, proxies[d], d) {
      assert EntrySound(a, proxies[d], d);
      SameComplete(a, b, d, proxies[d].protocol.ChildIds());
    }
  }

  lemma SameComplete(a: Raw, b: Raw, id: Id, ids: seq<Id>)
    requires b == a.(root := b.root) && Complete(a, id, ids)
    ensures Complete(b, id, ids)
  {
    forall c | Edge(b.graph, id, c) && LeadsToServer(b, c) ensures LeadsToServer(a, c) {
      var t :| RawServerBelow(b, c, t);
      assert RawServerBelow(a, c, t);
    }
  }

  lemma {:induction false} ResolveRulesKeepsEntries(env: Env, first: Profile, built: Built, rules: seq<Rule>)
    requires UniqueIds(env.profiles) && first in env.profiles
    requires EntriesOk(RawOf(env, first), built.proxies)
    ensures EntriesOk(RawOf(env, first), ResolveRules(env, built, rules).proxies)
    decreases |rules|
  {
    if rules != [] {
      if rules[0].enabled && !IsBuiltinOutbound(rules[0].outboundTag) {
        ResolveRuleKeepsEntries(env, first, built, rules[0]);
        ResolveRulesKeepsEntries(env, first, ResolveRule(env, built, rules[0]), rules[1..]);
      } else {
        ResolveRulesKeepsEntries(env, first, built, rules[1..]);
      }
    }
  }

  lemma ResolveRuleKeepsEntries(env: Env, first: Profile, built: Built, rule: Rule)
    requires UniqueIds(env.profiles) && first in env.profiles
    requires EntriesOk(RawOf(env, first), built.proxies)
    ensures EntriesOk(RawOf(env, first), ResolveRule(env, built, rule).proxies)
  {
    var tag := if rule.outboundTag.Some? then Trim(rule.outboundTag.value) else "";
    var found := FindRemarks(env.profiles, tag);
    if tag != "" && found.Some? {
      ResolveNodeKeepsEntries(env, first, found.value, built.proxies);
      var resolved := ResolveNode(env, built.proxies, found.value).proxies;
      AliasKeepsEntries(RawOf(env, first), resolved, ALIAS_PREFIX + tag, found.value);
    }
  }

  lemma AliasKeepsEntries(raw: Raw, proxies: Proxies, key: Id, node: Profile)
    requires EntriesOk(raw, proxies) && IsAlias(key)
    ensures EntriesOk(raw, proxies[key := node])
  {
  }

  // -------------------------------------------------------------------- main theorem

  /** `t` is a server listed below the entry of `id`, following entries of profile ids. */
  ghost predicate ServerListed(proxies: Proxies, id: Id, t: Id) {
    Reaches(IdGraph(proxies), id, t) && t in proxies && !IsAlias(t) && !proxies[t].IsGroup()
  }

  lemma ListedIsRaw(raw: Raw, proxies: Proxies, id: Id, t: Id)
    requires EntriesOk(raw, proxies) && ServerListed(proxies, id, t)
    ensures RawServerBelow(raw, id, t)
  {
    var p :| IsPathBetween(IdGraph(proxies), p, id, t);
    forall i {:trigger p[i]} | 0 <= i < |p| - 1 ensures Edge(raw.graph, p[i], p[i + 1]) {
      assert Edge(IdGraph(proxies), p[i], p[i + 1]);
      assert EntrySound(raw, proxies[p[i]], p[i]);
    }
    assert IsPathBetween(raw.graph, p, id, t);
    assert EntrySound(raw, proxies[t], t);
  }

  lemma {:induction false} RawPathIsListed(raw: Raw, proxies: Proxies, p: seq<Id>)
    requires EntriesOk(raw, proxies) && GraphOk(proxies)
    requires forall id :: id in raw.graph ==> !IsAlias(id) && forall c :: c in raw.graph[id] ==> !IsAlias(c)
    requires IsPath(raw.graph, p) && p[|p| - 1] in raw.leaves
    requires p[0] in proxies && !IsAlias(p[0]) && !ReachesCycle(raw.graph, p[0])
    ensures IsPath(IdGraph(proxies), p) && p[|p| - 1] in proxies && !IsAlias(p[|p| - 1])
    decreases |p|
  {
    if |p| > 1 {
      var b, q := p[1], p[1..];
      assert Edge(raw.graph, p[0], b);
      assert EntrySound(raw, proxies[p[0]], p[0]);
      PathSuffix(raw.graph, p, 1);
      assert LeadsToServer(raw, b) by {
        assert IsPathBetween(raw.graph, q, b, q[|q| - 1]);
        assert RawServerBelow(raw, b, q[|q| - 1]);
      }
      assert Edge(IdGraph(proxies), p[0], b);
      if ReachesCycle(raw.graph, b) {
        ReachesCycleStep(raw.graph, p[0], b);
      }
      RawPathIsListed(raw, proxies, q);
      PathJoin(IdGraph(proxies), [p[0], b], q);
      assert [p[0], b] + q[1..] == p;
    }
  }

  lemma ListedServersExact(raw: Raw, proxies: Proxies, id: Id, t: Id)
    requires EntriesOk(raw, proxies) && GraphOk(proxies)
    requires forall id :: id in raw.graph ==> !IsAlias(id) && forall c :: c in raw.graph[id] ==> !IsAlias(c)
    requires forall id :: id in raw.leaves ==> id in raw.profiles && !raw.profiles[id].IsGroup()
    requires id in proxies && !IsAlias(id)
    ensures ServerListed(proxies, id, t) ==> RawServerBelow(raw, id, t)
    ensures !ReachesCycle(raw.graph, id) ==> (RawServerBelow(raw, id, t) ==> ServerListed(proxies, id, t))
  {
    if ServerListed(proxies, id, t) {
      ListedIsRaw(raw, proxies, id, t);
    }
    if !ReachesCycle(raw.graph, id) && RawServerBelow(raw, id, t) {
      var p :| IsPathBetween(raw.graph, p, id, t);
      RawPathIsListed(raw, proxies, p);
      assert IsPathBetween(IdGraph(proxies), p, id, t);
      assert EntrySound(raw, proxies[t], t);
    }
  }

  /**
   * In the map that `Build` leaves behind, every entry under a profile id lists only
   * servers its profile leads to, and all of them when no cycle lies below that profile,
   * whatever passes came in between.
   */
  lemma BuildServersExact(env: Env, node: Profile, rules: seq<Rule>, id: Id, t: Id)
    requires UniqueIds(env.profiles) && node in env.profiles
    requires forall p :: p in env.profiles ==> !IsAlias(p.indexId)
    requires id in Build(env, node, rules).proxies && !IsAlias(id)
    ensures var raw, proxies := RawOf(env, node), Build(env, node, rules).proxies;
            && (ServerListed(proxies, id, t) ==> RawServerBelow(raw, id, t))
            && (!ReachesCycle(raw.graph, id) ==> (RawServerBelow(raw, id, t) ==> ServerListed(proxies, id, t)))
  {
    var raw := RawOf(env, node);
    ResolveNodeKeepsEntries(env, node, node, map[]);
    ResolveRulesKeepsEntries(env, node, ResolveNode(env, map[], node), rules);
    BuildKeepsGraph(env, node, rules);
    RawIdsAreStored(env, node);
    ListedServersExact(raw, Build(env, node, rules).proxies, id, t);
  }

  lemma RawChildrenAreStored(env: Env, node: Profile, id: Id)
    requires node in env.profiles
    requires forall p :: p in env.profiles ==> !IsAlias(p.indexId)
    requires id in RawChildren(env, node)
    ensures !IsAlias(id) && forall c :: c in RawChildren(env, node)[id] ==> !IsAlias(c)
  {
    var kids := env.ChildProfiles(ProfileAt(env, node, id).value.protocol);
    forall c | c in RawChildren(env, node)[id] ensures !IsAlias(c) {
      var kid :| kid in kids && kid.indexId == c;
      assert kid in env.profiles;
    }
  }

  lemma RawIdsAreStored(env: Env, node: Profile)
    requires node in env.profiles
    requires forall p :: p in env.profiles ==> !IsAlias(p.indexId)
    ensures var raw := RawOf(env, node);
            && (forall id :: id in raw.graph ==> !IsAlias(id) && forall c :: c in raw.graph[id] ==> !IsAlias(c))
            && (forall id :: id in raw.leaves ==> id in raw.profiles && !raw.profiles[id].IsGroup())
  {
    forall id | id in RawChildren(env, node)
      ensures !IsAlias(id) && forall c :: c in RawChildren(env, node)[id] ==> !IsAlias(c)
    {
      RawChildrenAreStored(env, node, id);
    }
  }
}
