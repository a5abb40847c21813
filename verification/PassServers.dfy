/**
 * Which servers the active node still lists after the passes over rule outbounds: exactly
 * which ones one pass takes away, and a condition on profiles and rules under which none
 * is lost.
 */
module PassServers {
  import opened Text
  import opened Digraph
  import opened Profiles
  import opened GroupResolution
  import opened ContextBuild
  import opened BuildGraph
  import opened BuildServers
  import opened PassOverlay

  /** A server that is not a group, stored under a profile id. */
  predicate IsStoredServer(proxies: Proxies, t: Id) {
    t in proxies && !IsAlias(t) && !proxies[t].IsGroup()
  }

  /**
   * What `id` lists after `added` is laid over `proxies`: servers it listed without passing
   * through an overwritten entry, and servers that an overwritten entry it leads to lists now.
   */
  ghost predicate StillListed(proxies: Proxies, added: Proxies, id: Id, t: Id) {
    var g, f := IdGraph(proxies), IdGraph(added);
    || (IsStoredServer(proxies, t) && ReachesOutside(g, f.Keys, id, t))
    || exists v :: EntersAt(g, f.Keys, id, v) && ServerListed(added, v, t)
  }

  lemma IdGraphOver(proxies: Proxies, added: Proxies)
    ensures IdGraph(proxies + added) == IdGraph(proxies) + IdGraph(added)
  {
  }

  lemma {:induction false} EndInside(f: Graph, v: Id, t: Id)
    requires v in f && Reaches(f, v, t) && forall x, y :: Edge(f, x, y) ==> y in f
    ensures t in f
  {
    var p :| IsPathBetween(f, p, v, t);
    forall x, y | x in f.Keys && Edge(f, x, y) ensures y in f.Keys {
    }
    PathStaysInside(f, p, f.Keys, 0);
  }

  lemma OutsideEnd(g: Graph, inner: set<Id>, a: Id, t: Id)
    requires ReachesOutside(g, inner, a, t)
    ensures t !in inner
  {
    var p :| IsPathBetween(g, p, a, t) && !Meets(p, inner);
    assert p[|p| - 1] !in inner;
  }

  /** The servers listed after a pass, from the two maps it is made of. */
  lemma OverlayLists(proxies: Proxies, added: Proxies, id: Id, t: Id)
    requires forall x, y :: Edge(IdGraph(added), x, y) ==> y in added && !IsAlias(y)
    ensures ServerListed(proxies + added, id, t) <==> StillListed(proxies, added, id, t)
  {
    var g, f := IdGraph(proxies), IdGraph(added);
    IdGraphOver(proxies, added);
    OverlayReaches(g, f, id, t);
    if ReachesOutside(g, f.Keys, id, t) {
      OutsideEnd(g, f.Keys, id, t);
    }
    forall v | EntersAt(g, f.Keys, id, v) && Reaches(f, v, t) ensures t in added && !IsAlias(t) {
      EndInside(f, v, t);
    }
  }

  // ------------------------------------------------------------ what one pass stores

  predicate PlainIds(env: Env) {
    forall p :: p in env.profiles ==> !IsAlias(p.indexId)
  }

  lemma VisitedBelow(raw: Raw, o: Outcome, v: Id)
    requires TraverseOk(raw, raw.root, {raw.root}, Walk({raw.root}, map[]), o) && o.result.Success()
    requires v in o.walk.visited
    ensures v in raw.profiles && Reaches(raw.graph, raw.root, v)
  {
    assert EntryOk(raw, o.walk.proxies, o.walk.visited - {raw.root}, v);
    ReachesSelf(ChildGraph(o.walk.proxies), raw.root);
    assert v != raw.root ==> Below(o.walk.proxies, [raw.root], v);
    ResolvedPathIsRaw(raw, o.walk, v);
  }

  /** What a group's pass stores lies below it, under ids of stored profiles. */
  lemma GroupStoresBelow(env: Env, root: Profile, v: Id)
    requires UniqueIds(env.profiles) && root in env.profiles && root.IsGroup() && PlainIds(env)
    requires v in RegisterGroup(env, root, map[]).walk.proxies
    ensures !IsAlias(v) && Reaches(RawOf(env, root).graph, root.indexId, v)
  {
    var o := RegisterGroup(env, root, map[]);
    RegisterGroupEstablishes(env, root, map[]);
    TraverseWrites(env, root, {root.indexId}, Walk({root.indexId}, map[]));
    assert v in o.walk.visited;
    VisitedBelow(RawOf(env, root), o, v);
    StoredIds(env, root, v);
  }

  lemma StoredIds(env: Env, root: Profile, v: Id)
    requires root in env.profiles && PlainIds(env) && v in RawProfiles(env, root)
    ensures !IsAlias(v)
  {
  }

  lemma StoredBelow(env: Env, node: Profile, v: Id)
    requires UniqueIds(env.profiles) && node in env.profiles && PlainIds(env)
    requires v in Fresh(env, node)
    ensures !IsAlias(v) && Reaches(RawOf(env, node).graph, node.indexId, v)
  {
    if node.IsGroup() {
      GroupStoresBelow(env, node, v);
    } else {
      ReachesSelf(RawOf(env, node).graph, node.indexId);
    }
  }

  /** The entries of one pass, seen from any stored profile `first`. */
  lemma FreshFacts(env: Env, first: Profile, node: Profile)
    requires UniqueIds(env.profiles) && first in env.profiles && node in env.profiles && PlainIds(env)
    ensures EntriesOk(RawOf(env, first), Fresh(env, node)) && GraphOk(Fresh(env, node))
    ensures forall v :: v in Fresh(env, node) ==> !IsAlias(v) && Reaches(RawOf(env, first).graph, node.indexId, v)
    ensures forall x, y :: Edge(IdGraph(Fresh(env, node)), x, y) ==> y in Fresh(env, node) && !IsAlias(y)
  {
    EmptyGraphOk();
    ResolveNodeKeepsGraph(env, map[], node);
    ResolveNodeKeepsEntries(env, first, node, map[]);
    SameArrangement(env, first, node);
    forall v | v in Fresh(env, node) ensures !IsAlias(v) && Reaches(RawOf(env, first).graph, node.indexId, v) {
      StoredBelow(env, node, v);
    }
  }

  // ------------------------------------------------------------------- harmless passes

  /** Some profile below both has a cycle below it. */
  ghost predicate ShareCycle(raw: Raw, a: Id, b: Id) {
    exists v :: Reaches(raw.graph, a, v) && Reaches(raw.graph, b, v) && ReachesCycle(raw.graph, v)
  }

  /** Without a cycle below the outbound there is none to share. */
  lemma SharedCycleIsBelow(raw: Raw, a: Id, b: Id)
    requires ShareCycle(raw, a, b)
    ensures ReachesCycle(raw.graph, b)
  {
    var v :| Reaches(raw.graph, a, v) && Reaches(raw.graph, b, v) && ReachesCycle(raw.graph, v);
    var p, q :| IsCycleBeyond(raw.graph, v, p, q);
    assert Reaches(raw.graph, v, q[0]);
    ReachesTransitive(raw.graph, b, v, q[0]);
    var r :| IsPathBetween(raw.graph, r, b, q[0]);
    assert IsCycleBeyond(raw.graph, b, r, q);
  }

  /** What the proofs below use of the arrangement. */
  ghost predicate Ordinary(raw: Raw) {
    && (forall id :: id in raw.graph ==> !IsAlias(id) && forall c :: c in raw.graph[id] ==> !IsAlias(c))
    && (forall id :: id in raw.leaves ==> id in raw.profiles && !raw.profiles[id].IsGroup())
  }

  lemma ListedPathIsRaw(raw: Raw, proxies: Proxies, p: seq<Id>)
    requires EntriesOk(raw, proxies) && IsPath(IdGraph(proxies), p)
    ensures IsPath(raw.graph, p)
  {
    forall i {:trigger p[i]} | 0 <= i < |p| - 1 ensures Edge(raw.graph, p[i], p[i + 1]) {
      assert Edge(IdGraph(proxies), p[i], p[i + 1]);
      assert EntrySound(raw, proxies[p[i]], p[i]);
    }
  }

  lemma ListedEndIsKey(raw: Raw, proxies: Proxies, p: seq<Id>)
    requires EntriesOk(raw, proxies) && GraphOk(proxies) && Ordinary(raw) && IsPath(IdGraph(proxies), p)
    requires p[0] in proxies && !IsAlias(p[0])
    ensures p[|p| - 1] in proxies && !IsAlias(p[|p| - 1])
  {
    if |p| > 1 {
      var k := |p| - 2;
      assert Edge(IdGraph(proxies), p[k], p[k + 1]);
      assert EntrySound(raw, proxies[p[k]], p[k]);
    }
  }

  /** Both maps agree about an entry without a cycle below it. */
  lemma EntrySame(raw: Raw, proxies: Proxies, added: Proxies, v: Id, t: Id)
    requires EntriesOk(raw, proxies) && GraphOk(proxies) && EntriesOk(raw, added) && GraphOk(added) && Ordinary(raw)
    requires v in proxies && v in added && !IsAlias(v) && !ReachesCycle(raw.graph, v)
    ensures ServerListed(proxies, v, t) <==> ServerListed(added, v, t)
  {
    ListedServersExact(raw, proxies, v, t);
    ListedServersExact(raw, added, v, t);
  }

  /** Where a walk from `id` enters what is laid over, no cycle lies below. */
  ghost predicate EntersAcyclic(raw: Raw, proxies: Proxies, added: Proxies, id: Id) {
    forall v :: EntersAt(IdGraph(proxies), IdGraph(added).Keys, id, v) ==> !ReachesCycle(raw.graph, v)
  }

  lemma StillListedWas(raw: Raw, proxies: Proxies, added: Proxies, id: Id, t: Id)
    requires EntriesOk(raw, proxies) && GraphOk(proxies) && EntriesOk(raw, added) && GraphOk(added) && Ordinary(raw)
    requires id in proxies && !IsAlias(id) && EntersAcyclic(raw, proxies, added, id)
    requires StillListed(proxies, added, id, t)
    ensures ServerListed(proxies, id, t)
  {
    var g, f := IdGraph(proxies), IdGraph(added);
    if v :| EntersAt(g, f.Keys, id, v) && ServerListed(added, v, t) {
      var p :| EntersBy(g, f.Keys, id, v, p);
      ListedEndIsKey(raw, proxies, p);
      EntrySame(raw, proxies, added, v, t);
      assert IsPathBetween(g, p, id, v);
      ReachesTransitive(g, id, v, t);
    }
  }

  lemma EnteredStillListed(raw: Raw, proxies: Proxies, added: Proxies, t: Id, p: seq<Id>, k: nat)
    requires EntriesOk(raw, proxies) && GraphOk(proxies) && EntriesOk(raw, added) && GraphOk(added) && Ordinary(raw)
    requires p != [] && IsPathBetween(IdGraph(proxies), p, p[0], t) && p[0] in proxies && !IsAlias(p[0])
    requires EntersAcyclic(raw, proxies, added, p[0]) && IsStoredServer(proxies, t)
    requires k < |p| && p[k] in IdGraph(added).Keys && !Meets(p[..k], IdGraph(added).Keys)
    ensures EntersAt(IdGraph(proxies), IdGraph(added).Keys, p[0], p[k]) && ServerListed(added, p[k], t)
  {
    var g := IdGraph(proxies);
    EntersFirst(g, IdGraph(added).Keys, p, k);
    PathPrefix(g, p, k + 1);
    ListedEndIsKey(raw, proxies, p[..k + 1]);
    PathSuffix(g, p, k);
    assert IsPathBetween(g, p[k..], p[k], t);
    EntrySame(raw, proxies, added, p[k], t);
  }

  lemma WasStillListed(raw: Raw, proxies: Proxies, added: Proxies, id: Id, t: Id)
    requires EntriesOk(raw, proxies) && GraphOk(proxies) && EntriesOk(raw, added) && GraphOk(added) && Ordinary(raw)
    requires id in proxies && !IsAlias(id) && EntersAcyclic(raw, proxies, added, id)
    requires ServerListed(proxies, id, t)
    ensures StillListed(proxies, added, id, t)
  {
    var g, f := IdGraph(proxies), IdGraph(added);
    var p :| IsPathBetween(g, p, id, t);
    if Meets(p, f.Keys) {
      var k := FirstMember(p, f.Keys);
      EnteredStillListed(raw, proxies, added, t, p, k);
    } else {
      assert ReachesOutside(g, f.Keys, id, t);
    }
  }

  /** A pass that shares no cycle with `id` leaves the servers listed below `id` as they are. */
  lemma HarmlessPassKeeps(env: Env, first: Profile, node: Profile, proxies: Proxies, id: Id, t: Id)
    requires UniqueIds(env.profiles) && first in env.profiles && node in env.profiles && PlainIds(env)
    requires EntriesOk(RawOf(env, first), proxies) && GraphOk(proxies) && id in proxies && !IsAlias(id)
    requires !ShareCycle(RawOf(env, first), id, node.indexId)
    ensures ServerListed(proxies + Fresh(env, node), id, t) <==> ServerListed(proxies, id, t)
  {
    var raw, added := RawOf(env, first), Fresh(env, node);
    FreshFacts(env, first, node);
    RawIdsAreStored(env, first);
    OverlayLists(proxies, added, id, t);
    forall v | EntersAt(IdGraph(proxies), IdGraph(added).Keys, id, v) ensures !ReachesCycle(raw.graph, v) {
      var p :| EntersBy(IdGraph(proxies), IdGraph(added).Keys, id, v, p);
      ListedPathIsRaw(raw, proxies, p);
      assert IsPathBetween(raw.graph, p, id, v);
    }
    if StillListed(proxies, added, id, t) {
      StillListedWas(raw, proxies, added, id, t);
    }
    if ServerListed(proxies, id, t) {
      WasStillListed(raw, proxies, added, id, t);
    }
  }

  // ------------------------------------------------------------------- a node's own pass

  lemma BelowIsListed(added: Proxies, id: Id, t: Id)
    requires forall v :: v in added ==> !IsAlias(v)
    ensures ServerBelow(added, id, t) <==> ServerListed(added, id, t)
  {
    assert IdGraph(added) == ChildGraph(added);
  }

  /** An entry that is laid over lists what it lists alone. */
  lemma ListedOnTop(raw: Raw, proxies: Proxies, added: Proxies, id: Id, t: Id)
    requires EntriesOk(raw, proxies + added) && id in added && !IsAlias(id)
    requires forall x, y :: Edge(IdGraph(added), x, y) ==> y in added && !IsAlias(y)
    requires ServerListed(added, id, t) <==> RawServerBelow(raw, id, t)
    ensures ServerListed(proxies + added, id, t) <==> RawServerBelow(raw, id, t)
  {
    OverlayLists(proxies, added, id, t);
    assert EntersBy(IdGraph(proxies), IdGraph(added).Keys, id, id, [id]);
    assert EntersAt(IdGraph(proxies), IdGraph(added).Keys, id, id);
    if ServerListed(proxies + added, id, t) {
      ListedIsRaw(raw, proxies + added, id, t);
    }
  }

  /** A node's own pass lists all its servers, whatever was stored before. */
  lemma OwnPassListsAll(env: Env, node: Profile, proxies: Proxies, t: Id)
    requires UniqueIds(env.profiles) && node in env.profiles && PlainIds(env) && Trim(node.indexId) != ""
    requires ResolveNode(env, map[], node).result.Success()
    requires EntriesOk(RawOf(env, node), proxies)
    ensures node.indexId in proxies + Fresh(env, node)
    ensures ServerListed(proxies + Fresh(env, node), node.indexId, t)
            <==> RawServerBelow(RawOf(env, node), node.indexId, t)
  {
    FreshFacts(env, node, node);
    EmptyGraphOk();
    ResolveNodeKeepsGraph(env, map[], node);
    FreshListsAll(env, node, t);
    PassIsOverlay(env, proxies, node);
    ResolveNodeKeepsEntries(env, node, node, proxies);
    ListedOnTop(RawOf(env, node), proxies, Fresh(env, node), node.indexId, t);
  }

  lemma FreshListsAll(env: Env, node: Profile, t: Id)
    requires UniqueIds(env.profiles) && node in env.profiles && PlainIds(env) && Trim(node.indexId) != ""
    requires ResolveNode(env, map[], node).result.Success()
    ensures ServerListed(Fresh(env, node), node.indexId, t) <==> RawServerBelow(RawOf(env, node), node.indexId, t)
  {
    FreshFacts(env, node, node);
    if node.IsGroup() {
      ResolutionPreservesServers(env, node, map[]);
      BelowIsListed(Fresh(env, node), node.indexId, t);
    } else {
      RawIdsAreStored(env, node);
      ProfilesDescribed(env, node);
      assert forall b :: !ListsChild(env, node, b);
      SinkReachesNoCycle(RawOf(env, node).graph, node.indexId);
      EmptyGraphOk();
      ResolveNodeKeepsGraph(env, map[], node);
      ListedServersExact(RawOf(env, node), Fresh(env, node), node.indexId, t);
    }
  }

  // ------------------------------------------------------------------ all the passes

  /** The stored profile that a rule's pass registers, if it has a pass. */
  function RuleNode(env: Env, rule: Rule): (r: Option<Profile>)
    ensures r.Some? ==> r.value in env.profiles
  {
    var tag := if rule.outboundTag.Some? then Trim(rule.outboundTag.value) else "";
    if !rule.enabled || IsBuiltinOutbound(rule.outboundTag) || tag == "" then None
    else FindRemarks(env.profiles, tag)
  }

  /** In particular a rule is harmless when no cycle lies below what it registers. */
  lemma HarmlessWithoutCycle(env: Env, node: Profile, rule: Rule)
    requires RuleNode(env, rule).Some? ==> !ReachesCycle(RawOf(env, node).graph, RuleNode(env, rule).value.indexId)
    ensures Harmless(env, node, rule)
  {
    var found := RuleNode(env, rule);
    if found.Some? && ShareCycle(RawOf(env, node), node.indexId, found.value.indexId) {
      SharedCycleIsBelow(RawOf(env, node), node.indexId, found.value.indexId);
    }
  }

  /** The rule registers no group that shares a cycle with `node`. */
  ghost predicate Harmless(env: Env, node: Profile, rule: Rule) {
    match RuleNode(env, rule)
    case None => true
    case Some(outbound) => !ShareCycle(RawOf(env, node), node.indexId, outbound.indexId)
  }

  /** A map whose entry for `node` lists exactly the servers that `node` leads to. */
  ghost predicate ListsAll(env: Env, node: Profile, proxies: Proxies) {
    && MapOk(env, node, proxies)
    && forall t :: ServerListed(proxies, node.indexId, t) <==> RawServerBelow(RawOf(env, node), node.indexId, t)
  }

  lemma AliasListsSame(proxies: Proxies, key: Id, entry: Profile, id: Id, t: Id)
    requires IsAlias(key)
    ensures ServerListed(proxies[key := entry], id, t) <==> ServerListed(proxies, id, t)
  {
    assert IdGraph(proxies[key := entry]) == IdGraph(proxies);
  }

  /** One rule of the loop: its pass, and perhaps an alias. */
  function RuleStep(env: Env, built: Built, rule: Rule): Built {
    if rule.enabled && !IsBuiltinOutbound(rule.outboundTag) then ResolveRule(env, built, rule) else built
  }

  lemma RuleStepLists(env: Env, built: Built, rule: Rule, id: Id, t: Id)
    ensures match RuleNode(env, rule)
            case None => RuleStep(env, built, rule).proxies == built.proxies
            case Some(node) =>
              ServerListed(RuleStep(env, built, rule).proxies, id, t)
              <==> ServerListed(built.proxies + Fresh(env, node), id, t)
  {
    var tag := if rule.outboundTag.Some? then Trim(rule.outboundTag.value) else "";
    var found := RuleNode(env, rule);
    if found.Some? {
      PassIsOverlay(env, built.proxies, found.value);
      AliasListsSame(built.proxies + Fresh(env, found.value), ALIAS_PREFIX + tag, found.value, id, t);
    }
  }

  lemma RuleStepKeepsMap(env: Env, first: Profile, built: Built, rule: Rule)
    requires UniqueIds(env.profiles) && first in env.profiles
    requires EntriesOk(RawOf(env, first), built.proxies) && GraphOk(built.proxies)
    ensures EntriesOk(RawOf(env, first), RuleStep(env, built, rule).proxies)
    ensures GraphOk(RuleStep(env, built, rule).proxies)
    ensures built.proxies.Keys <= RuleStep(env, built, rule).proxies.Keys
  {
    if rule.enabled && !IsBuiltinOutbound(rule.outboundTag) {
      ResolveRuleKeepsEntries(env, first, built, rule);
      ResolveRuleKeepsGraph(env, built, rule);
      var found := RuleNode(env, rule);
      if found.Some? {
        PassIsOverlay(env, built.proxies, found.value);
      }
    }
  }

  /** A map of sound entries that has one for `node`. */
  ghost predicate MapOk(env: Env, node: Profile, proxies: Proxies) {
    EntriesOk(RawOf(env, node), proxies) && GraphOk(proxies) && node.indexId in proxies
  }

  /** A harmless rule changes nothing about the servers listed below `node`. */
  lemma HarmlessRuleKeeps(env: Env, node: Profile, built: Built, rule: Rule, t: Id)
    requires UniqueIds(env.profiles) && node in env.profiles && PlainIds(env)
    requires MapOk(env, node, built.proxies) && Harmless(env, node, rule)
    ensures MapOk(env, node, RuleStep(env, built, rule).proxies)
    ensures ServerListed(RuleStep(env, built, rule).proxies, node.indexId, t)
            <==> ServerListed(built.proxies, node.indexId, t)
  {
    RuleStepKeepsMap(env, node, built, rule);
    RuleStepLists(env, built, rule, node.indexId, t);
    if RuleNode(env, rule).Some? {
      HarmlessPassKeeps(env, node, RuleNode(env, rule).value, built.proxies, node.indexId, t);
    }
  }

  lemma ResolveFirst(env: Env, built: Built, rules: seq<Rule>)
    requires rules != []
    ensures ResolveRules(env, built, rules) == ResolveRules(env, RuleStep(env, built, rules[0]), rules[1..])
  {
  }

  lemma {:induction false} HarmlessRulesKeep(env: Env, node: Profile, built: Built, rules: seq<Rule>, t: Id)
    requires UniqueIds(env.profiles) && node in env.profiles && PlainIds(env)
    requires MapOk(env, node, built.proxies)
    requires forall rule :: rule in rules ==> Harmless(env, node, rule)
    ensures ServerListed(ResolveRules(env, built, rules).proxies, node.indexId, t)
            <==> ServerListed(built.proxies, node.indexId, t)
    decreases |rules|
  {
    if rules != [] {
      HarmlessRuleKeeps(env, node, built, rules[0], t);
      HarmlessRulesKeep(env, node, RuleStep(env, built, rules[0]), rules[1..], t);
      ResolveFirst(env, built, rules);
    }
  }

  /** A rule that registers the active node itself, or is harmless, leaves its servers complete. */
  lemma RuleKeepsAll(env: Env, node: Profile, built: Built, rule: Rule)
    requires UniqueIds(env.profiles) && node in env.profiles && PlainIds(env) && Trim(node.indexId) != ""
    requires ResolveNode(env, map[], node).result.Success() && ListsAll(env, node, built.proxies)
    requires Harmless(env, node, rule) || RuleNode(env, rule) == Some(node)
    ensures ListsAll(env, node, RuleStep(env, built, rule).proxies)
  {
    RuleStepKeepsMap(env, node, built, rule);
    forall t ensures ServerListed(RuleStep(env, built, rule).proxies, node.indexId, t)
                     <==> RawServerBelow(RawOf(env, node), node.indexId, t)
    {
      if Harmless(env, node, rule) {
        HarmlessRuleKeeps(env, node, built, rule, t);
      } else {
        RuleStepLists(env, built, rule, node.indexId, t);
        OwnPassListsAll(env, node, built.proxies, t);
      }
    }
  }

  lemma {:induction false} RulesKeepAll(env: Env, node: Profile, built: Built, rules: seq<Rule>)
    requires UniqueIds(env.profiles) && node in env.profiles && PlainIds(env) && Trim(node.indexId) != ""
    requires ResolveNode(env, map[], node).result.Success() && ListsAll(env, node, built.proxies)
    requires forall rule :: rule in rules ==> Harmless(env, node, rule) || RuleNode(env, rule) == Some(node)
    ensures ListsAll(env, node, ResolveRules(env, built, rules).proxies)
    decreases |rules|
  {
    if rules != [] {
      RuleKeepsAll(env, node, built, rules[0]);
      RulesKeepAll(env, node, RuleStep(env, built, rules[0]), rules[1..]);
    }
  }

  lemma ActiveListsAll(env: Env, node: Profile)
    requires UniqueIds(env.profiles) && node in env.profiles && PlainIds(env) && Trim(node.indexId) != ""
    requires ResolveNode(env, map[], node).result.Success()
    ensures ListsAll(env, node, Fresh(env, node))
  {
    FreshFacts(env, node, node);
    EmptyGraphOk();
    ResolveNodeKeepsGraph(env, map[], node);
    forall t {
      FreshListsAll(env, node, t);
    }
  }

  /**
   * The active node, with or without cycles below it, lists exactly the servers it leads to
   * after the whole build, unless a rule registers another group that shares a cycle with it.
   */
  lemma BuildListsAll(env: Env, node: Profile, rules: seq<Rule>)
    requires UniqueIds(env.profiles) && node in env.profiles && PlainIds(env) && Trim(node.indexId) != ""
    requires ResolveNode(env, map[], node).result.Success()
    requires forall rule :: rule in rules ==> Harmless(env, node, rule) || RuleNode(env, rule) == Some(node)
    ensures forall t :: ServerListed(Build(env, node, rules).proxies, node.indexId, t)
                        <==> RawServerBelow(RawOf(env, node), node.indexId, t)
  {
    ActiveListsAll(env, node);
    RulesKeepAll(env, node, ResolveNode(env, map[], node), rules);
  }

  lemma {:induction false} ResolveRulesAppend(env: Env, built: Built, a: seq<Rule>, b: seq<Rule>)
    ensures ResolveRules(env, built, a + b) == ResolveRules(env, ResolveRules(env, built, a), b)
    decreases |a|
  {
    if a == [] {
      assert a + b == b;
    } else {
      assert (a + b)[1..] == a[1..] + b;
      ResolveRulesAppend(env, RuleStep(env, built, a[0]), a[1..], b);
    }
  }

  /**
   * One rule that may share a cycle, between rules that do not: the active node loses exactly
   * the servers that it led to only through entries of that rule's pass that no longer list
   * them. Both maps in the condition are known before the pass.
   */
  lemma OneRuleLosesExactly(env: Env, node: Profile, before: seq<Rule>, rule: Rule, behind: seq<Rule>, t: Id)
    requires UniqueIds(env.profiles) && node in env.profiles && PlainIds(env) && Trim(node.indexId) != ""
    requires ResolveNode(env, map[], node).result.Success() && RuleNode(env, rule).Some?
    requires forall r :: r in before ==> Harmless(env, node, r) || RuleNode(env, r) == Some(node)
    requires forall r :: r in behind ==> Harmless(env, node, r)
    ensures var outbound, proxies := RuleNode(env, rule).value, Build(env, node, before).proxies;
            && (ServerListed(proxies, node.indexId, t) <==> RawServerBelow(RawOf(env, node), node.indexId, t))
            && (ServerListed(Build(env, node, before + [rule] + behind).proxies, node.indexId, t)
                <==> StillListed(proxies, Fresh(env, outbound), node.indexId, t))
  {
    var active, outbound := ResolveNode(env, map[], node), RuleNode(env, rule).value;
    var built := ResolveRules(env, active, before);
    ActiveListsAll(env, node);
    RulesKeepAll(env, node, active, before);
    ResolveRulesAppend(env, active, before + [rule], behind);
    ResolveRulesAppend(env, active, before, [rule]);
    assert [rule][1..] == [];
    RuleStepLists(env, built, rule, node.indexId, t);
    RuleStepKeepsMap(env, node, built, rule);
    FreshFacts(env, node, outbound);
    OverlayLists(built.proxies, Fresh(env, outbound), node.indexId, t);
    HarmlessRulesKeep(env, node, RuleStep(env, built, rule), behind, t);
  }
}
