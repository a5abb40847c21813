/**
 * Every list of children that a build stores, at any depth, stands in the order in which
 * the group's profile offers them.
 */
module StoredOrder {
  import opened Digraph
  import opened Profiles
  import opened GroupResolution
  import opened GroupCycles
  import opened ContextBuild
  import opened BuildServers
  import opened PassOverlay
  import opened PassServers
  import opened RuleAliases
  import opened ChildOrder

  /** A server can be reached from `id` inside `done`. */
  ghost predicate LeadsInside(raw: Raw, done: set<Id>, id: Id) {
    exists p :: IsWayInside(raw, done, id, p)
  }

  ghost predicate IsWayInside(raw: Raw, done: set<Id>, id: Id, p: seq<Id>) {
    && IsPath(raw.graph, p) && p[0] == id && p[|p| - 1] in raw.leaves
    && forall i :: 0 <= i < |p| ==> p[i] in done
  }

  ghost predicate AllLead(raw: Raw, done: set<Id>) {
    forall d :: d in done ==> LeadsInside(raw, done, d)
  }

  lemma LeadsGrow(raw: Raw, done: set<Id>, c: Id)
    requires AllLead(raw, done) && LeadsInside(raw, done + {c}, c)
    ensures AllLead(raw, done + {c})
  {
    forall d | d in done + {c} ensures LeadsInside(raw, done + {c}, d) {
      if d in done {
        var p :| IsWayInside(raw, done, d, p);
        assert IsWayInside(raw, done + {c}, d, p);
      }
    }
  }

  lemma LeafLeads(raw: Raw, done: set<Id>, c: Id)
    requires c in raw.leaves && c in done
    ensures LeadsInside(raw, done, c)
  {
    assert IsWayInside(raw, done, c, [c]);
  }

  lemma ParentLeads(raw: Raw, done: set<Id>, c: Id, b: Id)
    requires AllLead(raw, done) && b in done && Edge(raw.graph, c, b)
    ensures LeadsInside(raw, done + {c}, c)
  {
    var p :| IsWayInside(raw, done, b, p);
    var q := [c] + p;
    forall i {:trigger q[i]} | 0 <= i < |q| - 1 ensures Edge(raw.graph, q[i], q[i + 1]) {
      assert i > 0 ==> Edge(raw.graph, p[i - 1], p[i - 1 + 1]);
    }
    assert IsWayInside(raw, done + {c}, c, q);
  }

  lemma LeadsAround(raw: Raw, ancestors: set<Id>, done: set<Id>, c: Id)
    requires LeadsInside(raw, done, c) && ancestors !! done
    ensures !Separates(raw.graph, ancestors, c, raw.leaves)
  {
    var p :| IsWayInside(raw, done, c, p);
    assert !Meets(p, ancestors);
  }

  // ------------------------------------------------------------------ one list of children

  /** The ids are those of the first `j` children at their first places `at`. */
  ghost predicate FirstPlaces(kids: seq<Profile>, j: nat, ids: seq<Id>, at: seq<nat>) {
    && |at| == |ids| && Increasing(at)
    && (forall k :: 0 <= k < |ids| ==> at[k] < j <= |kids| && kids[at[k]].indexId == ids[k] && FirstPlace(kids, at[k]))
  }

  ghost predicate FirstPlace(kids: seq<Profile>, k: nat)
    requires k < |kids|
  {
    forall l :: 0 <= l < k ==> kids[l].indexId != kids[k].indexId
  }

  ghost predicate InKidOrder(kids: seq<Profile>, j: nat, ids: seq<Id>) {
    exists at: seq<nat> :: FirstPlaces(kids, j, ids, at)
  }

  lemma PushInOrder(kids: seq<Profile>, j: nat, ids: seq<Id>)
    requires j < |kids| && InKidOrder(kids, j, ids) && FirstPlace(kids, j)
    ensures InKidOrder(kids, j + 1, ids + [kids[j].indexId])
  {
    var at :| FirstPlaces(kids, j, ids, at);
    assert FirstPlaces(kids, j + 1, ids + [kids[j].indexId], at + [j]);
  }

  lemma SkipInOrder(kids: seq<Profile>, j: nat, ids: seq<Id>)
    requires j < |kids| && InKidOrder(kids, j, ids)
    ensures InKidOrder(kids, j + 1, ids)
  {
    var at :| FirstPlaces(kids, j, ids, at);
    assert FirstPlaces(kids, j + 1, ids, at);
  }

  /** First places among the children are first offers of the group. */
  lemma KidOrderIsOfferOrder(env: Env, protocol: Protocol, ids: seq<Id>)
    requires var kids := env.ChildProfiles(protocol); InKidOrder(kids, |kids|, ids)
    ensures InOrder(env, protocol, ids)
  {
    var kids := env.ChildProfiles(protocol);
    var offers := ChildProfilesOffered(env, protocol);
    var at :| FirstPlaces(kids, |kids|, ids, at);
    var places := seq(|at|, k requires 0 <= k < |at| => offers[at[k]]);
    forall k | 0 <= k < |ids| ensures OffersFirstAt(env, protocol, places[k], ids[k]) {
      FirstPlaceIsFirstOffer(env, protocol, kids, offers, at[k]);
    }
    assert AreFirstOffers(env, protocol, ids, places);
  }

  lemma OfferIsBehind(env: Env, protocol: Protocol, kids: seq<Profile>, offers: seq<nat>, k: nat, m: nat)
    requires AreOffers(env, protocol, kids, offers) && k < |kids| && FirstPlace(kids, k)
    requires OffersAt(env, protocol, m, kids[k].indexId)
    ensures offers[k] <= m
  {
    var l :| 0 <= l < |offers| && offers[l] == m;
    assert OffersAt(env, protocol, offers[l], kids[l].indexId);
  }

  lemma FirstPlaceIsFirstOffer(env: Env, protocol: Protocol, kids: seq<Profile>, offers: seq<nat>, k: nat)
    requires AreOffers(env, protocol, kids, offers) && k < |kids| && FirstPlace(kids, k)
    ensures OffersFirstAt(env, protocol, offers[k], kids[k].indexId)
  {
    forall m: nat | OffersAt(env, protocol, m, kids[k].indexId) ensures offers[k] <= m {
      OfferIsBehind(env, protocol, kids, offers, k, m);
    }
  }

  // ---------------------------------------------------------------------- over the walk

  /** An entry is its profile with children in the order in which the profile offers them. */
  ghost predicate StoredInOrder(env: Env, p: Profile, entry: Profile) {
    OnlyChildrenDiffer(p, entry) && InOrder(env, p.protocol, entry.protocol.ChildIds())
  }

  predicate OnlyChildrenDiffer(p: Profile, q: Profile) {
    && q.indexId == p.indexId && q.remarks == p.remarks && q.subscription == p.subscription && q.nodeErrors == p.nodeErrors
    && match p.protocol
       case PolicyGroup(_, source, filter) =>
         q.protocol.PolicyGroup? && q.protocol.source == source && q.protocol.filter == filter
       case ProxyChain(_) => q.protocol.ProxyChain?
       case _ => q.protocol == p.protocol
  }

  ghost predicate AllInOrder(env: Env, raw: Raw, proxies: Proxies) {
    forall id :: id in proxies ==> id in raw.profiles && StoredInOrder(env, raw.profiles[id], proxies[id])
  }

  /** What the walk keeps beside `Resolved`. */
  ghost predicate Orderly(env: Env, raw: Raw, walk: Walk) {
    AllLead(raw, walk.visited - {raw.root}) && AllInOrder(env, raw, walk.proxies)
  }

  lemma NothingInOrder(env: Env, p: Profile)
    requires !p.IsGroup()
    ensures StoredInOrder(env, p, p)
  {
    assert AreFirstOffers(env, p.protocol, [], []);
  }

  /** The first `j` children are listed in order, or lead to servers only through ancestors. */
  ghost predicate Settled(raw: Raw, ancestors: set<Id>, kids: seq<Profile>, j: nat, ids: seq<Id>) {
    && j <= |kids| && InKidOrder(kids, j, ids)
    && forall l :: 0 <= l < j ==>
         kids[l].indexId in ids || Separates(raw.graph, ancestors, kids[l].indexId, raw.leaves)
  }

  ghost predicate LoopOk(env: Env, raw: Raw, node: Profile, ancestors: set<Id>, start: Walk, progress: Progress) {
    && ChildrenOk(raw, node.indexId, ancestors, start, progress)
    && ProgressComplete(raw, ancestors, start, progress)
    && Orderly(env, raw, progress.walk)
  }

  /** A child that the loop adds to its list has not been offered before. */
  lemma AddedIsFirst(raw: Raw, ancestors: set<Id>, kids: seq<Profile>, j: nat, ids: seq<Id>, done: set<Id>)
    requires Settled(raw, ancestors, kids, j, ids) && j < |kids| && kids[j].indexId !in ids
    requires LeadsInside(raw, done, kids[j].indexId) && ancestors !! done
    ensures FirstPlace(kids, j)
  {
    LeadsAround(raw, ancestors, done, kids[j].indexId);
  }

  lemma KeptSettled(raw: Raw, ancestors: set<Id>, kids: seq<Profile>, j: nat, ids: seq<Id>)
    requires Settled(raw, ancestors, kids, j, ids) && j < |kids|
    requires kids[j].indexId in ids || Separates(raw.graph, ancestors, kids[j].indexId, raw.leaves)
    ensures Settled(raw, ancestors, kids, j + 1, ids)
  {
    SkipInOrder(kids, j, ids);
  }

  lemma AddedSettled(raw: Raw, ancestors: set<Id>, kids: seq<Profile>, j: nat, ids: seq<Id>, done: set<Id>)
    requires Settled(raw, ancestors, kids, j, ids) && j < |kids| && kids[j].indexId !in ids
    requires LeadsInside(raw, done, kids[j].indexId) && ancestors !! done
    ensures Settled(raw, ancestors, kids, j + 1, ids + [kids[j].indexId])
  {
    AddedIsFirst(raw, ancestors, kids, j, ids, done);
    PushInOrder(kids, j, ids);
  }

  /** Whatever the visit of child `j` does to the list, the list stays settled. */
  lemma StepSettles(raw: Raw, ancestors: set<Id>, start: Walk, kids: seq<Profile>, j: nat, before: Progress,
                    after: Progress)
    requires Settled(raw, ancestors, kids, j, before.childIds) && j < |kids|
    requires after.childIds == before.childIds || after.childIds == PushUnique(before.childIds, kids[j].indexId)
    requires Resolved(raw, ancestors, after.walk) && AllLead(raw, after.walk.visited - {raw.root})
    requires ListedOrCut(raw, ancestors, start, after.childIds, kids[j].indexId)
    requires forall c :: c in after.childIds ==> c in after.walk.visited && c != raw.root
    ensures Settled(raw, ancestors, kids, j + 1, after.childIds)
  {
    var id, done := kids[j].indexId, after.walk.visited - {raw.root};
    if after.childIds == before.childIds {
      if id !in after.childIds {
        SeparatesFewer(raw.graph, ancestors, id, raw.leaves, raw.leaves + start.visited);
      }
      KeptSettled(raw, ancestors, kids, j, before.childIds);
    } else {
      assert id in after.childIds;
      AddedSettled(raw, ancestors, kids, j, before.childIds, done);
    }
  }

  lemma {:induction false} TraverseOrders(env: Env, raw: Raw, node: Profile, ancestors: set<Id>, walk: Walk)
    requires Expandable(env, raw, node, ancestors) && Lineage(raw, ancestors, node.indexId)
    requires Resolved(raw, ancestors, walk) && Orderly(env, raw, walk)
    ensures Orderly(env, raw, Traverse(env, node, ancestors, walk).walk)
    decreases IdsOf(env.profiles) - ancestors, 2, 0
  {
    var kids, start := env.ChildProfiles(node.protocol), Progress(walk, [], EMPTY_RESULT);
    var inv := (i: nat, p: Progress) => LoopAt(env, raw, node, kids, i, ancestors, walk, p);
    LoopStarts(env, raw, node, kids, ancestors, walk);
    VisitsKeep(env, raw, node, kids, ancestors, walk, inv);
    LoopRule(env, node, kids, 0, ancestors, start, inv);
    assert kids[0..] == kids;
    FinishOrders(env, raw, node, kids, ancestors, walk, VisitChildren(env, node, kids, ancestors, start));
  }

  lemma LoopStarts(env: Env, raw: Raw, node: Profile, kids: seq<Profile>, ancestors: set<Id>, walk: Walk)
    requires Expandable(env, raw, node, ancestors) && Lineage(raw, ancestors, node.indexId)
    requires Resolved(raw, ancestors, walk) && Orderly(env, raw, walk)
    requires kids == env.ChildProfiles(node.protocol)
    ensures LoopAt(env, raw, node, kids, 0, ancestors, walk, Progress(walk, [], EMPTY_RESULT))
  {
    assert FirstPlaces(kids, 0, [], []);
  }

  lemma FinishOrders(env: Env, raw: Raw, node: Profile, kids: seq<Profile>, ancestors: set<Id>, start: Walk,
                     progress: Progress)
    requires LoopAt(env, raw, node, kids, |kids|, ancestors, start, progress)
    ensures Orderly(env, raw, Finish(node, progress).walk)
  {
    KidOrderIsOfferOrder(env, node.protocol, progress.childIds);
    assert StoredInOrder(env, node, node.WithChildren(progress.childIds));
  }

  /** The loop has come to child `j`. */
  ghost predicate LoopAt(env: Env, raw: Raw, node: Profile, kids: seq<Profile>, j: nat, ancestors: set<Id>, start: Walk,
                         progress: Progress)
  {
    && Expandable(env, raw, node, ancestors) && Lineage(raw, ancestors, node.indexId)
    && kids == env.ChildProfiles(node.protocol)
    && LoopOk(env, raw, node, ancestors, start, progress)
    && Settled(raw, ancestors, kids, j, progress.childIds)
  }

  /** What every visit keeps holds at the end of the loop. */
  lemma {:induction false} LoopRule(env: Env, node: Profile, kids: seq<Profile>, j: nat, ancestors: set<Id>,
                                    progress: Progress, inv: (nat, Progress) -> bool)
    requires j <= |kids| && inv(j, progress)
    requires forall kid :: kid in kids ==> kid in env.profiles
    requires forall i: nat, p :: i < |kids| && inv(i, p) ==> inv(i + 1, VisitChild(env, node, kids[i], ancestors, p))
    ensures inv(|kids|, VisitChildren(env, node, kids[j..], ancestors, progress))
    decreases |kids| - j
  {
    if j < |kids| {
      var next := VisitChild(env, node, kids[j], ancestors, progress);
      assert kids[j..][0] == kids[j] && kids[j..][1..] == kids[j + 1..];
      LoopRule(env, node, kids, j + 1, ancestors, next, inv);
    }
  }

  lemma {:induction false} VisitsKeep(env: Env, raw: Raw, node: Profile, kids: seq<Profile>, ancestors: set<Id>,
                                      start: Walk, inv: (nat, Progress) -> bool)
    requires forall kid :: kid in kids ==> kid in env.profiles
    requires forall i, p :: inv(i, p) <==> LoopAt(env, raw, node, kids, i, ancestors, start, p)
    ensures forall i: nat, p :: i < |kids| && inv(i, p) ==> inv(i + 1, VisitChild(env, node, kids[i], ancestors, p))
    decreases IdsOf(env.profiles) - ancestors, 0, 2
  {
    forall i: nat, p | i < |kids| && inv(i, p) ensures inv(i + 1, VisitChild(env, node, kids[i], ancestors, p)) {
      VisitNext(env, raw, node, kids, i, ancestors, start, p);
    }
  }

  lemma {:induction false} VisitNext(env: Env, raw: Raw, node: Profile, kids: seq<Profile>, j: nat, ancestors: set<Id>,
                                     start: Walk, progress: Progress)
    requires j < |kids| && LoopAt(env, raw, node, kids, j, ancestors, start, progress)
    requires forall kid :: kid in kids ==> kid in env.profiles
    ensures LoopAt(env, raw, node, kids, j + 1, ancestors, start, VisitChild(env, node, kids[j], ancestors, progress))
    decreases IdsOf(env.profiles) - ancestors, 0, 1
  {
    assert kids[j] in kids;
    VisitChildOrders(env, raw, node, kids[j], ancestors, start, progress);
    VisitSettles(env, raw, node, kids, j, ancestors, start, progress, VisitChild(env, node, kids[j], ancestors, progress));
  }

  lemma VisitSettles(env: Env, raw: Raw, node: Profile, kids: seq<Profile>, j: nat, ancestors: set<Id>, start: Walk,
                     progress: Progress, next: Progress)
    requires j < |kids| && kids[j] in env.profiles
    requires LoopAt(env, raw, node, kids, j, ancestors, start, progress)
    requires next == VisitChild(env, node, kids[j], ancestors, progress) && Orderly(env, raw, next.walk)
    ensures LoopAt(env, raw, node, kids, j + 1, ancestors, start, next)
  {
    VisitChildEstablishes(env, raw, node, kids[j], ancestors, start, progress);
    VisitChildCompletes(env, raw, node, kids[j], ancestors, start, progress);
    VisitChildPushes(env, node, kids[j], ancestors, progress);
    StepSettles(raw, ancestors, start, kids, j, progress, next);
  }

  lemma VisitChildPushes(env: Env, node: Profile, kid: Profile, ancestors: set<Id>, progress: Progress)
    requires kid in env.profiles
    ensures var after := VisitChild(env, node, kid, ancestors, progress);
            after.childIds == progress.childIds || after.childIds == PushUnique(progress.childIds, kid.indexId)
  {
  }

  lemma {:induction false} VisitChildOrders(env: Env, raw: Raw, node: Profile, kid: Profile, ancestors: set<Id>,
                                            start: Walk, progress: Progress)
    requires Expandable(env, raw, node, ancestors) && Lineage(raw, ancestors, node.indexId)
    requires kid in env.profiles && kid in env.ChildProfiles(node.protocol)
    requires LoopOk(env, raw, node, ancestors, start, progress)
    ensures Orderly(env, raw, VisitChild(env, node, kid, ancestors, progress).walk)
    decreases IdsOf(env.profiles) - ancestors, 0, 0
  {
    var id, walk := kid.indexId, progress.walk;
    KidFacts(env, raw, node, kid);
    if id !in ancestors && id !in walk.visited {
      if kid.IsGroup() {
        var below := ancestors + {id};
        EnterGroup(raw, ancestors, walk, id);
        LineageGrows(raw, ancestors, node.indexId, id);
        TraverseOrders(env, raw, kid, below, walk);
        TraverseEstablishes(env, raw, kid, below, walk);
        GroupOrders(env, raw, ancestors, kid, Traverse(env, kid, below, walk), walk);
      } else if kid.Accepted() {
        ServerOrders(env, raw, kid, walk);
      }
    }
  }

  lemma ServerOrders(env: Env, raw: Raw, kid: Profile, walk: Walk)
    requires Orderly(env, raw, walk) && !kid.IsGroup() && kid.indexId != raw.root
    requires kid.indexId in raw.profiles && raw.profiles[kid.indexId] == kid && kid.indexId in raw.leaves
    ensures Orderly(env, raw, Walk(walk.visited + {kid.indexId}, walk.proxies[kid.indexId := kid]))
  {
    var done := walk.visited - {raw.root};
    LeafLeads(raw, done + {kid.indexId}, kid.indexId);
    LeadsGrow(raw, done, kid.indexId);
    assert walk.visited + {kid.indexId} - {raw.root} == done + {kid.indexId};
    NothingInOrder(env, kid);
  }

  lemma GroupOrders(env: Env, raw: Raw, ancestors: set<Id>, kid: Profile, o: Outcome, walk: Walk)
    requires Orderly(env, raw, o.walk) && kid.indexId != raw.root
    requires TraverseOk(raw, kid.indexId, ancestors + {kid.indexId}, walk, o)
    requires kid.indexId in raw.profiles && raw.profiles[kid.indexId].IsGroup()
    ensures o.result.Success() ==> Orderly(env, raw, o.walk.(visited := o.walk.visited + {kid.indexId}))
  {
    if o.result.Success() {
      var ids := o.walk.proxies[kid.indexId].protocol.ChildIds();
      assert ids[0] in ids;
      FinishedOrders(env, raw, kid.indexId, ids[0], o.walk);
    }
  }

  lemma FinishedOrders(env: Env, raw: Raw, c: Id, b: Id, walk: Walk)
    requires Orderly(env, raw, walk) && c != raw.root
    requires b in walk.visited - {raw.root} && Edge(raw.graph, c, b)
    ensures Orderly(env, raw, walk.(visited := walk.visited + {c}))
  {
    var done := walk.visited - {raw.root};
    ParentLeads(raw, done, c, b);
    LeadsGrow(raw, done, c);
    assert walk.visited + {c} - {raw.root} == done + {c};
  }

  // ------------------------------------------------------------------- over whole builds

  lemma RegisterOrders(env: Env, raw: Raw, root: Profile)
    requires Describes(raw, env) && root.IsGroup() && raw.root == root.indexId && raw.profiles[raw.root] == root
    ensures AllInOrder(env, raw, RegisterGroup(env, root, map[]).walk.proxies)
  {
    ReachesSelf(raw.graph, raw.root);
    TraverseOrders(env, raw, root, {root.indexId}, Walk({root.indexId}, map[]));
  }

  lemma StoresItself(env: Env, root: Profile, ancestors: set<Id>, walk: Walk)
    ensures var o := Traverse(env, root, ancestors, walk); o.result.Success() ==> root.indexId in o.walk.proxies
  {
  }

  /** All that a group's own pass stores, the group included, is in order. */
  lemma RegisteredInOrder(env: Env, root: Profile)
    requires UniqueIds(env.profiles) && root.IsGroup()
    ensures var o, raw := RegisterGroup(env, root, map[]), RawOf(env, root);
            && AllInOrder(env, raw, o.walk.proxies)
            && (o.result.Success() ==> root.indexId in o.walk.proxies && raw.profiles[root.indexId] == root)
  {
    RawOfDescribes(env, root);
    RegisterOrders(env, RawOf(env, root), root);
    StoresItself(env, root, {root.indexId}, Walk({root.indexId}, map[]));
  }

  /** Every entry under a profile id is the stored profile with its children in order. */
  ghost predicate EntriesInOrder(env: Env, proxies: Proxies) {
    forall id :: id in proxies && !IsAlias(id) ==>
      id in IdsOf(env.profiles) && StoredInOrder(env, Find(env.profiles, id).value, proxies[id])
  }

  lemma GroupPassInOrder(env: Env, node: Profile, id: Id)
    requires UniqueIds(env.profiles) && node in env.profiles && node.IsGroup()
    requires id in RegisterGroup(env, node, map[]).walk.proxies
    ensures id in IdsOf(env.profiles)
    ensures StoredInOrder(env, Find(env.profiles, id).value, RegisterGroup(env, node, map[]).walk.proxies[id])
  {
    RegisteredInOrder(env, node);
    StoredRootIsLookup(env, node, id);
  }

  lemma PassInOrder(env: Env, node: Profile)
    requires UniqueIds(env.profiles) && node in env.profiles
    ensures EntriesInOrder(env, Fresh(env, node))
  {
    FindSelf(env.profiles, node);
    if node.IsGroup() {
      forall id | id in Fresh(env, node)
        ensures id in IdsOf(env.profiles) && StoredInOrder(env, Find(env.profiles, id).value, Fresh(env, node)[id])
      {
        GroupPassInOrder(env, node, id);
      }
    } else {
      NothingInOrder(env, node);
    }
  }

  lemma RuleInOrder(env: Env, built: Built, rule: Rule)
    requires UniqueIds(env.profiles) && EntriesInOrder(env, built.proxies)
    ensures EntriesInOrder(env, RuleStep(env, built, rule).proxies)
  {
    RuleStepMap(env, built, rule);
    if Asks(env, rule, Tag(rule)) {
      PassInOrder(env, FindRemarks(env.profiles, Tag(rule)).value);
      assert IsAlias(Key(Tag(rule)));
    }
  }

  lemma {:induction false} RulesInOrder(env: Env, built: Built, rules: seq<Rule>)
    requires UniqueIds(env.profiles) && EntriesInOrder(env, built.proxies)
    ensures EntriesInOrder(env, ResolveRules(env, built, rules).proxies)
    decreases |rules|
  {
    if rules != [] {
      ResolveFirst(env, built, rules);
      RuleInOrder(env, built, rules[0]);
      RulesInOrder(env, RuleStep(env, built, rules[0]), rules[1..]);
    }
  }

  /**
   * After a whole build every entry under a profile id is that profile, and its children
   * stand, without duplicates, in the order in which the profile offers them.
   */
  lemma BuildInOrder(env: Env, node: Profile, rules: seq<Rule>, id: Id)
    requires UniqueIds(env.profiles) && node in env.profiles
    requires id in Build(env, node, rules).proxies && !IsAlias(id)
    ensures id in IdsOf(env.profiles)
    ensures var p, entry := Find(env.profiles, id).value, Build(env, node, rules).proxies[id];
            var ids := entry.protocol.ChildIds();
            && OnlyChildrenDiffer(p, entry)
            && InOrder(env, p.protocol, ids)
            && forall k, l :: 0 <= k < l < |ids| ==> ids[k] != ids[l]
  {
    PassInOrder(env, node);
    RulesInOrder(env, ResolveNode(env, map[], node), rules);
    InOrderIsUnique(env, Find(env.profiles, id).value.protocol, Build(env, node, rules).proxies[id].protocol.ChildIds());
  }
}
