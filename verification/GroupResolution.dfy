/**
 * Registration of a node and, for groups, of everything below it: the walk that cuts
 * edges to ancestors, remembers finished nodes and drops groups without a valid child.
 */
module GroupResolution {
  import opened Text
  import opened Digraph
  import opened Profiles

  datatype Issue =
    | NodeError(text: string)
    | GroupCycle(group: string, child: string)
    | NoValidChild(group: string)
    | InChild(childIsGroup: bool, group: string, child: string, inner: Issue)
    | EmptyOutboundTag(rule: string)
    | OutboundNotFound(rule: string, tag: string)
    | InRule(rule: string, tag: string, isError: bool, inner: Issue)
  {
    predicate MentionsCycle() {
      match this
      case GroupCycle(_, _) => true
      case InChild(_, _, _, inner) => inner.MentionsCycle()
      case InRule(_, _, _, inner) => inner.MentionsCycle()
      case _ => false
    }
  }

  datatype NodeResult = NodeResult(errors: seq<Issue>, warnings: seq<Issue>) {
    predicate Success() {
      errors == []
    }

    predicate MentionsCycle() {
      exists issue :: issue in errors + warnings && issue.MentionsCycle()
    }

    function PushError(issue: Issue): NodeResult {
      this.(errors := errors + [issue])
    }

    function PushWarning(issue: Issue): NodeResult {
      this.(warnings := warnings + [issue])
    }

    /** Takes over a child's warnings and errors under a prefix that names the child. */
    function ExtendPrefixed(parent: Profile, child: Profile, result: NodeResult): NodeResult {
      NodeResult(
        errors + Prefixed(parent, child, result.errors),
        warnings + Prefixed(parent, child, result.warnings))
    }
  }

  const EMPTY_RESULT := NodeResult([], [])

  function Prefixed(parent: Profile, child: Profile, issues: seq<Issue>): (r: seq<Issue>)
    ensures |r| == |issues|
    ensures forall i :: 0 <= i < |r| ==> r[i].MentionsCycle() == issues[i].MentionsCycle()
  {
    seq(|issues|, i requires 0 <= i < |issues| =>
      InChild(child.IsGroup(), parent.remarks, child.remarks, issues[i]))
  }

  function NodeErrors(texts: seq<string>): seq<Issue> {
    seq(|texts|, i requires 0 <= i < |texts| => NodeError(texts[i]))
  }

  type Proxies = map<Id, Profile>

  /** What the walk carries along: the finished ids and the context's proxy map. */
  datatype Walk = Walk(visited: set<Id>, proxies: Proxies)
  datatype Progress = Progress(walk: Walk, childIds: seq<Id>, result: NodeResult)
  datatype Outcome = Outcome(walk: Walk, result: NodeResult)

  function PushUnique(ids: seq<Id>, id: Id): seq<Id> {
    if id in ids then ids else ids + [id]
  }

  function SingleResult(node: Profile): NodeResult {
    NodeResult(NodeErrors(node.ValidationErrors()), [])
  }

  /** Registers a node that is not a group. */
  function RegisterSingle(proxies: Proxies, node: Profile): Proxies {
    if node.Accepted() then proxies[node.indexId := node] else proxies
  }

  function Traverse(env: Env, node: Profile, ancestors: set<Id>, walk: Walk): Outcome
    decreases IdsOf(env.profiles) - ancestors, 2, 0
  {
    Finish(node, VisitChildren(env, node, env.ChildProfiles(node.protocol), ancestors, Progress(walk, [], EMPTY_RESULT)))
  }

  /** A group without children fails; otherwise its errors become warnings and it is stored. */
  function Finish(node: Profile, progress: Progress): Outcome {
    if progress.childIds == [] then
      Outcome(progress.walk, progress.result.PushError(NoValidChild(node.remarks)))
    else
      Outcome(
        progress.walk.(proxies := progress.walk.proxies[node.indexId := node.WithChildren(progress.childIds)]),
        NodeResult([], progress.result.warnings + progress.result.errors))
  }

  function VisitChildren(env: Env, node: Profile, kids: seq<Profile>, ancestors: set<Id>, progress: Progress): Progress
    requires forall kid :: kid in kids ==> kid in env.profiles
    decreases IdsOf(env.profiles) - ancestors, 1, |kids|
  {
    if kids == [] then progress
    else VisitChildren(env, node, kids[1..], ancestors, VisitChild(env, node, kids[0], ancestors, progress))
  }

  function VisitChild(env: Env, node: Profile, kid: Profile, ancestors: set<Id>, progress: Progress): Progress
    requires kid in env.profiles
    decreases IdsOf(env.profiles) - ancestors, 0, 0
  {
    var walk := progress.walk;
    if kid.indexId in ancestors then
      progress.(result := progress.result.PushError(GroupCycle(node.remarks, kid.remarks)))
    else if kid.indexId in walk.visited then
      progress.(childIds := PushUnique(progress.childIds, kid.indexId))
    else
      var inner :=
        if kid.IsGroup() then Traverse(env, kid, ancestors + {kid.indexId}, walk)
        else Outcome(walk.(proxies := RegisterSingle(walk.proxies, kid)), SingleResult(kid));
      var result := progress.result.ExtendPrefixed(node, kid, inner.result);
      if inner.result.Success() then
        Progress(
          inner.walk.(visited := inner.walk.visited + {kid.indexId}),
          PushUnique(progress.childIds, kid.indexId),
          result)
      else
        Progress(inner.walk, progress.childIds, result)
  }

  /** Registers a group with fresh bookkeeping. */
  function RegisterGroup(env: Env, root: Profile, proxies: Proxies): Outcome {
    Traverse(env, root, {root.indexId}, Walk({root.indexId}, proxies))
  }

  // ---------------------------------------------------------------- the two graphs

  /**
   * The profiles as the user arranged them, seen from one root: who lists whom before
   * anything is cut, and which servers registration accepts.
   */
  datatype Raw = Raw(root: Id, profiles: map<Id, Profile>, graph: Graph, leaves: set<Id>)

  function ProfileAt(env: Env, root: Profile, id: Id): Option<Profile> {
    if id == root.indexId then Some(root) else Find(env.profiles, id)
  }

  function RawProfiles(env: Env, root: Profile): map<Id, Profile> {
    map id | id in IdsOf(env.profiles) + {root.indexId} :: ProfileAt(env, root, id).value
  }

  /** The children every profile asks for, before anything is cut. */
  function RawChildren(env: Env, root: Profile): Graph {
    map id | id in IdsOf(env.profiles) + {root.indexId} ::
      IdList(env.ChildProfiles(ProfileAt(env, root, id).value.protocol))
  }

  /** The servers that registration accepts. */
  function RawLeaves(env: Env, root: Profile): set<Id> {
    set id | id in IdsOf(env.profiles) + {root.indexId}
             && !ProfileAt(env, root, id).value.IsGroup() && ProfileAt(env, root, id).value.Accepted()
  }

  function RawOf(env: Env, root: Profile): Raw {
    Raw(root.indexId, RawProfiles(env, root), RawChildren(env, root), RawLeaves(env, root))
  }

  /** The children listed by the registered profiles. */
  function ChildGraph(proxies: Proxies): Graph {
    map id | id in proxies :: proxies[id].protocol.ChildIds()
  }

  /** What the walk may rely on about the arrangement it reads from `env`. */
  ghost predicate Describes(raw: Raw, env: Env) {
    && raw.root in raw.profiles
    && raw.profiles[raw.root].IsGroup()
    && (forall kid :: kid in env.profiles && kid.indexId != raw.root ==>
          kid.indexId in raw.profiles && raw.profiles[kid.indexId] == kid)
    && (forall id :: id in raw.leaves ==> id in raw.profiles)
    && (forall id :: id in raw.profiles ==> ProfileDescribed(raw, env, id))
  }

  ghost predicate ProfileDescribed(raw: Raw, env: Env, id: Id)
    requires id in raw.profiles
  {
    var p := raw.profiles[id];
    && p.indexId == id
    && (id in raw.leaves <==> !p.IsGroup() && p.Accepted())
    && forall b :: Edge(raw.graph, id, b) <==> ListsChild(env, p, b)
  }

  ghost predicate ListsChild(env: Env, p: Profile, b: Id) {
    exists kid :: kid in env.ChildProfiles(p.protocol) && kid.indexId == b
  }

  lemma RawOfDescribes(env: Env, root: Profile)
    requires UniqueIds(env.profiles) && root.IsGroup()
    ensures Describes(RawOf(env, root), env)
  {
    var raw := RawOf(env, root);
    forall kid | kid in env.profiles && kid.indexId != raw.root
      ensures kid.indexId in raw.profiles && raw.profiles[kid.indexId] == kid
    {
      FindSelf(env.profiles, kid);
    }
    forall id | id in raw.profiles ensures ProfileDescribed(raw, env, id) {
      RawOfProfileDescribed(env, root, id);
    }
  }

  lemma RawOfProfileDescribed(env: Env, root: Profile, id: Id)
    requires id in RawOf(env, root).profiles
    ensures ProfileDescribed(RawOf(env, root), env, id)
  {
    var raw := RawOf(env, root);
    var p := raw.profiles[id];
    var ids := IdList(env.ChildProfiles(p.protocol));
    assert id in raw.graph && raw.graph[id] == ids;
    forall b ensures Edge(raw.graph, id, b) <==> ListsChild(env, p, b) {
      assert b in ids <==> exists kid :: kid in env.ChildProfiles(p.protocol) && kid.indexId == b;
    }
  }

  lemma KidFacts(env: Env, raw: Raw, node: Profile, kid: Profile)
    requires Describes(raw, env)
    requires node.indexId in raw.profiles && raw.profiles[node.indexId] == node
    requires kid in env.ChildProfiles(node.protocol)
    ensures kid in env.profiles
    ensures Edge(raw.graph, node.indexId, kid.indexId)
    ensures kid.indexId != raw.root ==>
              && kid.indexId in raw.profiles
              && raw.profiles[kid.indexId] == kid
              && (kid.indexId in raw.leaves <==> !kid.IsGroup() && kid.Accepted())
              && (!kid.IsGroup() ==> forall b :: !Edge(raw.graph, kid.indexId, b))
  {
    assert ProfileDescribed(raw, env, node.indexId);
    assert ListsChild(env, node, kid.indexId);
    if kid.indexId != raw.root {
      assert ProfileDescribed(raw, env, kid.indexId);
      assert !kid.IsGroup() ==> env.ChildProfiles(kid.protocol) == [];
    }
  }

  // ------------------------------------------------------------ what the walk keeps

  /** A finished id maps to its profile: a server unchanged, a group with finished children. */
  ghost predicate EntryOk(raw: Raw, proxies: Proxies, done: set<Id>, id: Id) {
    && id in proxies
    && id in raw.profiles
    && var ids := proxies[id].protocol.ChildIds();
    && proxies[id] == raw.profiles[id].WithChildren(ids)
    && if raw.profiles[id].IsGroup() then
         ids != [] && forall c :: c in ids ==> c in done && Edge(raw.graph, id, c)
       else id in raw.leaves
  }

  /** Below `id` nothing valid was missed: every way down to a server meets `known`. */
  ghost predicate Covered(raw: Raw, known: set<Id>, id: Id) {
    forall b :: Edge(raw.graph, id, b) ==> Separates(raw.graph, known, b, raw.leaves)
  }

  ghost predicate NoCycleFrom(proxies: Proxies, done: set<Id>) {
    forall p :: IsCycle(ChildGraph(proxies), p) ==> p[0] !in done
  }

  ghost predicate Resolved(raw: Raw, ancestors: set<Id>, walk: Walk) {
    var done := walk.visited - {raw.root};
    && raw.root in ancestors
    && raw.root in walk.visited
    && ancestors !! done
    && (forall d :: d in done ==> EntryOk(raw, walk.proxies, done, d))
    && (forall d :: d in done ==> Covered(raw, walk.visited + ancestors, d))
    && NoCycleFrom(walk.proxies, done)
    && (done != {} ==> done * raw.leaves != {})
  }

  /** The finished entries of `before` are finished and untouched in `after`. */
  ghost predicate Extends(root: Id, before: Walk, after: Walk) {
    && before.visited <= after.visited
    && forall d :: d in before.visited && d != root && d in before.proxies
                   ==> d in after.proxies && after.proxies[d] == before.proxies[d]
  }

  /** Everything finished since `before` lies below one of `ids`. */
  ghost predicate NewBelow(before: Walk, after: Walk, ids: seq<Id>) {
    forall v :: v in after.visited && v !in before.visited ==> Below(after.proxies, ids, v)
  }

  ghost predicate Below(proxies: Proxies, ids: seq<Id>, v: Id) {
    exists c :: c in ids && Reaches(ChildGraph(proxies), c, v)
  }

  /** Properties of a loop over the children of `id` that has come to `progress`. */
  ghost predicate ChildrenOk(raw: Raw, id: Id, ancestors: set<Id>, start: Walk, progress: Progress) {
    && Resolved(raw, ancestors, progress.walk)
    && raw.root in start.visited
    && Extends(raw.root, start, progress.walk)
    && NewBelow(start, progress.walk, progress.childIds)
    && (forall c :: c in progress.childIds ==>
          c in progress.walk.visited && c != raw.root && Edge(raw.graph, id, c))
    && (progress.childIds == [] ==> progress.walk == start)
  }

  lemma ExtendsClosed(raw: Raw, ancestors: set<Id>, walk: Walk, a: Id, b: Id)
    requires Resolved(raw, ancestors, walk)
    requires a in walk.visited - {raw.root} && Edge(ChildGraph(walk.proxies), a, b)
    ensures b in walk.visited - {raw.root}
  {
    assert EntryOk(raw, walk.proxies, walk.visited - {raw.root}, a);
  }

  /** Paths from finished ids survive later insertions. */
  lemma ReachesFrame(raw: Raw, ancestors: set<Id>, before: Walk, after: Walk, a: Id, b: Id)
    requires Resolved(raw, ancestors, before)
    requires Extends(raw.root, before, after)
    requires a in before.visited && a != raw.root
    requires Reaches(ChildGraph(before.proxies), a, b)
    ensures Reaches(ChildGraph(after.proxies), a, b)
  {
    var g := ChildGraph(before.proxies);
    var p :| IsPathBetween(g, p, a, b);
    var done := before.visited - {raw.root};
    forall x, y | x in done && Edge(g, x, y) ensures y in done {
      ExtendsClosed(raw, ancestors, before, x, y);
    }
    PathStaysInside(g, p, done, 0);
    forall i {:trigger p[i]} | 0 <= i < |p| - 1 ensures Edge(ChildGraph(after.proxies), p[i], p[i + 1]) {
      assert Edge(g, p[i], p[i + 1]);
      assert p[i] in done;
    }
    assert IsPathBetween(ChildGraph(after.proxies), p, a, b);
  }

  /** A cycle through entries on which two maps agree is a cycle of both. */
  lemma CycleTransfers(before: Proxies, after: Proxies, done: set<Id>, p: seq<Id>)
    requires forall d :: d in done ==> d in before && d in after && after[d] == before[d]
    requires forall x, y :: x in done && Edge(ChildGraph(before), x, y) ==> y in done
    requires IsCycle(ChildGraph(after), p) && p[0] in done
    ensures IsCycle(ChildGraph(before), p)
  {
    var g, h := ChildGraph(before), ChildGraph(after);
    forall x, y | x in done && Edge(h, x, y) ensures y in done {
      assert Edge(g, x, y);
    }
    PathStaysInside(h, p, done, 0);
    forall i {:trigger p[i]} | 0 <= i < |p| - 1 ensures Edge(g, p[i], p[i + 1]) {
      assert Edge(h, p[i], p[i + 1]);
    }
  }

  /** Changing the entry of an unfinished id keeps the finished part free of cycles. */
  lemma NoCycleFrame(before: Proxies, after: Proxies, done: set<Id>)
    requires forall d :: d in done ==> d in before && d in after && after[d] == before[d]
    requires forall x, y :: x in done && Edge(ChildGraph(before), x, y) ==> y in done
    requires NoCycleFrom(before, done)
    ensures NoCycleFrom(after, done)
  {
    forall p | IsCycle(ChildGraph(after), p) ensures p[0] !in done {
      if p[0] in done {
        CycleTransfers(before, after, done, p);
      }
    }
  }

  /** A new vertex whose successors all lie in an acyclic closed set closes no cycle. */
  lemma NoCycleGrow(proxies: Proxies, done: set<Id>, c: Id)
    requires NoCycleFrom(proxies, done) && c !in done
    requires forall x, y :: x in done + {c} && Edge(ChildGraph(proxies), x, y) ==> y in done
    ensures NoCycleFrom(proxies, done + {c})
  {
    var g := ChildGraph(proxies);
    forall p | IsCycle(g, p) ensures p[0] !in done + {c} {
      if p[0] in done + {c} {
        assert Edge(g, p[0], p[1]);
        PathStaysInside(g, p, done, 1);
      }
    }
  }

  /** Storing an entry for an id that does not count as finished keeps the invariant. */
  lemma StoreEntry(raw: Raw, id: Id, entry: Profile, ancestors: set<Id>, walk: Walk)
    requires Resolved(raw, ancestors, walk)
    requires id !in walk.visited - {raw.root}
    ensures Resolved(raw, ancestors, walk.(proxies := walk.proxies[id := entry]))
  {
    var done := walk.visited - {raw.root};
    var after := walk.(proxies := walk.proxies[id := entry]);
    forall d | d in done ensures EntryOk(raw, after.proxies, done, d) && d in walk.proxies {
      assert EntryOk(raw, walk.proxies, done, d);
    }
    forall x, y | x in done && Edge(ChildGraph(walk.proxies), x, y) ensures y in done {
      ExtendsClosed(raw, ancestors, walk, x, y);
    }
    NoCycleFrame(walk.proxies, after.proxies, done);
  }

  lemma EntriesGrow(raw: Raw, proxies: Proxies, done: set<Id>, c: Id)
    requires forall d :: d in done + {c} ==> EntryOk(raw, proxies, done, d)
    ensures forall d :: d in done + {c} ==> EntryOk(raw, proxies, done + {c}, d)
    ensures forall x, y :: x in done + {c} && Edge(ChildGraph(proxies), x, y) ==> y in done
  {
    forall d | d in done + {c} ensures EntryOk(raw, proxies, done + {c}, d) {
      assert EntryOk(raw, proxies, done, d);
    }
    forall x, y | x in done + {c} && Edge(ChildGraph(proxies), x, y) ensures y in done {
      assert EntryOk(raw, proxies, done, x);
    }
  }

  lemma LeafGrow(raw: Raw, proxies: Proxies, done: set<Id>, c: Id)
    requires EntryOk(raw, proxies, done, c)
    requires done != {} ==> done * raw.leaves != {}
    ensures (done + {c}) * raw.leaves != {}
  {
    if raw.profiles[c].IsGroup() {
      assert proxies[c].protocol.ChildIds()[0] in done;
      var t :| t in done * raw.leaves;
      assert t in (done + {c}) * raw.leaves;
    } else {
      assert c in (done + {c}) * raw.leaves;
    }
  }

  lemma CoveredMonotone(raw: Raw, small: set<Id>, big: set<Id>, id: Id)
    requires small <= big && Covered(raw, small, id)
    ensures Covered(raw, big, id)
  {
    forall b | Edge(raw.graph, id, b) ensures Separates(raw.graph, big, b, raw.leaves) {
      SeparatesMonotone(raw.graph, small, big, b, raw.leaves);
    }
  }

  /** Counting a node whose entry is stored as finished. */
  lemma MarkVisited(raw: Raw, ancestors: set<Id>, walk: Walk, c: Id, below: set<Id>)
    requires Resolved(raw, below, walk)
    requires ancestors <= below <= ancestors + {c}
    requires raw.root in ancestors && c !in ancestors && c !in walk.visited
    requires EntryOk(raw, walk.proxies, walk.visited - {raw.root}, c)
    requires Covered(raw, walk.visited + below, c)
    ensures Resolved(raw, ancestors, walk.(visited := walk.visited + {c}))
  {
    var done := walk.visited - {raw.root};
    var after := walk.(visited := walk.visited + {c});
    assert after.visited - {raw.root} == done + {c};
    EntriesGrow(raw, walk.proxies, done, c);
    forall d | d in done + {c} ensures Covered(raw, after.visited + ancestors, d) {
      CoveredMonotone(raw, walk.visited + below, after.visited + ancestors, d);
    }
    NoCycleGrow(walk.proxies, done, c);
    LeafGrow(raw, walk.proxies, done, c);
  }

  /** Below a vertex without successors that is no server there is no server. */
  lemma RejectedLeafSeparated(raw: Raw, known: set<Id>, id: Id)
    requires id !in raw.leaves && forall b :: !Edge(raw.graph, id, b)
    ensures Separates(raw.graph, known, id, raw.leaves)
  {
    forall p | IsPath(raw.graph, p) && p[0] == id ensures p[|p| - 1] == id {
    }
  }

  lemma SelfSeparates(g: Graph, cut: set<Id>, a: Id, targets: set<Id>)
    requires a in cut
    ensures Separates(g, cut, a, targets)
  {
    forall p | IsPath(g, p) && p[0] == a && p[|p| - 1] in targets ensures Meets(p, cut) {
      assert p[0] in cut;
    }
  }

  /** Adding one finished child keeps everything new below some listed child. */
  lemma NewBelowExtend(raw: Raw, id: Id, ancestors: set<Id>, start: Walk, progress: Progress, after: Walk, c: Id)
    requires ChildrenOk(raw, id, ancestors, start, progress)
    requires Extends(raw.root, progress.walk, after)
    requires NewBelow(progress.walk, after, [c])
    ensures NewBelow(start, after, PushUnique(progress.childIds, c))
  {
    forall v | v in after.visited && v !in start.visited
      ensures Below(after.proxies, PushUnique(progress.childIds, c), v)
    {
      if v in progress.walk.visited {
        assert Below(progress.walk.proxies, progress.childIds, v);
        var b :| b in progress.childIds && Reaches(ChildGraph(progress.walk.proxies), b, v);
        ReachesFrame(raw, ancestors, progress.walk, after, b, v);
      } else {
        assert Below(after.proxies, [c], v);
      }
    }
  }

  // ---------------------------------------------------------- the walk, step by step

  /** `node` is a group whose children the walk may visit, with all of its ancestors known. */
  ghost predicate Expandable(env: Env, raw: Raw, node: Profile, ancestors: set<Id>) {
    && Describes(raw, env)
    && node.IsGroup()
    && node.indexId in ancestors
    && node.indexId in raw.profiles
    && raw.profiles[node.indexId] == node
  }

  /** What visiting one child, or several, adds to the loop over the children of a node. */
  ghost predicate ChildStep(raw: Raw, id: Id, ancestors: set<Id>, start: Walk, before: Progress, after: Progress) {
    && ChildrenOk(raw, id, ancestors, start, after)
    && before.walk.visited <= after.walk.visited
  }

  ghost predicate KidSeparated(raw: Raw, ancestors: set<Id>, after: Progress, kid: Profile) {
    Separates(raw.graph, after.walk.visited + ancestors, kid.indexId, raw.leaves)
  }

  lemma AcceptedLeafOk(env: Env, raw: Raw, node: Profile, kid: Profile, ancestors: set<Id>, start: Walk,
                       progress: Progress)
    requires Expandable(env, raw, node, ancestors)
    requires kid in env.ChildProfiles(node.protocol) && kid in env.profiles && !kid.IsGroup() && kid.Accepted()
    requires kid.indexId !in ancestors && kid.indexId !in progress.walk.visited
    requires ChildrenOk(raw, node.indexId, ancestors, start, progress)
    ensures var after := VisitChild(env, node, kid, ancestors, progress);
            && ChildStep(raw, node.indexId, ancestors, start, progress, after)
            && KidSeparated(raw, ancestors, after, kid)
  {
    var walk, id := progress.walk, kid.indexId;
    var after := VisitChild(env, node, kid, ancestors, progress);
    var stored := walk.(proxies := walk.proxies[id := kid]);
    KidFacts(env, raw, node, kid);
    StoreEntry(raw, id, kid, ancestors, walk);
    MarkVisited(raw, ancestors, stored, id, ancestors);
    ReachesSelf(ChildGraph(after.walk.proxies), id);
    NewBelowExtend(raw, node.indexId, ancestors, start, progress, after.walk, id);
    SelfSeparates(raw.graph, after.walk.visited + ancestors, id, raw.leaves);
  }

  lemma LeafChildOk(env: Env, raw: Raw, node: Profile, kid: Profile, ancestors: set<Id>, start: Walk,
                    progress: Progress)
    requires Expandable(env, raw, node, ancestors)
    requires kid in env.ChildProfiles(node.protocol) && kid in env.profiles && !kid.IsGroup()
    requires kid.indexId !in ancestors && kid.indexId !in progress.walk.visited
    requires ChildrenOk(raw, node.indexId, ancestors, start, progress)
    ensures var after := VisitChild(env, node, kid, ancestors, progress);
            && ChildStep(raw, node.indexId, ancestors, start, progress, after)
            && KidSeparated(raw, ancestors, after, kid)
  {
    if kid.Accepted() {
      AcceptedLeafOk(env, raw, node, kid, ancestors, start, progress);
    } else {
      KidFacts(env, raw, node, kid);
      RejectedLeafSeparated(raw, progress.walk.visited + ancestors, kid.indexId);
    }
  }

  /** What one traversal of a group establishes. */
  ghost predicate TraverseOk(raw: Raw, id: Id, ancestors: set<Id>, walk: Walk, outcome: Outcome) {
    && Covered(raw, outcome.walk.visited + ancestors, id)
    && if outcome.result.Success() then
         && Resolved(raw, ancestors, outcome.walk)
         && Extends(raw.root, walk, outcome.walk)
         && EntryOk(raw, outcome.walk.proxies, outcome.walk.visited - {raw.root}, id)
         && NewBelow(walk, outcome.walk, [id])
       else
         outcome.walk == walk
  }

  lemma EdgesSeparated(env: Env, raw: Raw, node: Profile, ancestors: set<Id>, progress: Progress)
    requires Expandable(env, raw, node, ancestors)
    requires forall kid :: kid in env.ChildProfiles(node.protocol) ==> KidSeparated(raw, ancestors, progress, kid)
    ensures forall b :: Edge(raw.graph, node.indexId, b)
                        ==> Separates(raw.graph, progress.walk.visited + ancestors, b, raw.leaves)
  {
    forall b | Edge(raw.graph, node.indexId, b)
      ensures Separates(raw.graph, progress.walk.visited + ancestors, b, raw.leaves)
    {
      assert ProfileDescribed(raw, env, node.indexId);
      assert ListsChild(env, node, b);
      var kid :| kid in env.ChildProfiles(node.protocol) && kid.indexId == b;
      assert KidSeparated(raw, ancestors, progress, kid);
    }
  }

  lemma {:induction false} TraverseEstablishes(env: Env, raw: Raw, node: Profile, ancestors: set<Id>, walk: Walk)
    requires Expandable(env, raw, node, ancestors)
    requires Resolved(raw, ancestors, walk)
    ensures TraverseOk(raw, node.indexId, ancestors, walk, Traverse(env, node, ancestors, walk))
    decreases IdsOf(env.profiles) - ancestors, 2, 0
  {
    var kids := env.ChildProfiles(node.protocol);
    var start := Progress(walk, [], EMPTY_RESULT);
    VisitChildrenEstablishes(env, raw, node, kids, ancestors, walk, start);
    var progress := VisitChildren(env, node, kids, ancestors, start);
    EdgesSeparated(env, raw, node, ancestors, progress);
    FinishOk(raw, node, ancestors, walk, progress);
  }

  /** What the loop over the children leaves is what the end of the traversal needs. */
  lemma FinishOk(raw: Raw, node: Profile, ancestors: set<Id>, walk: Walk, progress: Progress)
    requires node.IsGroup() && node.indexId in ancestors
    requires node.indexId in raw.profiles && raw.profiles[node.indexId] == node
    requires ChildrenOk(raw, node.indexId, ancestors, walk, progress)
    requires Covered(raw, progress.walk.visited + ancestors, node.indexId)
    ensures TraverseOk(raw, node.indexId, ancestors, walk, Finish(node, progress))
  {
    if progress.childIds != [] {
      var outcome := Finish(node, progress);
      StoreEntry(raw, node.indexId, node.WithChildren(progress.childIds), ancestors, progress.walk);
      FinishBelow(raw, node.indexId, ancestors, walk, progress, outcome.walk);
    }
  }

  /** After storing the entry of `id`, everything below its children is below `id`. */
  lemma FinishBelow(raw: Raw, id: Id, ancestors: set<Id>, walk: Walk, progress: Progress, after: Walk)
    requires ChildrenOk(raw, id, ancestors, walk, progress)
    requires Extends(raw.root, progress.walk, after)
    requires after.visited == progress.walk.visited
    requires id in after.proxies && after.proxies[id].protocol.ChildIds() == progress.childIds
    ensures NewBelow(walk, after, [id])
  {
    forall v | v in after.visited && v !in walk.visited ensures Below(after.proxies, [id], v) {
      assert Below(progress.walk.proxies, progress.childIds, v);
      var c :| c in progress.childIds && Reaches(ChildGraph(progress.walk.proxies), c, v);
      ReachesFrame(raw, ancestors, progress.walk, after, c, v);
      ReachesStep(ChildGraph(after.proxies), id, c);
      ReachesTransitive(ChildGraph(after.proxies), id, c, v);
    }
  }

  lemma {:induction false} VisitChildrenEstablishes(env: Env, raw: Raw, node: Profile, kids: seq<Profile>,
                                                    ancestors: set<Id>, start: Walk, progress: Progress)
    requires Expandable(env, raw, node, ancestors)
    requires forall kid :: kid in kids ==> kid in env.profiles && kid in env.ChildProfiles(node.protocol)
    requires ChildrenOk(raw, node.indexId, ancestors, start, progress)
    ensures var after := VisitChildren(env, node, kids, ancestors, progress);
            && ChildStep(raw, node.indexId, ancestors, start, progress, after)
            && forall kid :: kid in kids ==> KidSeparated(raw, ancestors, after, kid)
    decreases IdsOf(env.profiles) - ancestors, 1, |kids|
  {
    if kids != [] {
      var next := VisitChild(env, node, kids[0], ancestors, progress);
      VisitChildEstablishes(env, raw, node, kids[0], ancestors, start, progress);
      VisitChildrenEstablishes(env, raw, node, kids[1..], ancestors, start, next);
      var after := VisitChildren(env, node, kids, ancestors, progress);
      SeparatesMonotone(raw.graph, next.walk.visited + ancestors, after.walk.visited + ancestors, kids[0].indexId, raw.leaves);
    }
  }

  lemma {:induction false} VisitChildEstablishes(env: Env, raw: Raw, node: Profile, kid: Profile, ancestors: set<Id>,
                                                 start: Walk, progress: Progress)
    requires Expandable(env, raw, node, ancestors)
    requires kid in env.profiles && kid in env.ChildProfiles(node.protocol)
    requires ChildrenOk(raw, node.indexId, ancestors, start, progress)
    ensures var after := VisitChild(env, node, kid, ancestors, progress);
            && ChildStep(raw, node.indexId, ancestors, start, progress, after)
            && KidSeparated(raw, ancestors, after, kid)
    decreases IdsOf(env.profiles) - ancestors, 0, 0
  {
    var id := kid.indexId;
    KidFacts(env, raw, node, kid);
    if id in ancestors || id in progress.walk.visited {
      SelfSeparates(raw.graph, progress.walk.visited + ancestors, id, raw.leaves);
    } else if !kid.IsGroup() {
      LeafChildOk(env, raw, node, kid, ancestors, start, progress);
    } else {
      var below := ancestors + {id};
      EnterGroup(raw, ancestors, progress.walk, id);
      TraverseEstablishes(env, raw, kid, below, progress.walk);
      GroupChildOk(env, raw, node, kid, ancestors, start, progress);
    }
  }

  lemma EnterGroup(raw: Raw, ancestors: set<Id>, walk: Walk, id: Id)
    requires Resolved(raw, ancestors, walk) && id !in walk.visited
    ensures Resolved(raw, ancestors + {id}, walk)
  {
    forall d | d in walk.visited - {raw.root} ensures Covered(raw, walk.visited + (ancestors + {id}), d) {
      CoveredMonotone(raw, walk.visited + ancestors, walk.visited + (ancestors + {id}), d);
    }
  }

  lemma GroupChildOk(env: Env, raw: Raw, node: Profile, kid: Profile, ancestors: set<Id>, start: Walk,
                     progress: Progress)
    requires Expandable(env, raw, node, ancestors)
    requires kid in env.profiles && kid in env.ChildProfiles(node.protocol) && kid.IsGroup()
    requires kid.indexId !in ancestors && kid.indexId !in progress.walk.visited
    requires ChildrenOk(raw, node.indexId, ancestors, start, progress)
    requires var below := ancestors + {kid.indexId};
             TraverseOk(raw, kid.indexId, below, progress.walk, Traverse(env, kid, below, progress.walk))
    ensures var after := VisitChild(env, node, kid, ancestors, progress);
            && ChildStep(raw, node.indexId, ancestors, start, progress, after)
            && KidSeparated(raw, ancestors, after, kid)
  {
    var id := kid.indexId;
    var below := ancestors + {id};
    var inner := Traverse(env, kid, below, progress.walk);
    var after := VisitChild(env, node, kid, ancestors, progress);
    KidFacts(env, raw, node, kid);
    if inner.result.Success() {
      MarkVisited(raw, ancestors, inner.walk, id, below);
      ReachesSelf(ChildGraph(after.walk.proxies), id);
      assert NewBelow(progress.walk, after.walk, [id]) by {
        forall v | v in after.walk.visited && v !in progress.walk.visited
          ensures Below(after.walk.proxies, [id], v)
        {
          assert v != id ==> Below(inner.walk.proxies, [id], v);
        }
      }
      NewBelowExtend(raw, node.indexId, ancestors, start, progress, after.walk, id);
      SelfSeparates(raw.graph, after.walk.visited + ancestors, id, raw.leaves);
    } else {
      var cut := progress.walk.visited + ancestors;
      assert progress.walk.visited + below == cut + {id};
      SeparatesStep(raw.graph, cut, id, raw.leaves);
    }
  }

  // ------------------------------------------------------------------ what is written

  /** Entries outside `written` are as they were. */
  ghost predicate OnlyWrites(before: Proxies, after: Proxies, written: set<Id>) {
    forall id :: id !in written ==>
      (id in after <==> id in before) && (id in before ==> after[id] == before[id])
  }

  ghost predicate ProgressWrites(start: Walk, progress: Progress) {
    && start.visited <= progress.walk.visited
    && OnlyWrites(start.proxies, progress.walk.proxies, progress.walk.visited - start.visited)
    && (progress.childIds == [] ==> progress.walk == start)
  }

  /**
   * A failed traversal leaves the visited set and the map alone; a successful one writes
   * only the entries of its node and of what it newly finished.
   */
  lemma {:induction false} TraverseWrites(env: Env, node: Profile, ancestors: set<Id>, walk: Walk)
    ensures var o := Traverse(env, node, ancestors, walk);
            && walk.visited <= o.walk.visited
            && (!o.result.Success() ==> o.walk == walk)
            && OnlyWrites(walk.proxies, o.walk.proxies, o.walk.visited - walk.visited + {node.indexId})
    decreases IdsOf(env.profiles) - ancestors, 2, 0
  {
    VisitChildrenWrites(env, node, env.ChildProfiles(node.protocol), ancestors, walk, Progress(walk, [], EMPTY_RESULT));
  }

  lemma {:induction false} VisitChildrenWrites(env: Env, node: Profile, kids: seq<Profile>, ancestors: set<Id>,
                                               start: Walk, progress: Progress)
    requires forall kid :: kid in kids ==> kid in env.profiles
    requires ProgressWrites(start, progress)
    ensures ProgressWrites(start, VisitChildren(env, node, kids, ancestors, progress))
    decreases IdsOf(env.profiles) - ancestors, 1, |kids|
  {
    if kids != [] {
      VisitChildWrites(env, node, kids[0], ancestors, start, progress);
      VisitChildrenWrites(env, node, kids[1..], ancestors, start, VisitChild(env, node, kids[0], ancestors, progress));
    }
  }

  lemma {:induction false} VisitChildWrites(env: Env, node: Profile, kid: Profile, ancestors: set<Id>, start: Walk,
                                            progress: Progress)
    requires kid in env.profiles
    requires ProgressWrites(start, progress)
    ensures ProgressWrites(start, VisitChild(env, node, kid, ancestors, progress))
    decreases IdsOf(env.profiles) - ancestors, 0, 0
  {
    if kid.indexId !in ancestors && kid.indexId !in progress.walk.visited && kid.IsGroup() {
      TraverseWrites(env, kid, ancestors + {kid.indexId}, progress.walk);
    }
  }

  // ------------------------------------------------------------------- main theorems

  /** `t` is a server listed, directly or through groups, by the registered entry of `id`. */
  ghost predicate ServerBelow(proxies: Proxies, id: Id, t: Id) {
    Reaches(ChildGraph(proxies), id, t) && t in proxies && !proxies[t].IsGroup()
  }

  /** `t` is an accepted server that `id` leads to in the user's own arrangement. */
  ghost predicate RawServerBelow(raw: Raw, id: Id, t: Id) {
    t in raw.leaves && Reaches(raw.graph, id, t)
  }

  lemma RegisterGroupEstablishes(env: Env, root: Profile, proxies: Proxies)
    requires UniqueIds(env.profiles) && root.IsGroup()
    ensures TraverseOk(RawOf(env, root), root.indexId, {root.indexId}, Walk({root.indexId}, proxies), RegisterGroup(env, root, proxies))
    ensures Describes(RawOf(env, root), env)
  {
    var raw := RawOf(env, root);
    RawOfDescribes(env, root);
    TraverseEstablishes(env, raw, root, {root.indexId}, Walk({root.indexId}, proxies));
  }

  /** In the arrangement as resolved from a root, edges only lead from visited ids to finished ones. */
  lemma ResolvedEdge(raw: Raw, walk: Walk, a: Id, b: Id)
    requires Resolved(raw, {raw.root}, walk)
    requires EntryOk(raw, walk.proxies, walk.visited - {raw.root}, raw.root)
    requires a in walk.visited && Edge(ChildGraph(walk.proxies), a, b)
    ensures b in walk.visited && b != raw.root && Edge(raw.graph, a, b)
  {
    assert EntryOk(raw, walk.proxies, walk.visited - {raw.root}, a);
  }

  /** A resolved path is a path of the user's arrangement. */
  lemma ResolvedPathIsRaw(raw: Raw, walk: Walk, t: Id)
    requires Resolved(raw, {raw.root}, walk)
    requires EntryOk(raw, walk.proxies, walk.visited - {raw.root}, raw.root)
    requires Reaches(ChildGraph(walk.proxies), raw.root, t)
    ensures Reaches(raw.graph, raw.root, t) && t in walk.visited
  {
    var g := ChildGraph(walk.proxies);
    var p :| IsPathBetween(g, p, raw.root, t);
    forall x, y | x in walk.visited && Edge(g, x, y) ensures y in walk.visited {
      ResolvedEdge(raw, walk, x, y);
    }
    PathStaysInside(g, p, walk.visited, 0);
    forall i {:trigger p[i]} | 0 <= i < |p| - 1 ensures Edge(raw.graph, p[i], p[i + 1]) {
      assert Edge(g, p[i], p[i + 1]);
      ResolvedEdge(raw, walk, p[i], p[i + 1]);
    }
    assert IsPathBetween(raw.graph, p, raw.root, t);
  }

  lemma PathMeetsAgain(raw: Raw, known: set<Id>, p: seq<Id>, k: nat)
    requires IsPath(raw.graph, p) && k < |p| - 1 && p[|p| - 1] in raw.leaves
    requires Covered(raw, known, p[k])
    ensures Meets(p[k + 1..], known)
  {
    var b, q := p[k + 1], p[k + 1..];
    PathSuffix(raw.graph, p, k + 1);
    assert Edge(raw.graph, p[k], b);
    assert q[0] == b && q[|q| - 1] == p[|p| - 1];
    assert Separates(raw.graph, known, b, raw.leaves);
  }

  /** The walk has visited every server the root leads to. */
  lemma ServersAreVisited(raw: Raw, walk: Walk, t: Id)
    requires raw.root in walk.visited
    requires forall d :: d in walk.visited ==> Covered(raw, walk.visited, d)
    requires RawServerBelow(raw, raw.root, t)
    ensures t in walk.visited
  {
    var p :| IsPathBetween(raw.graph, p, raw.root, t);
    assert Meets(p, walk.visited) by { assert p[0] in walk.visited; }
    var k := LastMember(p, walk.visited);
    if k < |p| - 1 {
      PathMeetsAgain(raw, walk.visited, p, k);
    }
  }

  /** When every child is separated by the root alone, the root leads to no server. */
  lemma NothingBelow(raw: Raw)
    requires Covered(raw, {raw.root}, raw.root) && raw.root !in raw.leaves
    ensures forall t :: !RawServerBelow(raw, raw.root, t)
  {
    SeparatesStep(raw.graph, {}, raw.root, raw.leaves);
    assert forall p :: IsPath(raw.graph, p) && p[0] == raw.root ==> p[|p| - 1] !in raw.leaves;
  }

  /** A finished traversal from the root, with the facts the theorems below need. */
  ghost predicate Finished(raw: Raw, proxies: Proxies, walk: Walk) {
    && Resolved(raw, {raw.root}, walk)
    && EntryOk(raw, walk.proxies, walk.visited - {raw.root}, raw.root)
    && (forall d :: d in walk.visited ==> Covered(raw, walk.visited, d))
    && NewBelow(Walk({raw.root}, proxies), walk, [raw.root])
    && raw.profiles[raw.root].IsGroup()
    && forall id :: id in raw.leaves ==> id in raw.profiles && !raw.profiles[id].IsGroup()
  }

  lemma ResolvedIffRaw(raw: Raw, proxies: Proxies, walk: Walk, t: Id)
    requires Finished(raw, proxies, walk)
    ensures ServerBelow(walk.proxies, raw.root, t) <==> RawServerBelow(raw, raw.root, t)
  {
    var done := walk.visited - {raw.root};
    if ServerBelow(walk.proxies, raw.root, t) {
      ResolvedPathIsRaw(raw, walk, t);
      assert EntryOk(raw, walk.proxies, done, t);
    }
    if RawServerBelow(raw, raw.root, t) {
      ServersAreVisited(raw, walk, t);
      assert EntryOk(raw, walk.proxies, done, t);
      assert Below(walk.proxies, [raw.root], t);
    }
  }

  lemma SomeServer(raw: Raw, proxies: Proxies, walk: Walk)
    requires Finished(raw, proxies, walk)
    ensures exists t :: RawServerBelow(raw, raw.root, t)
  {
    var done := walk.visited - {raw.root};
    assert walk.proxies[raw.root].protocol.ChildIds()[0] in done;
    var t :| t in done * raw.leaves;
    assert Below(walk.proxies, [raw.root], t);
    ResolvedPathIsRaw(raw, walk, t);
    assert RawServerBelow(raw, raw.root, t);
  }

  lemma OutcomeServers(env: Env, raw: Raw, proxies: Proxies, o: Outcome)
    requires Describes(raw, env)
    requires TraverseOk(raw, raw.root, {raw.root}, Walk({raw.root}, proxies), o)
    ensures o.result.Success() <==> exists t :: RawServerBelow(raw, raw.root, t)
    ensures !o.result.Success() ==> o.walk.proxies == proxies
    ensures o.result.Success() ==>
              forall t :: ServerBelow(o.walk.proxies, raw.root, t) <==> RawServerBelow(raw, raw.root, t)
  {
    assert ProfileDescribed(raw, env, raw.root);
    forall id | id in raw.leaves ensures !raw.profiles[id].IsGroup() {
      assert ProfileDescribed(raw, env, id);
    }
    if o.result.Success() {
      assert o.walk.visited + {raw.root} == o.walk.visited;
      assert Finished(raw, proxies, o.walk);
      forall t { ResolvedIffRaw(raw, proxies, o.walk, t); }
      SomeServer(raw, proxies, o.walk);
    } else {
      assert {raw.root} + {raw.root} == {raw.root};
      NothingBelow(raw);
    }
  }

  /**
   * Resolving a group preserves meaning: registration succeeds exactly when the group
   * leads to some accepted server, and then the resolved graph below the root holds
   * exactly the accepted servers of the original, possibly cyclic, arrangement. A failed
   * registration changes nothing.
   */
  lemma ResolutionPreservesServers(env: Env, root: Profile, proxies: Proxies)
    requires UniqueIds(env.profiles) && root.IsGroup()
    ensures var raw := RawOf(env, root);
            var o := RegisterGroup(env, root, proxies);
            && (o.result.Success() <==> exists t :: RawServerBelow(raw, root.indexId, t))
            && (!o.result.Success() ==> o.walk.proxies == proxies)
            && (o.result.Success() ==>
                  forall t :: ServerBelow(o.walk.proxies, root.indexId, t) <==> RawServerBelow(raw, root.indexId, t))
  {
    RegisterGroupEstablishes(env, root, proxies);
    OutcomeServers(env, RawOf(env, root), proxies, RegisterGroup(env, root, proxies));
  }
}
