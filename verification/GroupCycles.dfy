/** The cut branch of group resolution is taken exactly when a cycle lies below the root. */
module GroupCycles {
  import opened Digraph
  import opened Profiles
  import opened GroupResolution

  ghost predicate Lineage(raw: Raw, ancestors: set<Id>, id: Id) {
    raw.root in ancestors && forall a :: a in ancestors ==> Reaches(raw.graph, a, id)
  }

  ghost predicate Clean(raw: Raw, walk: Walk) {
    forall d :: d in walk.visited && d != raw.root ==> !ReachesCycle(raw.graph, d)
  }

  /** A cut below `id` witnesses a cycle; no cut shows that there is none. */
  ghost predicate CutExact(raw: Raw, id: Id, before: Walk, after: Walk, cut: bool) {
    && (cut ==> ReachesCycle(raw.graph, id))
    && (!cut && Clean(raw, before) ==> Clean(raw, after) && !ReachesCycle(raw.graph, id))
  }

  /** The same for a stretch of the loop over the children of `id`. */
  ghost predicate LoopExact(raw: Raw, id: Id, kids: seq<Profile>, before: Progress, after: Progress) {
    && (after.result.MentionsCycle() ==> before.result.MentionsCycle() || ReachesCycle(raw.graph, id))
    && (before.result.MentionsCycle() ==> after.result.MentionsCycle())
    && (!after.result.MentionsCycle() && Clean(raw, before.walk) ==>
          && Clean(raw, after.walk)
          && forall kid :: kid in kids ==> !ReachesCycle(raw.graph, kid.indexId))
  }

  lemma MentionsPushError(result: NodeResult, issue: Issue)
    ensures result.PushError(issue).MentionsCycle() <==> result.MentionsCycle() || issue.MentionsCycle()
  {
    var after := result.PushError(issue);
    assert issue in after.errors + after.warnings;
    forall i | i in result.errors + result.warnings ensures i in after.errors + after.warnings {
    }
  }

  lemma MentionsExtend(result: NodeResult, parent: Profile, child: Profile, inner: NodeResult)
    ensures result.ExtendPrefixed(parent, child, inner).MentionsCycle()
            <==> result.MentionsCycle() || inner.MentionsCycle()
  {
    var after := result.ExtendPrefixed(parent, child, inner);
    var e, w := Prefixed(parent, child, inner.errors), Prefixed(parent, child, inner.warnings);
    forall i | i in result.errors + result.warnings ensures i in after.errors + after.warnings {
    }
    if inner.MentionsCycle() {
      var issue :| issue in inner.errors + inner.warnings && issue.MentionsCycle();
      if issue in inner.errors {
        var k :| 0 <= k < |inner.errors| && inner.errors[k] == issue;
        assert e[k] in after.errors + after.warnings && e[k].MentionsCycle();
      } else {
        var k :| 0 <= k < |inner.warnings| && inner.warnings[k] == issue;
        assert w[k] in after.errors + after.warnings && w[k].MentionsCycle();
      }
    }
    if after.MentionsCycle() && !result.MentionsCycle() {
      var issue :| issue in after.errors + after.warnings && issue.MentionsCycle();
      assert issue in e + w;
      if issue in e {
        var k :| 0 <= k < |e| && e[k] == issue;
        assert inner.errors[k] in inner.errors + inner.warnings;
      } else {
        var k :| 0 <= k < |w| && w[k] == issue;
        assert inner.warnings[k] in inner.errors + inner.warnings;
      }
    }
  }

  lemma {:induction false} TraverseCuts(env: Env, raw: Raw, node: Profile, ancestors: set<Id>, walk: Walk)
    requires Expandable(env, raw, node, ancestors) && Lineage(raw, ancestors, node.indexId)
    ensures var o := Traverse(env, node, ancestors, walk);
            CutExact(raw, node.indexId, walk, o.walk, o.result.MentionsCycle())
    decreases IdsOf(env.profiles) - ancestors, 2, 0
  {
    var kids := env.ChildProfiles(node.protocol);
    var start := Progress(walk, [], EMPTY_RESULT);
    VisitChildrenCuts(env, raw, node, kids, ancestors, start);
    var progress := VisitChildren(env, node, kids, ancestors, start);
    var o := Finish(node, progress);
    MentionsPushError(progress.result, NoValidChild(node.remarks));
    forall i ensures i in progress.result.errors + progress.result.warnings
                     <==> i in progress.result.warnings + progress.result.errors {
    }
    assert o.result.MentionsCycle() <==> progress.result.MentionsCycle();
    assert ProfileDescribed(raw, env, node.indexId);
    if !o.result.MentionsCycle() && Clean(raw, walk) && ReachesCycle(raw.graph, node.indexId) {
      var b := ReachesCycleSplit(raw.graph, node.indexId);
    }
  }

  lemma {:induction false} VisitChildrenCuts(env: Env, raw: Raw, node: Profile, kids: seq<Profile>,
                                             ancestors: set<Id>, progress: Progress)
    requires Expandable(env, raw, node, ancestors) && Lineage(raw, ancestors, node.indexId)
    requires forall kid :: kid in kids ==> kid in env.profiles && kid in env.ChildProfiles(node.protocol)
    ensures LoopExact(raw, node.indexId, kids, progress, VisitChildren(env, node, kids, ancestors, progress))
    decreases IdsOf(env.profiles) - ancestors, 1, |kids|
  {
    if kids != [] {
      VisitChildCuts(env, raw, node, kids[0], ancestors, progress);
      VisitChildrenCuts(env, raw, node, kids[1..], ancestors, VisitChild(env, node, kids[0], ancestors, progress));
    }
  }

  lemma {:induction false} VisitChildCuts(env: Env, raw: Raw, node: Profile, kid: Profile, ancestors: set<Id>,
                                          progress: Progress)
    requires Expandable(env, raw, node, ancestors) && Lineage(raw, ancestors, node.indexId)
    requires kid in env.profiles && kid in env.ChildProfiles(node.protocol)
    ensures LoopExact(raw, node.indexId, [kid], progress, VisitChild(env, node, kid, ancestors, progress))
    decreases IdsOf(env.profiles) - ancestors, 0, 0
  {
    var id := kid.indexId;
    var after := VisitChild(env, node, kid, ancestors, progress);
    KidFacts(env, raw, node, kid);
    if id in ancestors {
      CycleIsReached(raw.graph, node.indexId, id);
      MentionsPushError(progress.result, GroupCycle(node.remarks, kid.remarks));
    } else if id !in progress.walk.visited {
      if kid.IsGroup() {
        var below := ancestors + {id};
        LineageGrows(raw, ancestors, node.indexId, id);
        TraverseCuts(env, raw, kid, below, progress.walk);
        var inner := Traverse(env, kid, below, progress.walk);
        MentionsExtend(progress.result, node, kid, inner.result);
        if ReachesCycle(raw.graph, id) {
          ReachesCycleStep(raw.graph, node.indexId, id);
        }
      } else {
        MentionsExtend(progress.result, node, kid, SingleResult(kid));
        SinkReachesNoCycle(raw.graph, id);
      }
    }
  }

  lemma LineageGrows(raw: Raw, ancestors: set<Id>, id: Id, kid: Id)
    requires Lineage(raw, ancestors, id) && Edge(raw.graph, id, kid)
    ensures Lineage(raw, ancestors + {kid}, kid)
  {
    ReachesSelf(raw.graph, kid);
    ReachesStep(raw.graph, id, kid);
    forall a | a in ancestors ensures Reaches(raw.graph, a, kid) {
      ReachesTransitive(raw.graph, a, id, kid);
    }
  }

  /** Registration of a group reports a cut edge if and only if a cycle lies below the group. */
  lemma CutIffCycle(env: Env, root: Profile, proxies: Proxies)
    requires UniqueIds(env.profiles) && root.IsGroup()
    ensures RegisterGroup(env, root, proxies).result.MentionsCycle()
            <==> ReachesCycle(RawOf(env, root).graph, root.indexId)
  {
    RawOfDescribes(env, root);
    CutIffCycleFrom(env, RawOf(env, root), root, proxies);
  }

  lemma CutIffCycleFrom(env: Env, raw: Raw, root: Profile, proxies: Proxies)
    requires Describes(raw, env) && root.IsGroup()
    requires raw.root == root.indexId && raw.profiles[raw.root] == root
    ensures RegisterGroup(env, root, proxies).result.MentionsCycle() <==> ReachesCycle(raw.graph, root.indexId)
  {
    ReachesSelf(raw.graph, root.indexId);
    TraverseCuts(env, raw, root, {root.indexId}, Walk({root.indexId}, proxies));
  }
}
