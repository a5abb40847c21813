/**
 * What a traversal says: every issue is true of some way down from the group, every child
 * that is left out is explained, and errors and warnings are kept apart.
 */
module GroupNotes {
  import opened Digraph
  import opened Profiles
  import opened GroupResolution

  predicate Says(r: NodeResult, issue: Issue) {
    issue in r.errors || issue in r.warnings
  }

  /**
   * An issue about `node`, on the way down from `ancestors`: a child that is one of them, no
   * valid child, or an issue of a child: of a group in the same sense, of a server an error
   * of its own fields.
   */
  ghost predicate IsTrue(env: Env, node: Profile, ancestors: set<Id>, issue: Issue)
    decreases issue, 0
  {
    match issue
    case GroupCycle(group, child) =>
      group == node.remarks
      && exists kid :: kid in env.ChildProfiles(node.protocol) && kid.remarks == child && kid.indexId in ancestors
    case NoValidChild(group) => group == node.remarks
    case InChild(childIsGroup, group, child, inner) =>
      group == node.remarks
      && exists kid :: kid in env.ChildProfiles(node.protocol) && kid.remarks == child && kid.indexId !in ancestors
                       && kid.IsGroup() == childIsGroup && IsTrueOfChild(env, kid, ancestors, inner)
    case _ => false
  }

  ghost predicate IsTrueOfChild(env: Env, kid: Profile, ancestors: set<Id>, issue: Issue)
    decreases issue, 1
  {
    if kid.IsGroup() then IsTrue(env, kid, ancestors + {kid.indexId}, issue)
    else issue.NodeError? && kid.protocol == Server && issue.text in kid.nodeErrors
  }

  ghost predicate AllTrue(env: Env, node: Profile, ancestors: set<Id>, r: NodeResult) {
    forall issue :: Says(r, issue) ==> IsTrue(env, node, ancestors, issue)
  }

  /** Why a child is not listed. */
  predicate Explains(node: Profile, kid: Profile, ancestors: set<Id>, r: NodeResult) {
    if kid.indexId in ancestors then Says(r, GroupCycle(node.remarks, kid.remarks))
    else if kid.IsGroup() then Says(r, InChild(true, node.remarks, kid.remarks, NoValidChild(kid.remarks)))
    else
      && kid.protocol == Server && kid.nodeErrors != []
      && forall text :: text in kid.nodeErrors ==> Says(r, InChild(false, node.remarks, kid.remarks, NodeError(text)))
  }

  ghost predicate AllExplained(node: Profile, kids: seq<Profile>, ancestors: set<Id>, ids: seq<Id>, r: NodeResult) {
    forall kid :: kid in kids ==> kid.indexId in ids || Explains(node, kid, ancestors, r)
  }

  ghost predicate SaysAll(before: NodeResult, after: NodeResult) {
    forall issue :: Says(before, issue) ==> Says(after, issue)
  }

  // -------------------------------------------------------------------------- one child

  lemma PrefixedSays(parent: Profile, kid: Profile, r: NodeResult, inner: NodeResult, issue: Issue)
    ensures Says(r.ExtendPrefixed(parent, kid, inner), issue)
            <==> || Says(r, issue)
                 || (issue.InChild? && issue == InChild(kid.IsGroup(), parent.remarks, kid.remarks, issue.inner)
                     && Says(inner, issue.inner))
  {
    PrefixedIn(parent, kid, inner.errors, issue);
    PrefixedIn(parent, kid, inner.warnings, issue);
  }

  lemma PrefixedIn(parent: Profile, kid: Profile, issues: seq<Issue>, issue: Issue)
    ensures issue in Prefixed(parent, kid, issues)
            <==> issue.InChild? && issue == InChild(kid.IsGroup(), parent.remarks, kid.remarks, issue.inner)
                 && issue.inner in issues
  {
    var all := Prefixed(parent, kid, issues);
    if issue in all {
      var i :| 0 <= i < |all| && all[i] == issue;
      assert all[i] == InChild(kid.IsGroup(), parent.remarks, kid.remarks, issues[i]);
    }
    if issue.InChild? && issue.inner in issues {
      var i :| 0 <= i < |issues| && issues[i] == issue.inner;
      assert all[i] == InChild(kid.IsGroup(), parent.remarks, kid.remarks, issues[i]);
    }
  }

  lemma SingleSays(kid: Profile, issue: Issue)
    requires !kid.IsGroup()
    ensures Says(SingleResult(kid), issue) <==> issue.NodeError? && kid.protocol == Server && issue.text in kid.nodeErrors
  {
    var texts := kid.ValidationErrors();
    var errors := NodeErrors(texts);
    if issue.NodeError? && issue.text in texts {
      var i :| 0 <= i < |texts| && texts[i] == issue.text;
      assert errors[i] == issue;
    }
  }

  lemma ChildTrue(env: Env, node: Profile, kid: Profile, ancestors: set<Id>, r: NodeResult, inner: NodeResult)
    requires kid in env.ChildProfiles(node.protocol) && kid.indexId !in ancestors
    requires AllTrue(env, node, ancestors, r)
    requires forall issue :: Says(inner, issue) ==> IsTrueOfChild(env, kid, ancestors, issue)
    ensures AllTrue(env, node, ancestors, r.ExtendPrefixed(node, kid, inner))
  {
    forall issue | Says(r.ExtendPrefixed(node, kid, inner), issue) ensures IsTrue(env, node, ancestors, issue) {
      PrefixedSays(node, kid, r, inner, issue);
    }
  }

  lemma ChildSays(node: Profile, kid: Profile, r: NodeResult, inner: NodeResult)
    ensures SaysAll(r, r.ExtendPrefixed(node, kid, inner))
  {
    forall issue | Says(r, issue) ensures Says(r.ExtendPrefixed(node, kid, inner), issue) {
      PrefixedSays(node, kid, r, inner, issue);
    }
  }

  lemma RejectedExplained(node: Profile, kid: Profile, ancestors: set<Id>, r: NodeResult)
    requires kid.indexId !in ancestors && !kid.IsGroup() && !SingleResult(kid).Success()
    ensures Explains(node, kid, ancestors, r.ExtendPrefixed(node, kid, SingleResult(kid)))
  {
    var inner := SingleResult(kid);
    forall text | text in kid.nodeErrors
      ensures Says(r.ExtendPrefixed(node, kid, inner), InChild(false, node.remarks, kid.remarks, NodeError(text)))
    {
      SingleSays(kid, NodeError(text));
      PrefixedSays(node, kid, r, inner, InChild(false, node.remarks, kid.remarks, NodeError(text)));
    }
  }

  lemma FailedExplained(node: Profile, kid: Profile, ancestors: set<Id>, r: NodeResult, inner: NodeResult)
    requires kid.indexId !in ancestors && kid.IsGroup() && Says(inner, NoValidChild(kid.remarks))
    ensures Explains(node, kid, ancestors, r.ExtendPrefixed(node, kid, inner))
  {
    PrefixedSays(node, kid, r, inner, InChild(true, node.remarks, kid.remarks, NoValidChild(kid.remarks)));
  }

  // ---------------------------------------------------------------------------- the walk

  /** What the loop has said so far is true, and warns of nothing before some child is listed. */
  ghost predicate NotesOk(env: Env, node: Profile, ancestors: set<Id>, progress: Progress) {
    AllTrue(env, node, ancestors, progress.result) && (progress.childIds == [] ==> progress.result.warnings == [])
  }

  /** A traversal that fails has errors alone, one that succeeds warnings alone, and all of them are true. */
  ghost predicate TraverseNotes(env: Env, node: Profile, ancestors: set<Id>, r: NodeResult) {
    && AllTrue(env, node, ancestors, r)
    && (if r.Success() then r.errors == [] else r.warnings == [] && r.errors[|r.errors| - 1] == NoValidChild(node.remarks))
  }

  lemma {:induction false} TraverseIsTrue(env: Env, node: Profile, ancestors: set<Id>, walk: Walk)
    ensures TraverseNotes(env, node, ancestors, Traverse(env, node, ancestors, walk).result)
    decreases IdsOf(env.profiles) - ancestors, 2, 0
  {
    var kids, start := env.ChildProfiles(node.protocol), Progress(walk, [], EMPTY_RESULT);
    VisitChildrenAreTrue(env, node, kids, ancestors, start);
    FinishNotes(env, node, ancestors, VisitChildren(env, node, kids, ancestors, start));
  }

  lemma FinishNotes(env: Env, node: Profile, ancestors: set<Id>, progress: Progress)
    requires NotesOk(env, node, ancestors, progress)
    ensures TraverseNotes(env, node, ancestors, Finish(node, progress).result)
    ensures SaysAll(progress.result, Finish(node, progress).result)
  {
  }

  lemma {:induction false} VisitChildrenAreTrue(env: Env, node: Profile, kids: seq<Profile>, ancestors: set<Id>,
                                                progress: Progress)
    requires forall kid :: kid in kids ==> kid in env.profiles && kid in env.ChildProfiles(node.protocol)
    requires NotesOk(env, node, ancestors, progress)
    ensures NotesOk(env, node, ancestors, VisitChildren(env, node, kids, ancestors, progress))
    ensures var after := VisitChildren(env, node, kids, ancestors, progress);
            && SaysAll(progress.result, after.result)
            && (forall id :: id in progress.childIds ==> id in after.childIds)
            && AllExplained(node, kids, ancestors, after.childIds, after.result)
    decreases IdsOf(env.profiles) - ancestors, 1, |kids|
  {
    if kids != [] {
      var next := VisitChild(env, node, kids[0], ancestors, progress);
      VisitChildIsTrue(env, node, kids[0], ancestors, progress);
      VisitChildrenAreTrue(env, node, kids[1..], ancestors, next);
      StaysExplained(node, kids[0], ancestors, next, VisitChildren(env, node, kids[1..], ancestors, next));
    }
  }

  lemma StaysExplained(node: Profile, kid: Profile, ancestors: set<Id>, next: Progress, after: Progress)
    requires SaysAll(next.result, after.result) && forall id :: id in next.childIds ==> id in after.childIds
    requires kid.indexId in next.childIds || Explains(node, kid, ancestors, next.result)
    ensures kid.indexId in after.childIds || Explains(node, kid, ancestors, after.result)
  {
  }

  lemma {:induction false} VisitChildIsTrue(env: Env, node: Profile, kid: Profile, ancestors: set<Id>, progress: Progress)
    requires kid in env.profiles && kid in env.ChildProfiles(node.protocol)
    requires NotesOk(env, node, ancestors, progress)
    ensures var after := VisitChild(env, node, kid, ancestors, progress);
            && NotesOk(env, node, ancestors, after)
            && SaysAll(progress.result, after.result)
            && (forall id :: id in progress.childIds ==> id in after.childIds)
            && (kid.indexId in after.childIds || Explains(node, kid, ancestors, after.result))
    decreases IdsOf(env.profiles) - ancestors, 0, 0
  {
    var id, r := kid.indexId, progress.result;
    if id in ancestors {
      assert Says(r.PushError(GroupCycle(node.remarks, kid.remarks)), GroupCycle(node.remarks, kid.remarks));
    } else if id !in progress.walk.visited {
      if kid.IsGroup() {
        var inner := Traverse(env, kid, ancestors + {id}, progress.walk).result;
        TraverseIsTrue(env, kid, ancestors + {id}, progress.walk);
        GroupKidNotes(env, node, kid, ancestors, r, inner);
      } else {
        ServerKidNotes(env, node, kid, ancestors, r);
      }
    }
  }

  lemma GroupKidNotes(env: Env, node: Profile, kid: Profile, ancestors: set<Id>, r: NodeResult, inner: NodeResult)
    requires kid in env.ChildProfiles(node.protocol) && kid.indexId !in ancestors && kid.IsGroup()
    requires AllTrue(env, node, ancestors, r) && TraverseNotes(env, kid, ancestors + {kid.indexId}, inner)
    ensures var after := r.ExtendPrefixed(node, kid, inner);
            && AllTrue(env, node, ancestors, after)
            && SaysAll(r, after)
            && (!inner.Success() ==> Explains(node, kid, ancestors, after) && after.warnings == r.warnings)
  {
    ChildTrue(env, node, kid, ancestors, r, inner);
    ChildSays(node, kid, r, inner);
    if !inner.Success() {
      FailedExplained(node, kid, ancestors, r, inner);
    }
  }

  lemma ServerKidNotes(env: Env, node: Profile, kid: Profile, ancestors: set<Id>, r: NodeResult)
    requires kid in env.ChildProfiles(node.protocol) && kid.indexId !in ancestors && !kid.IsGroup()
    requires AllTrue(env, node, ancestors, r)
    ensures var inner := SingleResult(kid); var after := r.ExtendPrefixed(node, kid, inner);
            && AllTrue(env, node, ancestors, after)
            && SaysAll(r, after)
            && after.warnings == r.warnings
            && (!inner.Success() ==> Explains(node, kid, ancestors, after))
  {
    var inner := SingleResult(kid);
    forall issue | Says(inner, issue) ensures IsTrueOfChild(env, kid, ancestors, issue) {
      SingleSays(kid, issue);
    }
    ChildTrue(env, node, kid, ancestors, r, inner);
    ChildSays(node, kid, r, inner);
    if !inner.Success() {
      RejectedExplained(node, kid, ancestors, r);
    }
  }

  /**
   * Every child that a registered group does not list, at any depth, is explained: it is an
   * ancestor, a server with errors, each of which is reported, or a group without a valid
   * child. A group that fails explains all of its children.
   */
  lemma DroppedIsExplained(env: Env, node: Profile, ancestors: set<Id>, walk: Walk)
    ensures var o := Traverse(env, node, ancestors, walk);
            && (o.result.Success() ==> node.indexId in o.walk.proxies)
            && AllExplained(node, env.ChildProfiles(node.protocol), ancestors,
                            if o.result.Success() then o.walk.proxies[node.indexId].protocol.ChildIds() else [], o.result)
  {
    var kids, start := env.ChildProfiles(node.protocol), Progress(walk, [], EMPTY_RESULT);
    var progress := VisitChildren(env, node, kids, ancestors, start);
    VisitChildrenAreTrue(env, node, kids, ancestors, start);
    FinishNotes(env, node, ancestors, progress);
    FinishExplains(node, kids, ancestors, progress);
  }

  lemma FinishExplains(node: Profile, kids: seq<Profile>, ancestors: set<Id>, progress: Progress)
    requires AllExplained(node, kids, ancestors, progress.childIds, progress.result)
    requires SaysAll(progress.result, Finish(node, progress).result)
    ensures AllExplained(node, kids, ancestors, progress.childIds, Finish(node, progress).result)
    ensures Finish(node, progress).result.Success() <==> progress.childIds != []
  {
  }
}
