/**
 * What the check of a group draft says: when it accepts, what each error and each warning
 * means, and the order of the children that it returns.
 */
module DraftVerdict {
  import opened Digraph
  import opened Profiles
  import opened GroupValidation
  import opened DraftIndexOrder
  import opened DraftWarnings
  import opened DraftOrder

  // --------------------------------------------------------------------------- acceptance

  ghost predicate HasChild(draft: Profile, index: Index, passes: Passes) {
    exists id :: IsChild(draft, index, passes, id)
  }

  predicate AllStored(draft: Profile, index: Index) {
    forall id :: id in draft.protocol.ChildIds() ==> id in index.profiles
  }

  lemma ChildReportErrors(draft: Profile, index: Index, passes: Passes)
    requires index.Valid() && draft.IsGroup()
    ensures var found := EffectiveChildIds(draft, index, passes, Report([], []), true);
            forall e :: e in ChildReport(draft, found).errors
              <==> || IsMissing(index, draft.protocol.ChildIds(), e)
                   || (e == NoValidChildren(if draft.protocol.ProxyChain? then "proxy chain" else "policy group")
                       && !HasChild(draft, index, passes))
  {
    var found := EffectiveChildIds(draft, index, passes, Report([], []), true);
    EffectiveChildrenExact(draft, index, passes, Report([], []), true);
    if found.ids != [] {
      assert found.ids[0] in found.ids;
      EffectiveIsChild(draft, index, passes, found.ids[0]);
    }
    forall id | IsChild(draft, index, passes, id) ensures id in found.ids {
      EffectiveIsChild(draft, index, passes, id);
    }
  }

  lemma AppendedErrors(g: Graph, root: Id, before: Report, after: Report, e: GroupError)
    requires Appends(g, root, before, after)
    ensures e in after.errors ==> e in before.errors || GenuineCycle(g, root, e)
    ensures e in before.errors ==> e in after.errors
  {
    if e in after.errors {
      var i :| 0 <= i < |after.errors| && after.errors[i] == e;
      if i < |before.errors| {
        assert after.errors[..|before.errors|][i] == e;
      }
    }
    if e in before.errors {
      var i :| 0 <= i < |before.errors| && before.errors[i] == e;
      assert after.errors[..|before.errors|][i] == e;
    }
  }

  /**
   * The errors of the check: a draft that is no group, each listed id that is not stored,
   * a group without any effective child, and cycles that the draft leads to, at least one
   * of them if there is one.
   */
  lemma ErrorsExact(g: Graph, draft: Profile, profiles: seq<Profile>, passes: Passes, e: GroupError)
    requires Depicts(g, DraftIndex(draft, profiles), passes)
    ensures var index, errors := DraftIndex(draft, profiles), Validate(draft, profiles, passes).report.errors;
            if !draft.IsGroup() then errors == [NotAGroup]
            else
              match e
              case NotAGroup => e !in errors
              case ChildNotFound(id) => e in errors <==> id in draft.protocol.ChildIds() && id !in index.profiles
              case NoValidChildren(kind) =>
                e in errors <==> !HasChild(draft, index, passes)
                                 && kind == if draft.protocol.ProxyChain? then "proxy chain" else "policy group"
              case CycleFound(path) =>
                e in errors ==> IsCycle(g, path) && Reaches(g, EffectiveProfileId(draft), path[0])
  {
    if draft.IsGroup() {
      var index, root := DraftIndex(draft, profiles), EffectiveProfileId(draft);
      var before := ChildReport(draft, EffectiveChildIds(draft, index, passes, Report([], []), true));
      ChildReportErrors(draft, index, passes);
      DetectExact(g, index, passes, root, before);
      AppendedErrors(g, root, before, Detect(index, passes, root, [], before), e);
    }
  }

  /** What makes a draft acceptable. */
  ghost predicate IsSound(g: Graph, draft: Profile, profiles: seq<Profile>, passes: Passes) {
    var index := DraftIndex(draft, profiles);
    && draft.IsGroup()
    && HasChild(draft, index, passes)
    && AllStored(draft, index)
    && !ReachesCycle(g, EffectiveProfileId(draft))
  }

  /**
   * The check accepts exactly the groups with an effective child, whose listed children are
   * all stored, and that lead to no cycle.
   */
  lemma AcceptsExactly(g: Graph, draft: Profile, profiles: seq<Profile>, passes: Passes)
    requires Depicts(g, DraftIndex(draft, profiles), passes)
    ensures Accepts(draft, profiles, passes) <==> IsSound(g, draft, profiles, passes)
  {
    if draft.IsGroup() {
      var index, root := DraftIndex(draft, profiles), EffectiveProfileId(draft);
      var errors := Validate(draft, profiles, passes).report.errors;
      var kind := if draft.protocol.ProxyChain? then "proxy chain" else "policy group";
      ErrorsExact(g, draft, profiles, passes, NoValidChildren(kind));
      forall id ensures ChildNotFound(id) in errors <==> id in draft.protocol.ChildIds() && id !in index.profiles {
        ErrorsExact(g, draft, profiles, passes, ChildNotFound(id));
      }
      ValidateReportsCycles(g, draft, profiles, passes);
      if errors != [] {
        ErrorsExact(g, draft, profiles, passes, errors[0]);
        assert errors[0] in errors;
      }
    }
  }

  // --------------------------------------------------------------------------- warnings

  ghost predicate HasOneChild(draft: Profile, index: Index, passes: Passes) {
    exists id :: IsOnlyChild(draft, index, passes, id)
  }

  ghost predicate IsOnlyChild(draft: Profile, index: Index, passes: Passes, id: Id) {
    IsChild(draft, index, passes, id) && forall c :: IsChild(draft, index, passes, c) ==> c == id
  }

  lemma OneChildExactly(draft: Profile, index: Index, passes: Passes, ids: seq<Id>)
    requires NoneTwice(ids) && forall id :: id in ids <==> IsChild(draft, index, passes, id)
    ensures |ids| == 1 <==> HasOneChild(draft, index, passes)
  {
    if |ids| == 1 {
      assert IsOnlyChild(draft, index, passes, ids[0]);
    } else if |ids| > 1 {
      assert ids[0] in ids && ids[1] in ids && ids[0] != ids[1];
    }
  }

  lemma ChildReportWarnings(draft: Profile, index: Index, passes: Passes, w: GroupWarning)
    requires index.Valid() && Ascending(index.keys)
    ensures var found := EffectiveChildIds(draft, index, passes, Report([], []), true);
            w in ChildReport(draft, found).warnings
            <==> match w
                 case OneHopChain => draft.protocol.ProxyChain? && HasOneChild(draft, index, passes)
                 case DuplicateChild(id) => OffersTwice(draft, index, passes, id)
  {
    var found := EffectiveChildIds(draft, index, passes, Report([], []), true);
    EffectiveChildrenWarn(draft, index, passes, Report([], []), true, w);
    EffectiveChildrenExact(draft, index, passes, Report([], []), true);
    EffectiveChildrenInOrder(draft, index, passes, Report([], []), true);
    DraftOrderNoneTwice(draft, index, passes, found.ids);
    OneChildExactly(draft, index, passes, found.ids);
  }

  /** The search from the draft warns about every group it leads to that offers a child twice. */
  lemma SearchWarnings(g: Graph, index: Index, passes: Passes, root: Id, report: Report, w: GroupWarning)
    requires index.Valid() && Ascending(index.keys) && Depicts(g, index, passes)
    ensures w in Detect(index, passes, root, [], report).warnings
            <==> w in report.warnings || WarnsBelow(g, index, passes, root, w)
  {
    DetectWarnsSound(g, index, passes, root, [], report, w);
    if WarnsBelow(g, index, passes, root, w) {
      var a :| Reaches(g, root, a) && GroupOffersTwice(index, passes, a, w.id);
      var p :| IsPathBetween(g, p, root, a);
      var q := SimplePath(g, p);
      DetectWarnsComplete(g, index, passes, q, [], report, w);
    }
  }

  /**
   * The warnings of the check: a proxy chain with exactly one effective child, and every
   * id that the draft, or a group it leads to, offers twice.
   */
  lemma WarningsExact(g: Graph, draft: Profile, profiles: seq<Profile>, passes: Passes, w: GroupWarning)
    requires Depicts(g, DraftIndex(draft, profiles), passes)
    ensures var index, warnings := DraftIndex(draft, profiles), Validate(draft, profiles, passes).report.warnings;
            if !draft.IsGroup() then warnings == []
            else
              w in warnings
              <==> match w
                   case OneHopChain => draft.protocol.ProxyChain? && HasOneChild(draft, index, passes)
                   case DuplicateChild(id) =>
                     exists a :: Reaches(g, EffectiveProfileId(draft), a) && GroupOffersTwice(index, passes, a, id)
  {
    if draft.IsGroup() {
      var index, root := DraftIndex(draft, profiles), EffectiveProfileId(draft);
      DraftIndexAscends(draft, profiles);
      ChildReportWarnings(draft, index, passes, w);
      SearchWarnings(g, index, passes, root, ChildReport(draft, EffectiveChildIds(draft, index, passes, Report([], []), true)), w);
      if w.DuplicateChild? {
        RootOffers(draft, profiles, passes, w);
        ReachesSelf(g, root);
      }
    }
  }

  lemma RootOffers(draft: Profile, profiles: seq<Profile>, passes: Passes, w: GroupWarning)
    requires draft.IsGroup() && w.DuplicateChild?
    ensures var index := DraftIndex(draft, profiles);
            GroupOffersTwice(index, passes, EffectiveProfileId(draft), w.id) <==> OffersTwice(draft, index, passes, w.id)
  {
    DraftIndexExact(draft, profiles, EffectiveProfileId(draft));
  }

  /** The children that the check returns are the effective ones, each once, in their order. */
  lemma ReturnedChildren(draft: Profile, profiles: seq<Profile>, passes: Passes)
    ensures var index, ids := DraftIndex(draft, profiles), Validate(draft, profiles, passes).ids;
            && (!draft.IsGroup() ==> ids == [])
            && (draft.IsGroup() ==>
                  && (forall id :: id in ids <==> IsChild(draft, index, passes, id))
                  && InDraftOrder(draft, index, passes, ids)
                  && NoneTwice(ids))
  {
    var index := DraftIndex(draft, profiles);
    DraftIndexAscends(draft, profiles);
    EffectiveChildrenExact(draft, index, passes, Report([], []), true);
    EffectiveChildrenInOrder(draft, index, passes, Report([], []), true);
    DraftOrderNoneTwice(draft, index, passes, EffectiveChildIds(draft, index, passes, Report([], []), true).ids);
  }

  // ------------------------------------------------------------------------ the check itself

  /** The whole check as it runs: its verdict and the children it returns. */
  method CheckDraft(draft: Profile, profiles: seq<Profile>, passes: Passes) returns (valid: bool, found: Found)
    ensures found == Validate(draft, profiles, passes)
    ensures forall g :: Depicts(g, DraftIndex(draft, profiles), passes) ==> (valid <==> IsSound(g, draft, profiles, passes))
  {
    var check := new GroupCheck();
    var ids;
    valid, ids := check.ValidateGroupProfile(draft, profiles, passes);
    found := Found(ids, check.Notes());
    forall g | Depicts(g, DraftIndex(draft, profiles), passes) ensures valid <==> IsSound(g, draft, profiles, passes) {
      AcceptsExactly(g, draft, profiles, passes);
    }
  }
}
