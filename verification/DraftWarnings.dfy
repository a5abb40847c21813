/** The warnings of a draft check: one-hop chains, and children that some group lists twice. */
module DraftWarnings {
  import opened Text
  import opened Digraph
  import opened Profiles
  import opened GroupValidation
  import opened DraftIndexOrder

  /** A server of the subscription that a policy group draws on, let through by its filter. */
  predicate Belongs(protocol: Protocol, passes: Passes, p: Profile) {
    match protocol
    case PolicyGroup(_, Some(source), filter) =>
      p.subscription == Some(source) && p.protocol == Server && passes(filter, p.remarks)
    case _ => false
  }

  /** A stored profile that the group lists or that belongs to it. */
  predicate IsChild(p: Profile, index: Index, passes: Passes, id: Id) {
    id in index.profiles && (id in p.protocol.ChildIds() || Belongs(p.protocol, passes, index.profiles[id]))
  }

  lemma EffectiveIsChild(p: Profile, index: Index, passes: Passes, id: Id)
    ensures IsEffectiveChild(p, index, passes, id) <==> IsChild(p, index, passes, id)
  {
  }

  /** The group lists the stored `id` twice, or lists a profile that its subscription gives it too. */
  ghost predicate OffersTwice(p: Profile, index: Index, passes: Passes, id: Id) {
    && id in index.profiles
    && (StandsTwice(p.protocol.ChildIds(), id)
        || (id in p.protocol.ChildIds() && Belongs(p.protocol, passes, index.profiles[id])))
  }

  ghost predicate StandsTwice(ids: seq<Id>, id: Id) {
    exists i, j :: 0 <= i < j < |ids| && ids[i] == id && ids[j] == id
  }

  lemma StandsTwiceSplit(ids: seq<Id>, id: Id)
    requires ids != []
    ensures StandsTwice(ids, id) <==> (ids[0] == id && id in ids[1..]) || StandsTwice(ids[1..], id)
  {
    if ids[0] == id && id in ids[1..] {
      var j :| 0 <= j < |ids[1..]| && ids[1..][j] == id;
      assert ids[0] == id && ids[j + 1] == id;
    }
    if StandsTwice(ids[1..], id) {
      var i, j :| 0 <= i < j < |ids[1..]| && ids[1..][i] == id && ids[1..][j] == id;
      assert ids[i + 1] == id && ids[j + 1] == id;
    }
    if i, j :| 0 <= i < j < |ids| && ids[i] == id && ids[j] == id {
      assert ids[1..][j - 1] == id;
      assert i > 0 ==> ids[1..][i - 1] == id;
    }
  }

  lemma {:induction false} AddExplicitWarns(index: Index, ids: seq<Id>, reportMissing: bool, found: Found, w: GroupWarning)
    ensures var after := AddExplicit(index, ids, reportMissing, found);
            w in after.report.warnings
            <==> || w in found.report.warnings
                 || (w.DuplicateChild? && w.id in index.profiles
                     && ((w.id in found.ids && w.id in ids) || StandsTwice(ids, w.id)))
  {
    if ids != [] {
      var next :=
        if ids[0] in index.profiles then PushChild(found, ids[0])
        else if reportMissing then found.(report := found.report.(errors := found.report.errors + [ChildNotFound(ids[0])]))
        else found;
      AddExplicitWarns(index, ids[1..], reportMissing, next, w);
      if w.DuplicateChild? {
        StandsTwiceSplit(ids, w.id);
      }
    }
  }

  ghost predicate NoneTwice(ids: seq<Id>) {
    forall i, j :: 0 <= i < j < |ids| ==> ids[i] != ids[j]
  }

  lemma {:induction false} AddMembersWarns(ids: seq<Id>, found: Found, w: GroupWarning)
    requires NoneTwice(ids)
    ensures var after := AddMembers(ids, found);
            w in after.report.warnings
            <==> w in found.report.warnings || (w.DuplicateChild? && w.id in found.ids && w.id in ids)
  {
    if ids != [] {
      AddMembersWarns(ids[1..], PushChild(found, ids[0]), w);
      assert ids[0] !in ids[1..];
    }
  }

  lemma {:induction false} FilterNoneTwice(s: seq<Id>, keep: Id -> bool)
    requires NoneTwice(s)
    ensures NoneTwice(Filter(s, keep))
  {
    if s != [] {
      FilterNoneTwice(s[1..], keep);
      FilterMembers(s[1..], keep);
      assert s[0] !in s[1..];
      var rest := Filter(s[1..], keep);
      forall j | 0 <= j < |rest| ensures rest[j] != s[0] {
        assert rest[j] in rest;
      }
    }
  }

  lemma AscendingNoneTwice(keys: seq<Id>)
    requires Ascending(keys)
    ensures NoneTwice(keys)
  {
    forall i, j | 0 <= i < j < |keys| ensures keys[i] != keys[j] {
      assert Less(keys[i], keys[j]);
      LessIrreflexive(keys[i]);
    }
  }

  /** Collecting the children of one group warns about exactly those that it offers twice. */
  lemma EffectiveChildrenWarn(p: Profile, index: Index, passes: Passes, report: Report, reportMissing: bool, w: GroupWarning)
    requires index.Valid() && Ascending(index.keys)
    ensures w in EffectiveChildIds(p, index, passes, report, reportMissing).report.warnings
            <==> w in report.warnings || (w.DuplicateChild? && OffersTwice(p, index, passes, w.id))
  {
    var explicit := AddExplicit(index, p.protocol.ChildIds(), reportMissing, Found([], report));
    AscendingNoneTwice(index.keys);
    FilterNoneTwice(index.keys, id => id in index.profiles && IsMember(p.protocol, passes, index.profiles[id]));
    AddExplicitWarns(index, p.protocol.ChildIds(), reportMissing, Found([], report), w);
    AddExplicitFinds(index, p.protocol.ChildIds(), reportMissing, Found([], report));
    AddMembersWarns(Members(index, p.protocol, passes), explicit, w);
  }

  // ---------------------------------------------------------------- over the whole search

  /** Some group that can be reached from `id` offers a child twice. */
  ghost predicate WarnsBelow(g: Graph, index: Index, passes: Passes, id: Id, w: GroupWarning) {
    w.DuplicateChild? && exists a :: Reaches(g, id, a) && GroupOffersTwice(index, passes, a, w.id)
  }

  ghost predicate GroupOffersTwice(index: Index, passes: Passes, a: Id, id: Id) {
    a in index.profiles && index.profiles[a].IsGroup() && OffersTwice(index.profiles[a], index, passes, id)
  }

  lemma WarnsAbove(g: Graph, index: Index, passes: Passes, id: Id, c: Id, w: GroupWarning)
    requires Edge(g, id, c) && WarnsBelow(g, index, passes, c, w)
    ensures WarnsBelow(g, index, passes, id, w)
  {
    var a :| Reaches(g, c, a) && GroupOffersTwice(index, passes, a, w.id);
    ReachesStep(g, id, c);
    ReachesTransitive(g, id, c, a);
  }

  lemma {:induction false} DetectWarnsSound(g: Graph, index: Index, passes: Passes, id: Id, stack: seq<Id>,
                                            report: Report, w: GroupWarning)
    requires index.Valid() && Ascending(index.keys) && Depicts(g, index, passes)
    ensures var after := Detect(index, passes, id, stack, report);
            && (w in report.warnings ==> w in after.warnings)
            && (w in after.warnings ==> w in report.warnings || WarnsBelow(g, index, passes, id, w))
    decreases index.profiles.Keys - Elements(stack), 1, 0
  {
    if id !in stack && id in index.profiles && index.profiles[id].IsGroup() {
      var found := EffectiveChildIds(index.profiles[id], index, passes, report, false);
      EffectiveChildrenExact(index.profiles[id], index, passes, report, false);
      EffectiveChildrenWarn(index.profiles[id], index, passes, report, false, w);
      assert Elements(stack + [id]) == Elements(stack) + {id};
      assert id in index.profiles.Keys - Elements(stack);
      DetectAllWarnsSound(g, index, passes, found.ids, stack + [id], found.report, w);
      ReachesSelf(g, id);
      if c :| c in found.ids && WarnsBelow(g, index, passes, c, w) {
        WarnsAbove(g, index, passes, id, c, w);
      }
    }
  }

  lemma {:induction false} DetectAllWarnsSound(g: Graph, index: Index, passes: Passes, ids: seq<Id>, stack: seq<Id>,
                                               report: Report, w: GroupWarning)
    requires index.Valid() && Ascending(index.keys) && Depicts(g, index, passes)
    ensures var after := DetectAll(index, passes, ids, stack, report);
            && (w in report.warnings ==> w in after.warnings)
            && (w in after.warnings ==> w in report.warnings || exists c :: c in ids && WarnsBelow(g, index, passes, c, w))
    decreases index.profiles.Keys - Elements(stack), 2, |ids|
  {
    if ids != [] {
      DetectWarnsSound(g, index, passes, ids[0], stack, report, w);
      DetectAllWarnsSound(g, index, passes, ids[1..], stack, Detect(index, passes, ids[0], stack, report), w);
    }
  }

  /** Cutting the loops out of a walk leaves a walk between the same ends. */
  lemma {:induction false} SimplePath(g: Graph, p: seq<Id>) returns (q: seq<Id>)
    requires IsPath(g, p)
    ensures IsPathBetween(g, q, p[0], p[|p| - 1]) && NoneTwice(q)
    decreases |p|
  {
    if i, j :| 0 <= i < j < |p| && p[i] == p[j] {
      PathPrefix(g, p, i + 1);
      PathSuffix(g, p, j);
      PathJoin(g, p[..i + 1], p[j..]);
      var shorter := p[..i + 1] + p[j..][1..];
      q := SimplePath(g, shorter);
    } else {
      q := p;
    }
  }

  /** What the search does at a group that it has not met on its way. */
  lemma DetectEnters(g: Graph, index: Index, passes: Passes, id: Id, stack: seq<Id>, report: Report)
    returns (found: Found)
    requires index.Valid() && Depicts(g, index, passes)
    requires id !in stack && id in index.profiles && index.profiles[id].IsGroup()
    ensures found == EffectiveChildIds(index.profiles[id], index, passes, report, false)
    ensures Detect(index, passes, id, stack, report) == DetectAll(index, passes, found.ids, stack + [id], found.report)
    ensures forall b :: b in found.ids <==> Edge(g, id, b)
  {
    found := EffectiveChildIds(index.profiles[id], index, passes, report, false);
    EffectiveChildrenExact(index.profiles[id], index, passes, report, false);
    assert Elements(stack + [id]) == Elements(stack) + {id};
    assert id in index.profiles.Keys - Elements(stack);
  }

  /** The search follows every walk that avoids its stack and itself, and reports what it finds at the end. */
  lemma {:induction false} DetectWarnsComplete(g: Graph, index: Index, passes: Passes, p: seq<Id>, stack: seq<Id>,
                                               report: Report, w: GroupWarning)
    requires index.Valid() && Ascending(index.keys) && Depicts(g, index, passes)
    requires IsPath(g, p) && NoneTwice(p) && forall x :: x in p ==> x !in stack
    requires w.DuplicateChild? && GroupOffersTwice(index, passes, p[|p| - 1], w.id)
    ensures w in Detect(index, passes, p[0], stack, report).warnings
    decreases |p|, 0
  {
    assert p[0] in p;
    if |p| == 1 {
      WarnsHere(g, index, passes, p[0], stack, report, w);
    } else {
      SimpleTail(g, p, stack);
      var found := DetectEnters(g, index, passes, p[0], stack, report);
      DetectAllWarnsComplete(g, index, passes, p[1..], found.ids, stack + [p[0]], found.report, w);
    }
  }

  lemma SimpleTail(g: Graph, p: seq<Id>, stack: seq<Id>)
    requires |p| > 1 && IsPath(g, p) && NoneTwice(p) && forall x :: x in p ==> x !in stack
    ensures Edge(g, p[0], p[1]) && p[0] !in stack
    ensures IsPath(g, p[1..]) && NoneTwice(p[1..]) && forall x :: x in p[1..] ==> x !in stack + [p[0]]
  {
    assert p[0] in p && Edge(g, p[0], p[0 + 1]);
    PathSuffix(g, p, 1);
  }

  lemma WarnsHere(g: Graph, index: Index, passes: Passes, id: Id, stack: seq<Id>, report: Report, w: GroupWarning)
    requires index.Valid() && Ascending(index.keys) && Depicts(g, index, passes) && id !in stack
    requires w.DuplicateChild? && GroupOffersTwice(index, passes, id, w.id)
    ensures w in Detect(index, passes, id, stack, report).warnings
  {
    var found := DetectEnters(g, index, passes, id, stack, report);
    EffectiveChildrenWarn(index.profiles[id], index, passes, report, false, w);
    DetectAllWarnsSound(g, index, passes, found.ids, stack + [id], found.report, w);
  }

  lemma {:induction false} DetectAllWarnsComplete(g: Graph, index: Index, passes: Passes, p: seq<Id>, ids: seq<Id>,
                                                  stack: seq<Id>, report: Report, w: GroupWarning)
    requires index.Valid() && Ascending(index.keys) && Depicts(g, index, passes)
    requires IsPath(g, p) && NoneTwice(p) && (forall x :: x in p ==> x !in stack) && p[0] in ids
    requires w.DuplicateChild? && GroupOffersTwice(index, passes, p[|p| - 1], w.id)
    ensures w in DetectAll(index, passes, ids, stack, report).warnings
    decreases |p|, |ids|
  {
    var next := Detect(index, passes, ids[0], stack, report);
    if ids[0] == p[0] {
      DetectWarnsComplete(g, index, passes, p, stack, report, w);
      DetectAllWarnsSound(g, index, passes, ids[1..], stack, next, w);
    } else {
      DetectAllWarnsComplete(g, index, passes, p, ids[1..], stack, next, w);
    }
  }
}
