/** The check of a group draft: effective children and the search for cycles below it. */
module GroupValidation {
  import opened Text
  import opened Digraph
  import opened Profiles

  datatype GroupError =
    | NotAGroup
    | ChildNotFound(id: Id)
    | NoValidChildren(kind: string)
    | CycleFound(path: seq<Id>)

  datatype GroupWarning =
    | DuplicateChild(id: Id)
    | OneHopChain

  datatype Report = Report(errors: seq<GroupError>, warnings: seq<GroupWarning>)

  /** Code point order, which for UTF-8 text is also the byte order of a `BTreeMap` key. */
  predicate Less(a: string, b: string) {
    b != [] && (a == [] || a[0] < b[0] || (a[0] == b[0] && Less(a[1..], b[1..])))
  }

  function InsertKey(keys: seq<Id>, id: Id): (r: seq<Id>)
    ensures forall k :: k in r <==> k in keys || k == id
  {
    if keys == [] then [id]
    else if keys[0] == id then keys
    else if Less(id, keys[0]) then [id] + keys
    else [keys[0]] + InsertKey(keys[1..], id)
  }

  /** A `BTreeMap` from ids to profiles: its entries and the order it lists them in. */
  datatype Index = Index(profiles: map<Id, Profile>, keys: seq<Id>) {
    ghost predicate Valid() {
      && (forall id :: id in keys <==> id in profiles)
      && forall id :: id in profiles ==> profiles[id].indexId == id
    }

    function Insert(p: Profile): Index {
      Index(profiles[p.indexId := p], InsertKey(keys, p.indexId))
    }
  }

  function ProfilesById(profiles: seq<Profile>): (index: Index)
    ensures index.Valid()
  {
    if profiles == [] then Index(map[], [])
    else
      var last := profiles[|profiles| - 1];
      var rest := ProfilesById(profiles[..|profiles| - 1]);
      if Trim(last.indexId) == "" then rest else rest.Insert(last)
  }

  type Passes = (Option<string>, string) -> bool

  predicate IsMember(protocol: Protocol, passes: Passes, p: Profile) {
    && protocol.PolicyGroup?
    && protocol.source.Some?
    && p.subscription == protocol.source
    && !p.protocol.IsComplex()
    && passes(protocol.filter, p.remarks)
  }

  function Members(index: Index, protocol: Protocol, passes: Passes): (r: seq<Id>)
    requires index.Valid()
    ensures forall id :: id in r <==> id in index.profiles && IsMember(protocol, passes, index.profiles[id])
  {
    FilterMembers(index.keys, id => id in index.profiles && IsMember(protocol, passes, index.profiles[id]));
    Filter(index.keys, id => id in index.profiles && IsMember(protocol, passes, index.profiles[id]))
  }

  /** The children found so far, with the report they are noted in. */
  datatype Found = Found(ids: seq<Id>, report: Report)

  function PushChild(found: Found, id: Id): Found {
    if id !in found.ids then found.(ids := found.ids + [id])
    else if DuplicateChild(id) in found.report.warnings then found
    else found.(report := found.report.(warnings := found.report.warnings + [DuplicateChild(id)]))
  }

  function AddExplicit(index: Index, ids: seq<Id>, reportMissing: bool, found: Found): Found {
    if ids == [] then found
    else
      var next :=
        if ids[0] in index.profiles then PushChild(found, ids[0])
        else if reportMissing then found.(report := found.report.(errors := found.report.errors + [ChildNotFound(ids[0])]))
        else found;
      AddExplicit(index, ids[1..], reportMissing, next)
  }

  function AddMembers(ids: seq<Id>, found: Found): Found {
    if ids == [] then found else AddMembers(ids[1..], PushChild(found, ids[0]))
  }

  function EffectiveChildIds(p: Profile, index: Index, passes: Passes, report: Report, reportMissing: bool): Found
    requires index.Valid()
  {
    AddMembers(
      Members(index, p.protocol, passes),
      AddExplicit(index, p.protocol.ChildIds(), reportMissing, Found([], report)))
  }

  /** `e` reports a listed child that does not exist. */
  predicate IsMissing(index: Index, ids: seq<Id>, e: GroupError) {
    e.ChildNotFound? && e.id in ids && e.id !in index.profiles
  }

  lemma {:induction false} AddExplicitFinds(index: Index, ids: seq<Id>, reportMissing: bool, found: Found)
    ensures var after := AddExplicit(index, ids, reportMissing, found);
            && (forall id :: id in after.ids <==> id in found.ids || (id in ids && id in index.profiles))
            && (!reportMissing ==> after.report.errors == found.report.errors)
            && (forall e :: e in after.report.errors
                  <==> e in found.report.errors || (reportMissing && IsMissing(index, ids, e)))
  {
    if ids != [] {
      var next :=
        if ids[0] in index.profiles then PushChild(found, ids[0])
        else if reportMissing then found.(report := found.report.(errors := found.report.errors + [ChildNotFound(ids[0])]))
        else found;
      AddExplicitFinds(index, ids[1..], reportMissing, next);
    }
  }

  lemma {:induction false} AddMembersFinds(ids: seq<Id>, found: Found)
    ensures var after := AddMembers(ids, found);
            && (forall id :: id in after.ids <==> id in found.ids || id in ids)
            && after.report.errors == found.report.errors
  {
    if ids != [] {
      AddMembersFinds(ids[1..], PushChild(found, ids[0]));
    }
  }

  predicate IsEffectiveChild(p: Profile, index: Index, passes: Passes, id: Id) {
    id in index.profiles && (id in p.protocol.ChildIds() || IsMember(p.protocol, passes, index.profiles[id]))
  }

  /** The effective children are the listed and subscribed profiles that exist. */
  lemma EffectiveChildrenExact(p: Profile, index: Index, passes: Passes, report: Report, reportMissing: bool)
    requires index.Valid()
    ensures var found := EffectiveChildIds(p, index, passes, report, reportMissing);
            && (forall id :: id in found.ids <==> IsEffectiveChild(p, index, passes, id))
            && (!reportMissing ==> found.report.errors == report.errors)
            && (forall e :: e in found.report.errors
                  <==> e in report.errors || (reportMissing && IsMissing(index, p.protocol.ChildIds(), e)))
  {
    AddExplicitFinds(index, p.protocol.ChildIds(), reportMissing, Found([], report));
    AddMembersFinds(
      Members(index, p.protocol, passes),
      AddExplicit(index, p.protocol.ChildIds(), reportMissing, Found([], report)));
  }

  // ------------------------------------------------------------- the search for cycles

  function Position(s: seq<Id>, id: Id): (i: nat)
    requires id in s
    ensures i < |s| && s[i] == id && id !in s[..i]
  {
    if s[0] == id then 0 else 1 + Position(s[1..], id)
  }

  /** Depth first, without remembering finished ids: `stack` is the path that leads here. */
  function Detect(index: Index, passes: Passes, id: Id, stack: seq<Id>, report: Report): Report
    requires index.Valid()
    decreases index.profiles.Keys - Elements(stack), 1, 0
  {
    if id in stack then
      report.(errors := report.errors + [CycleFound(stack[Position(stack, id)..] + [id])])
    else if id !in index.profiles || !index.profiles[id].IsGroup() then report
    else
      var found := EffectiveChildIds(index.profiles[id], index, passes, report, false);
      assert id in index.profiles.Keys - Elements(stack);
      assert Elements(stack + [id]) == Elements(stack) + {id};
      DetectAll(index, passes, found.ids, stack + [id], found.report)
  }

  function DetectAll(index: Index, passes: Passes, ids: seq<Id>, stack: seq<Id>, report: Report): Report
    requires index.Valid()
    decreases index.profiles.Keys - Elements(stack), 2, |ids|
  {
    if ids == [] then report
    else DetectAll(index, passes, ids[1..], stack, Detect(index, passes, ids[0], stack, report))
  }

  function Elements(s: seq<Id>): set<Id> {
    set id | id in s
  }

  /** Groups and their effective children. */
  function GroupGraph(index: Index, passes: Passes): Graph
    requires index.Valid()
  {
    map id | id in index.profiles && index.profiles[id].IsGroup() ::
      EffectiveChildIds(index.profiles[id], index, passes, Report([], []), false).ids
  }

  ghost predicate Depicts(g: Graph, index: Index, passes: Passes) {
    forall a, b :: Edge(g, a, b)
                   <==> a in index.profiles && index.profiles[a].IsGroup() && IsEffectiveChild(index.profiles[a], index, passes, b)
  }

  lemma GroupGraphDepicts(index: Index, passes: Passes)
    requires index.Valid()
    ensures Depicts(GroupGraph(index, passes), index, passes)
  {
    forall a | a in index.profiles {
      EffectiveChildrenExact(index.profiles[a], index, passes, Report([], []), false);
    }
  }

  ghost predicate GenuineCycle(g: Graph, root: Id, e: GroupError) {
    e.CycleFound? && IsCycle(g, e.path) && Reaches(g, root, e.path[0])
  }

  /** The search only appends genuine cycles. */
  ghost predicate Appends(g: Graph, root: Id, before: Report, after: Report) {
    && |before.errors| <= |after.errors|
    && after.errors[..|before.errors|] == before.errors
    && forall i :: |before.errors| <= i < |after.errors| ==> GenuineCycle(g, root, after.errors[i])
  }

  /** `stack` is the path of the search from `root`, ready to be extended by `id`. */
  ghost predicate OnPath(g: Graph, root: Id, stack: seq<Id>, id: Id) {
    IsPath(g, stack + [id]) && (stack + [id])[0] == root
  }

  lemma AppendsTransitive(g: Graph, root: Id, a: Report, b: Report, c: Report)
    requires Appends(g, root, a, b) && Appends(g, root, b, c)
    ensures Appends(g, root, a, c)
  {
    assert c.errors[..|a.errors|] == c.errors[..|b.errors|][..|a.errors|];
    forall i | |a.errors| <= i < |c.errors| ensures GenuineCycle(g, root, c.errors[i]) {
      assert i < |b.errors| ==> c.errors[i] == c.errors[..|b.errors|][i];
    }
  }

  /** Meeting a vertex of the search path again closes a cycle below the root. */
  lemma BackEdgeIsCycle(g: Graph, root: Id, stack: seq<Id>, id: Id)
    requires OnPath(g, root, stack, id) && id in stack
    ensures GenuineCycle(g, root, CycleFound(stack[Position(stack, id)..] + [id]))
  {
    var k := Position(stack, id);
    var p := stack + [id];
    PathSuffix(g, p, k);
    PathPrefix(g, p, k + 1);
    assert p[k..] == stack[k..] + [id];
    assert IsPathBetween(g, p[..k + 1], root, id);
  }

  lemma OnPathExtends(g: Graph, root: Id, stack: seq<Id>, id: Id, c: Id)
    requires OnPath(g, root, stack, id) && Edge(g, id, c)
    ensures OnPath(g, root, stack + [id], c)
  {
    PathJoin(g, stack + [id], [id, c]);
    assert stack + [id] + [id, c][1..] == stack + [id] + [c];
  }

  lemma {:induction false} DetectSound(g: Graph, index: Index, passes: Passes, root: Id, id: Id, stack: seq<Id>,
                                       report: Report)
    requires index.Valid() && Depicts(g, index, passes) && OnPath(g, root, stack, id)
    ensures Appends(g, root, report, Detect(index, passes, id, stack, report))
    decreases index.profiles.Keys - Elements(stack), 1, 0
  {
    if id in stack {
      BackEdgeIsCycle(g, root, stack, id);
    } else if id in index.profiles && index.profiles[id].IsGroup() {
      var found := EffectiveChildIds(index.profiles[id], index, passes, report, false);
      EffectiveChildrenExact(index.profiles[id], index, passes, report, false);
      assert Elements(stack + [id]) == Elements(stack) + {id};
      assert id in index.profiles.Keys - Elements(stack);
      forall c | c in found.ids ensures OnPath(g, root, stack + [id], c) {
        OnPathExtends(g, root, stack, id, c);
      }
      DetectAllSound(g, index, passes, root, found.ids, stack + [id], found.report);
      assert found.report.errors == report.errors;
    }
  }

  lemma {:induction false} DetectAllSound(g: Graph, index: Index, passes: Passes, root: Id, ids: seq<Id>,
                                          stack: seq<Id>, report: Report)
    requires index.Valid() && Depicts(g, index, passes) && forall c :: c in ids ==> OnPath(g, root, stack, c)
    ensures Appends(g, root, report, DetectAll(index, passes, ids, stack, report))
    decreases index.profiles.Keys - Elements(stack), 2, |ids|
  {
    if ids != [] {
      var next := Detect(index, passes, ids[0], stack, report);
      DetectSound(g, index, passes, root, ids[0], stack, report);
      DetectAllSound(g, index, passes, root, ids[1..], stack, next);
      AppendsTransitive(g, root, report, next, DetectAll(index, passes, ids, stack, report));
    }
  }

  /** If the search adds no error, no cycle lies ahead. */
  lemma {:induction false} DetectComplete(g: Graph, index: Index, passes: Passes, id: Id, stack: seq<Id>,
                                          report: Report)
    requires index.Valid() && Depicts(g, index, passes)
    ensures var after := Detect(index, passes, id, stack, report);
            && |report.errors| <= |after.errors|
            && (|after.errors| == |report.errors| ==> !ReachesCycle(g, id))
    decreases index.profiles.Keys - Elements(stack), 1, 0
  {
    if id !in stack {
      if id in index.profiles && index.profiles[id].IsGroup() {
        var found := EffectiveChildIds(index.profiles[id], index, passes, report, false);
        EffectiveChildrenExact(index.profiles[id], index, passes, report, false);
        assert Elements(stack + [id]) == Elements(stack) + {id};
        assert id in index.profiles.Keys - Elements(stack);
        DetectAllComplete(g, index, passes, found.ids, stack + [id], found.report);
        if ReachesCycle(g, id) {
          var b := ReachesCycleSplit(g, id);
        }
      } else {
        SinkReachesNoCycle(g, id);
      }
    }
  }

  lemma {:induction false} DetectAllComplete(g: Graph, index: Index, passes: Passes, ids: seq<Id>, stack: seq<Id>,
                                             report: Report)
    requires index.Valid() && Depicts(g, index, passes)
    ensures var after := DetectAll(index, passes, ids, stack, report);
            && |report.errors| <= |after.errors|
            && (|after.errors| == |report.errors| ==> forall c :: c in ids ==> !ReachesCycle(g, c))
    decreases index.profiles.Keys - Elements(stack), 2, |ids|
  {
    if ids != [] {
      DetectComplete(g, index, passes, ids[0], stack, report);
      DetectAllComplete(g, index, passes, ids[1..], stack, Detect(index, passes, ids[0], stack, report));
    }
  }

  /** The search from a root reports an error exactly when it reaches a cycle, and each reported path is one. */
  lemma DetectExact(g: Graph, index: Index, passes: Passes, root: Id, report: Report)
    requires index.Valid() && Depicts(g, index, passes)
    ensures var after := Detect(index, passes, root, [], report);
            && Appends(g, root, report, after)
            && (|after.errors| > |report.errors| <==> ReachesCycle(g, root))
  {
    var after := Detect(index, passes, root, [], report);
    assert [] + [root] == [root];
    DetectSound(g, index, passes, root, root, [], report);
    DetectComplete(g, index, passes, root, [], report);
    if |after.errors| > |report.errors| {
      var e := after.errors[|report.errors|];
      assert GenuineCycle(g, root, e);
      var p :| IsPathBetween(g, p, root, e.path[0]);
      assert IsCycleBeyond(g, root, p, e.path);
    }
  }

  // ------------------------------------------------------------- the check of a draft

  const DRAFT_ID := "__draft_group__"

  function EffectiveProfileId(p: Profile): Id {
    if Trim(p.indexId) == "" then DRAFT_ID else Trim(p.indexId)
  }

  function GroupKindLabel(p: Profile): string {
    match p.protocol
    case PolicyGroup(_, _, _) => "policy group"
    case ProxyChain(_) => "proxy chain"
    case _ => "group"
  }

  function DraftIndex(draft: Profile, profiles: seq<Profile>): (index: Index)
    ensures index.Valid()
  {
    ProfilesById(profiles).Insert(draft.(indexId := EffectiveProfileId(draft)))
  }

  /** What the check notes about the children themselves, before it looks for cycles. */
  function ChildReport(draft: Profile, found: Found): Report {
    Report(
      found.report.errors + if found.ids == [] then [NoValidChildren(GroupKindLabel(draft))] else [],
      found.report.warnings + if draft.protocol.ProxyChain? && |found.ids| == 1 then [OneHopChain] else [])
  }

  /** The errors and warnings of the check, and the normalised list of children. */
  function Validate(draft: Profile, profiles: seq<Profile>, passes: Passes): Found {
    if !draft.IsGroup() then Found([], Report([NotAGroup], []))
    else
      var index := DraftIndex(draft, profiles);
      var found := EffectiveChildIds(draft, index, passes, Report([], []), true);
      Found(found.ids, Detect(index, passes, EffectiveProfileId(draft), [], ChildReport(draft, found)))
  }

  predicate Accepts(draft: Profile, profiles: seq<Profile>, passes: Passes) {
    Validate(draft, profiles, passes).report.errors == []
  }

  predicate ReportsCycle(report: Report) {
    exists e :: e in report.errors && e.CycleFound?
  }

  lemma AppendedCycles(g: Graph, root: Id, before: Report, after: Report)
    requires Appends(g, root, before, after) && !ReportsCycle(before)
    ensures ReportsCycle(after) <==> |after.errors| > |before.errors|
  {
    if |after.errors| > |before.errors| {
      assert GenuineCycle(g, root, after.errors[|before.errors|]);
      assert after.errors[|before.errors|] in after.errors;
    } else {
      assert after.errors == after.errors[..|before.errors|];
    }
  }

  /** The check complains about a cycle exactly when one lies below the draft. */
  lemma ValidateReportsCycles(g: Graph, draft: Profile, profiles: seq<Profile>, passes: Passes)
    requires draft.IsGroup() && Depicts(g, DraftIndex(draft, profiles), passes)
    ensures ReportsCycle(Validate(draft, profiles, passes).report) <==> ReachesCycle(g, EffectiveProfileId(draft))
  {
    var index, root := DraftIndex(draft, profiles), EffectiveProfileId(draft);
    var found := EffectiveChildIds(draft, index, passes, Report([], []), true);
    var before := ChildReport(draft, found);
    EffectiveChildrenExact(draft, index, passes, Report([], []), true);
    DetectExact(g, index, passes, root, before);
    AppendedCycles(g, root, before, Detect(index, passes, root, [], before));
  }

  // ------------------------------------------------------------- the check as it runs

  ghost predicate NoDuplicates(s: seq<Id>) {
    forall i, j :: 0 <= i < j < |s| ==> s[i] != s[j]
  }

  /** One run of the check: the notes it gathers and the bookkeeping of its search. */
  class GroupCheck {
    var errors: seq<GroupError>
    var warnings: seq<GroupWarning>
    var visiting: set<Id>
    var stack: seq<Id>

    constructor ()
      ensures Valid() && stack == [] && Notes() == Report([], [])
    {
      errors, warnings, visiting, stack := [], [], {}, [];
    }

    /** The visited marks are exactly the ids on the duplicate-free search path. */
    ghost predicate Valid()
      reads this
    {
      visiting == Elements(stack) && NoDuplicates(stack)
    }

    function Notes(): Report
      reads this
    {
      Report(errors, warnings)
    }

    method PushUniqueChild(ids: seq<Id>, seen: set<Id>, id: Id) returns (ids': seq<Id>, seen': set<Id>)
      requires seen == Elements(ids)
      modifies this`warnings
      ensures Found(ids', Notes()) == PushChild(Found(ids, old(Notes())), id)
      ensures seen' == Elements(ids')
    {
      ids', seen' := ids, seen;
      if id !in seen {
        ids', seen' := ids + [id], seen + {id};
      } else if DuplicateChild(id) !in warnings {
        warnings := warnings + [DuplicateChild(id)];
      }
    }

    method CollectChildIds(p: Profile, index: Index, passes: Passes, reportMissing: bool) returns (ids: seq<Id>)
      requires index.Valid()
      modifies this`errors, this`warnings
      ensures Found(ids, Notes()) == EffectiveChildIds(p, index, passes, old(Notes()), reportMissing)
    {
      var seen: set<Id> := {};
      ids := [];
      var listed := p.protocol.ChildIds();
      ghost var explicitDone := AddExplicit(index, listed, reportMissing, Found([], Notes()));
      for i := 0 to |listed|
        invariant seen == Elements(ids)
        invariant AddExplicit(index, listed[i..], reportMissing, Found(ids, Notes())) == explicitDone
      {
        if listed[i] !in index.profiles {
          if reportMissing {
            errors := errors + [ChildNotFound(listed[i])];
          }
        } else {
          ids, seen := PushUniqueChild(ids, seen, listed[i]);
        }
      }
      var members := Members(index, p.protocol, passes);
      for i := 0 to |members|
        invariant seen == Elements(ids)
        invariant AddMembers(members[i..], Found(ids, Notes())) == AddMembers(members, explicitDone)
      {
        ids, seen := PushUniqueChild(ids, seen, members[i]);
      }
    }

    /** Reports what the specification reports and leaves the bookkeeping as it was. */
    method DetectCycle(index: Index, passes: Passes, id: Id)
      requires Valid() && index.Valid()
      modifies this
      ensures Valid() && visiting == old(visiting) && stack == old(stack)
      ensures Notes() == Detect(index, passes, id, old(stack), old(Notes()))
      decreases index.profiles.Keys - visiting, 1
    {
      if id in visiting {
        errors := errors + [CycleFound(stack[Position(stack, id)..] + [id])];
        return;
      }
      if id !in index.profiles || !index.profiles[id].IsGroup() {
        return;
      }
      visiting, stack := visiting + {id}, stack + [id];
      var ids := CollectChildIds(index.profiles[id], index, passes, false);
      ghost var below := DetectAll(index, passes, ids, stack, Notes());
      for i := 0 to |ids|
        invariant Valid() && visiting == old(visiting) + {id} && stack == old(stack) + [id]
        invariant DetectAll(index, passes, ids[i..], stack, Notes()) == below
      {
        DetectCycle(index, passes, ids[i]);
      }
      stack, visiting := stack[..|stack| - 1], visiting - {id};
    }

    method ValidateGroupProfile(draft: Profile, profiles: seq<Profile>, passes: Passes) returns (valid: bool,
                                ids: seq<Id>)
      requires Valid() && stack == [] && Notes() == Report([], [])
      modifies this
      ensures Valid() && stack == []
      ensures Found(ids, Notes()) == Validate(draft, profiles, passes)
      ensures valid <==> errors == []
    {
      if !draft.IsGroup() {
        errors := errors + [NotAGroup];
        return false, [];
      }
      var index := DraftIndex(draft, profiles);
      ids := CollectChildIds(draft, index, passes, true);
      ghost var found := Found(ids, Notes());
      if ids == [] {
        errors := errors + [NoValidChildren(GroupKindLabel(draft))];
      }
      if draft.protocol.ProxyChain? && |ids| == 1 {
        warnings := warnings + [OneHopChain];
      }
      assert Notes() == ChildReport(draft, found);
      DetectCycle(index, passes, EffectiveProfileId(draft));
      valid := errors == [];
    }
  }
}
