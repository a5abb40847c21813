/** The check of a draft and the builder that later resolves it agree about cycles. */
module GroupAgreement {
  import opened Text
  import opened Digraph
  import opened Profiles
  import opened GroupResolution
  import opened GroupCycles
  import V = GroupValidation

  /** Stored ids are unique and not blank. */
  predicate WellFormedIds(profiles: seq<Profile>) {
    UniqueIds(profiles) && forall p :: p in profiles ==> Trim(p.indexId) != ""
  }

  /** `m` maps the id of every listed profile to it, and nothing else. */
  ghost predicate Tabulates(m: map<Id, Profile>, profiles: seq<Profile>) {
    && (forall id :: id in m ==> m[id] in profiles && m[id].indexId == id)
    && forall p :: p in profiles ==> p.indexId in m && m[p.indexId] == p
  }

  lemma TabulatesInsert(m: map<Id, Profile>, profiles: seq<Profile>, last: Profile)
    requires Tabulates(m, profiles) && last.indexId !in m
    ensures Tabulates(m[last.indexId := last], profiles + [last])
  {
  }

  lemma {:induction false} IndexIsLookup(profiles: seq<Profile>)
    requires WellFormedIds(profiles)
    ensures Tabulates(V.ProfilesById(profiles).profiles, profiles)
  {
    if profiles != [] {
      var n := |profiles| - 1;
      var init, last := profiles[..n], profiles[n];
      assert profiles == init + [last];
      assert WellFormedIds(init);
      IndexIsLookup(init);
      var before := V.ProfilesById(init).profiles;
      assert last in profiles;
      forall p | p in init ensures p.indexId != last.indexId {
        var i :| 0 <= i < n && profiles[i] == p;
      }
      TabulatesInsert(before, init, last);
    }
  }

  lemma DraftProfilesAgree(env: Env, draft: Profile)
    requires WellFormedIds(env.profiles) && draft in env.profiles && Trim(draft.indexId) == draft.indexId
    ensures RawOf(env, draft).profiles == V.DraftIndex(draft, env.profiles).profiles
    ensures V.EffectiveProfileId(draft) == draft.indexId
  {
    var before := V.ProfilesById(env.profiles).profiles;
    IndexIsLookup(env.profiles);
    assert draft.(indexId := V.EffectiveProfileId(draft)) == draft;
    FindSelf(env.profiles, draft);
    RawProfilesAre(env, draft, before);
    assert before[draft.indexId := draft] == before;
  }

  lemma RawProfilesAre(env: Env, draft: Profile, m: map<Id, Profile>)
    requires UniqueIds(env.profiles) && draft in env.profiles && Tabulates(m, env.profiles)
    ensures RawProfiles(env, draft) == m
  {
    var profiles := RawProfiles(env, draft);
    forall id ensures id in profiles <==> id in m {
      if id in profiles {
        FindSelf(env.profiles, draft);
        assert Find(env.profiles, id).value in env.profiles;
      }
      if id in m {
        assert m[id] in env.profiles;
      }
    }
    forall id | id in m ensures profiles[id] == m[id] {
      FindSelf(env.profiles, m[id]);
      FindSelf(env.profiles, draft);
    }
  }

  /** Every edge into a group is drawn by both; the two differ at most about servers. */
  lemma EdgesAgree(env: Env, raw: Raw, index: V.Index, g: Graph, a: Id, b: Id)
    requires UniqueIds(env.profiles)
    requires Describes(raw, env) && index.Valid() && raw.profiles == index.profiles
    requires forall id :: id in raw.profiles ==> Find(env.profiles, id) == Some(raw.profiles[id])
    requires forall p :: p in env.profiles ==> p.indexId in raw.profiles && raw.profiles[p.indexId] == p
    requires V.Depicts(g, index, env.passes)
    requires a in raw.profiles && raw.profiles[a].IsGroup() && b in raw.profiles && raw.profiles[b].IsGroup()
    ensures Edge(raw.graph, a, b) <==> Edge(g, a, b)
  {
    var p := raw.profiles[a];
    assert ProfileDescribed(raw, env, a);
    var kid := raw.profiles[b];
    if b in p.protocol.ChildIds() {
      assert kid in env.ChildProfiles(p.protocol);
      assert ListsChild(env, p, b);
    }
    if ListsChild(env, p, b) {
      var k :| k in env.ChildProfiles(p.protocol) && k.indexId == b;
      assert k == kid;
    }
  }

  lemma SourceIsGroup(env: Env, raw: Raw, index: V.Index, g: Graph, a: Id)
    requires Describes(raw, env) && raw.profiles == index.profiles
    requires raw.graph.Keys == raw.profiles.Keys
    requires V.Depicts(g, index, env.passes)
    ensures HasSuccessor(raw.graph, a) ==> a in raw.profiles && raw.profiles[a].IsGroup()
    ensures HasSuccessor(g, a) ==> a in raw.profiles && raw.profiles[a].IsGroup()
  {
    if a in raw.profiles {
      assert ProfileDescribed(raw, env, a);
      var p := raw.profiles[a];
      assert !p.IsGroup() ==> env.ChildProfiles(p.protocol) == [];
    }
  }

  lemma CyclesAgree(env: Env, raw: Raw, index: V.Index, g: Graph)
    requires UniqueIds(env.profiles)
    requires Describes(raw, env) && index.Valid() && raw.profiles == index.profiles
    requires raw.graph.Keys == raw.profiles.Keys
    requires forall id :: id in raw.profiles ==> Find(env.profiles, id) == Some(raw.profiles[id])
    requires forall p :: p in env.profiles ==> p.indexId in raw.profiles && raw.profiles[p.indexId] == p
    requires V.Depicts(g, index, env.passes)
    ensures ReachesCycle(raw.graph, raw.root) <==> ReachesCycle(g, raw.root)
  {
    forall x, y | (Edge(raw.graph, x, y) && HasSuccessor(raw.graph, y)) || (Edge(g, x, y) && HasSuccessor(g, y))
      ensures Edge(raw.graph, x, y) && Edge(g, x, y)
    {
      SourceIsGroup(env, raw, index, g, x);
      SourceIsGroup(env, raw, index, g, y);
      EdgesAgree(env, raw, index, g, x, y);
    }
    if ReachesCycle(raw.graph, raw.root) {
      ReachesCycleTransfers(raw.graph, g, raw.root);
    }
    if ReachesCycle(g, raw.root) {
      ReachesCycleTransfers(g, raw.graph, raw.root);
    }
  }

  /**
   * Over the same profiles, the check of a draft reports a cycle exactly when the builder
   * would cut one while it registers that draft.
   */
  lemma ValidatorAgreesWithBuilder(env: Env, draft: Profile, proxies: Proxies)
    requires WellFormedIds(env.profiles) && draft in env.profiles
    requires Trim(draft.indexId) == draft.indexId && draft.IsGroup()
    ensures V.ReportsCycle(V.Validate(draft, env.profiles, env.passes).report)
            <==> RegisterGroup(env, draft, proxies).result.MentionsCycle()
  {
    var raw, index := RawOf(env, draft), V.DraftIndex(draft, env.profiles);
    var g := V.GroupGraph(index, env.passes);
    RawOfDescribes(env, draft);
    DraftProfilesAgree(env, draft);
    LookupsAgree(env, draft);
    V.GroupGraphDepicts(index, env.passes);
    CyclesAgree(env, raw, index, g);
    V.ValidateReportsCycles(g, draft, env.profiles, env.passes);
    CutIffCycle(env, draft, proxies);
  }

  lemma LookupsAgree(env: Env, draft: Profile)
    requires UniqueIds(env.profiles) && draft in env.profiles
    ensures var raw := RawOf(env, draft);
            && raw.graph.Keys == raw.profiles.Keys
            && (forall id :: id in raw.profiles ==> Find(env.profiles, id) == Some(raw.profiles[id]))
            && (forall p :: p in env.profiles ==> p.indexId in raw.profiles && raw.profiles[p.indexId] == p)
  {
    var raw := RawOf(env, draft);
    FindSelf(env.profiles, draft);
    forall id | id in raw.profiles ensures Find(env.profiles, id) == Some(raw.profiles[id]) {
    }
    forall p | p in env.profiles ensures p.indexId in raw.profiles && raw.profiles[p.indexId] == p {
      FindSelf(env.profiles, p);
    }
  }

  /** An accepted draft is resolved without cutting anything. */
  lemma AcceptedDraftIsNeverCut(env: Env, draft: Profile, proxies: Proxies)
    requires WellFormedIds(env.profiles) && draft in env.profiles
    requires Trim(draft.indexId) == draft.indexId && draft.IsGroup()
    requires V.Accepts(draft, env.profiles, env.passes)
    ensures !RegisterGroup(env, draft, proxies).result.MentionsCycle()
  {
    ValidatorAgreesWithBuilder(env, draft, proxies);
  }

  // ------------------------------------------------------------- a draft not yet saved

  /** Nobody lists `id`, and no stored profile has it. */
  predicate IsUnlisted(stored: seq<Profile>, draft: Profile, id: Id) {
    && id !in IdsOf(stored) && id !in draft.protocol.ChildIds()
    && forall p :: p in stored ==> id !in p.protocol.ChildIds()
  }

  /** `m` with one more profile, the draft under the id it is checked or saved under. */
  ghost predicate IsIndexOf(index: V.Index, m: map<Id, Profile>, draft: Profile, id: Id) {
    index.Valid() && index.profiles == m[id := draft.(indexId := id)]
  }

  lemma NewDraftIndex(stored: seq<Profile>, draft: Profile)
    requires WellFormedIds(stored) && Trim(draft.indexId) == ""
    ensures IsIndexOf(V.DraftIndex(draft, stored + [draft]), V.ProfilesById(stored).profiles, draft,
                      V.EffectiveProfileId(draft))
  {
    assert (stored + [draft])[..|stored|] == stored;
  }

  lemma SavedDraftIndex(stored: seq<Profile>, draft: Profile, saved: Profile)
    requires WellFormedIds(stored) && saved == draft.(indexId := saved.indexId)
    requires Trim(saved.indexId) == saved.indexId != ""
    ensures IsIndexOf(V.DraftIndex(saved, stored + [saved]), V.ProfilesById(stored).profiles, draft, saved.indexId)
    ensures V.EffectiveProfileId(saved) == saved.indexId
  {
    assert (stored + [saved])[..|stored|] == stored;
    assert saved.(indexId := saved.indexId) == saved;
  }

  /** Where the draft is kept under another id, only edges from it move. */
  lemma DraftEdgesMove(stored: seq<Profile>, draft: Profile, m: map<Id, Profile>, a: V.Index, b: V.Index,
                       r: Id, q: Id, passes: V.Passes, g: Graph, h: Graph)
    requires Tabulates(m, stored) && draft.IsGroup()
    requires IsUnlisted(stored, draft, r) && IsUnlisted(stored, draft, q)
    requires IsIndexOf(a, m, draft, r) && IsIndexOf(b, m, draft, q)
    requires V.Depicts(g, a, passes) && V.Depicts(h, b, passes)
    ensures OnlyRootsDiffer(g, h, r, q)
  {
    assert forall id :: id in m ==> m[id] in stored && id in IdsOf(stored);
    forall x, id | id == r || id == q ensures !Edge(g, x, id) && !Edge(h, x, id) {
      assert x in m ==> id !in m[x].protocol.ChildIds();
    }
    forall y ensures Edge(g, r, y) <==> Edge(h, q, y) {
      assert y != r && y != q ==> (y in a.profiles <==> y in b.profiles);
    }
    forall x, y | x != r && x != q ensures Edge(g, x, y) <==> Edge(h, x, y) {
      assert y != r && y != q ==> (y in a.profiles <==> y in b.profiles);
    }
  }

  lemma NewDraftCycles(stored: seq<Profile>, draft: Profile, saved: Profile, passes: V.Passes)
    requires WellFormedIds(stored) && draft.IsGroup() && Trim(draft.indexId) == ""
    requires saved == draft.(indexId := saved.indexId) && Trim(saved.indexId) == saved.indexId != ""
    requires IsUnlisted(stored, draft, saved.indexId) && IsUnlisted(stored, draft, V.EffectiveProfileId(draft))
    ensures V.ReportsCycle(V.Validate(draft, stored + [draft], passes).report)
            <==> V.ReportsCycle(V.Validate(saved, stored + [saved], passes).report)
  {
    var a, b := V.DraftIndex(draft, stored + [draft]), V.DraftIndex(saved, stored + [saved]);
    var g, h := V.GroupGraph(a, passes), V.GroupGraph(b, passes);
    var r, q, m := V.EffectiveProfileId(draft), saved.indexId, V.ProfilesById(stored).profiles;
    NewDraftIndex(stored, draft);
    SavedDraftIndex(stored, draft, saved);
    V.GroupGraphDepicts(a, passes);
    V.GroupGraphDepicts(b, passes);
    IndexIsLookup(stored);
    DraftEdgesMove(stored, draft, m, a, b, r, q, passes, g, h);
    V.ValidateReportsCycles(g, draft, stored + [draft], passes);
    V.ValidateReportsCycles(h, saved, stored + [saved], passes);
    RenamedEitherWay(g, h, r, q);
  }

  lemma RenamedEitherWay(g: Graph, h: Graph, r: Id, q: Id)
    requires OnlyRootsDiffer(g, h, r, q)
    ensures ReachesCycle(g, r) <==> ReachesCycle(h, q)
  {
    if ReachesCycle(g, r) {
      RootRenamed(g, h, r, q);
    }
    if ReachesCycle(h, q) {
      RootRenamed(h, g, q, r);
    }
  }

  /**
   * A draft without an id is checked under a placeholder and saved under a new id: the check
   * reports a cycle exactly when the builder would cut one while it registers the saved group.
   */
  lemma NewDraftAgreesWithBuilder(env: Env, stored: seq<Profile>, draft: Profile, saved: Profile, proxies: Proxies)
    requires WellFormedIds(stored) && draft.IsGroup() && Trim(draft.indexId) == ""
    requires saved == draft.(indexId := saved.indexId) && Trim(saved.indexId) == saved.indexId != ""
    requires IsUnlisted(stored, draft, saved.indexId) && IsUnlisted(stored, draft, V.EffectiveProfileId(draft))
    requires env.profiles == stored + [saved]
    ensures V.ReportsCycle(V.Validate(draft, stored + [draft], env.passes).report)
            <==> RegisterGroup(env, saved, proxies).result.MentionsCycle()
  {
    assert WellFormedIds(env.profiles) by {
      forall i, j | 0 <= i < j < |env.profiles| ensures env.profiles[i].indexId != env.profiles[j].indexId {
        assert stored[i] in stored;
      }
    }
    assert saved in env.profiles;
    NewDraftCycles(stored, draft, saved, env.passes);
    ValidatorAgreesWithBuilder(env, saved, proxies);
  }
}
