/** The list of children that a draft check returns: the listed ones in their order, then the rest of the subscription. */
module DraftOrder {
  import opened Text
  import opened Digraph
  import opened Profiles
  import opened GroupValidation
  import opened DraftIndexOrder
  import opened DraftWarnings

  predicate FirstIn(listed: seq<Id>, n: nat, id: Id) {
    n < |listed| && listed[n] == id && id !in listed[..n]
  }

  /** `at` says where each id is listed for the first time; the places ascend. */
  ghost predicate ListedAt(listed: seq<Id>, ids: seq<Id>, at: seq<nat>) {
    && |at| == |ids|
    && (forall k :: 0 <= k < |ids| ==> FirstIn(listed, at[k], ids[k]))
    && (forall k, l :: 0 <= k < l < |at| ==> at[k] < at[l])
  }

  ghost predicate InListOrder(listed: seq<Id>, ids: seq<Id>) {
    exists at: seq<nat> :: ListedAt(listed, ids, at)
  }

  /** First what the group lists, in that order, then other members of its subscription by id. */
  ghost predicate InDraftOrder(p: Profile, index: Index, passes: Passes, ids: seq<Id>) {
    exists n: nat :: n <= |ids| && SplitsAt(p, index, passes, ids, n)
  }

  ghost predicate SplitsAt(p: Profile, index: Index, passes: Passes, ids: seq<Id>, n: nat)
    requires n <= |ids|
  {
    && InListOrder(p.protocol.ChildIds(), ids[..n])
    && Ascending(ids[n..])
    && forall id :: id in ids[n..] ==>
         id in index.profiles && id !in p.protocol.ChildIds() && Belongs(p.protocol, passes, index.profiles[id])
  }

  /** The ids found in the first `j` listed ones stand at their first places, and none is missing. */
  ghost predicate FoundUpTo(index: Index, listed: seq<Id>, j: nat, ids: seq<Id>, at: seq<nat>) {
    && j <= |listed| && ListedAt(listed, ids, at)
    && (forall k :: 0 <= k < |at| ==> at[k] < j)
    && (forall i :: 0 <= i < j && listed[i] in index.profiles ==> listed[i] in ids)
  }

  lemma FoundNext(index: Index, listed: seq<Id>, j: nat, ids: seq<Id>, at: seq<nat>)
    requires j < |listed| && FoundUpTo(index, listed, j, ids, at)
    requires listed[j] in index.profiles && listed[j] !in ids
    requires forall i :: 0 <= i < j && listed[i] == listed[j] ==> listed[i] in index.profiles
    ensures FoundUpTo(index, listed, j + 1, ids + [listed[j]], at + [j])
  {
    forall i | 0 <= i < j ensures listed[i] != listed[j] {
    }
    assert listed[j] !in listed[..j];
  }

  lemma {:induction false} AddExplicitInOrder(index: Index, listed: seq<Id>, j: nat, reportMissing: bool, found: Found,
                                              at: seq<nat>)
    requires FoundUpTo(index, listed, j, found.ids, at)
    ensures InListOrder(listed, AddExplicit(index, listed[j..], reportMissing, found).ids)
    decreases |listed| - j
  {
    if j < |listed| {
      var id := listed[j];
      var next :=
        if id in index.profiles then PushChild(found, id)
        else if reportMissing then found.(report := found.report.(errors := found.report.errors + [ChildNotFound(id)]))
        else found;
      assert listed[j..][0] == id && listed[j..][1..] == listed[j + 1..];
      if id in index.profiles && id !in found.ids {
        FoundNext(index, listed, j, found.ids, at);
        AddExplicitInOrder(index, listed, j + 1, reportMissing, next, at + [j]);
      } else {
        AddExplicitInOrder(index, listed, j + 1, reportMissing, next, at);
      }
    }
  }

  /** Members come behind what is there already, in their own order. */
  lemma {:induction false} AddMembersAppends(ids: seq<Id>, found: Found)
    requires NoneTwice(ids)
    ensures AddMembers(ids, found).ids == found.ids + Filter(ids, id => id !in found.ids)
    decreases |ids|
  {
    if ids != [] {
      var next := PushChild(found, ids[0]);
      AddMembersAppends(ids[1..], next);
      assert ids[0] !in ids[1..];
      FilterAlike(ids[1..], id => id !in next.ids, id => id !in found.ids);
      if ids[0] in found.ids {
        assert Filter(ids, id => id !in found.ids) == [] + Filter(ids[1..], id => id !in found.ids);
      } else {
        assert found.ids + [ids[0]] + Filter(ids[1..], id => id !in found.ids)
            == found.ids + ([ids[0]] + Filter(ids[1..], id => id !in found.ids));
      }
    }
  }

  lemma {:induction false} FilterAlike(s: seq<Id>, keep: Id -> bool, other: Id -> bool)
    requires forall id :: id in s ==> keep(id) == other(id)
    ensures Filter(s, keep) == Filter(s, other)
  {
    if s != [] {
      FilterAlike(s[1..], keep, other);
    }
  }

  lemma {:induction false} FilterAscends(s: seq<Id>, keep: Id -> bool)
    requires Ascending(s)
    ensures Ascending(Filter(s, keep))
  {
    if s != [] {
      var rest := Filter(s[1..], keep);
      FilterAscends(s[1..], keep);
      FilterMembers(s[1..], keep);
      forall j | 0 <= j < |rest| ensures Less(s[0], rest[j]) {
        assert rest[j] in rest;
        var i :| 0 <= i < |s[1..]| && s[1..][i] == rest[j];
        assert s[i + 1] == rest[j];
      }
    }
  }

  lemma MembersInOrder(index: Index, protocol: Protocol, passes: Passes, known: seq<Id>)
    requires index.Valid() && Ascending(index.keys)
    ensures var added := Filter(Members(index, protocol, passes), id => id !in known);
            && Ascending(added)
            && forall id :: id in added ==>
                 id !in known && id in index.profiles && IsMember(protocol, passes, index.profiles[id])
  {
    FilterAscends(index.keys, id => id in index.profiles && IsMember(protocol, passes, index.profiles[id]));
    FilterAscends(Members(index, protocol, passes), id => id !in known);
    FilterMembers(Members(index, protocol, passes), id => id !in known);
  }

  /** The effective children of a group stand in that order. */
  lemma EffectiveChildrenInOrder(p: Profile, index: Index, passes: Passes, report: Report, reportMissing: bool)
    requires index.Valid() && Ascending(index.keys)
    ensures InDraftOrder(p, index, passes, EffectiveChildIds(p, index, passes, report, reportMissing).ids)
  {
    var listed := p.protocol.ChildIds();
    var explicit := AddExplicit(index, listed, reportMissing, Found([], report));
    var ids := EffectiveChildIds(p, index, passes, report, reportMissing).ids;
    assert FoundUpTo(index, listed, 0, [], []);
    assert listed[0..] == listed;
    AddExplicitInOrder(index, listed, 0, reportMissing, Found([], report), []);
    AddExplicitFinds(index, listed, reportMissing, Found([], report));
    AscendingNoneTwice(index.keys);
    FilterNoneTwice(index.keys, id => id in index.profiles && IsMember(p.protocol, passes, index.profiles[id]));
    AddMembersAppends(Members(index, p.protocol, passes), explicit);
    MembersInOrder(index, p.protocol, passes, explicit.ids);
    assert ids[..|explicit.ids|] == explicit.ids;
    assert ids[|explicit.ids|..] == Filter(Members(index, p.protocol, passes), id => id !in explicit.ids);
    assert SplitsAt(p, index, passes, ids, |explicit.ids|);
  }

  lemma DraftOrderNoneTwice(p: Profile, index: Index, passes: Passes, ids: seq<Id>)
    requires InDraftOrder(p, index, passes, ids)
    ensures NoneTwice(ids)
  {
    var n: nat :| n <= |ids| && SplitsAt(p, index, passes, ids, n);
    var listed := p.protocol.ChildIds();
    var at :| ListedAt(listed, ids[..n], at);
    AscendingNoneTwice(ids[n..]);
    forall i, j | 0 <= i < j < |ids| ensures ids[i] != ids[j] {
      if j < n {
        assert FirstIn(listed, at[i], ids[..n][i]) && FirstIn(listed, at[j], ids[..n][j]);
        assert listed[at[i]] in listed[..at[j]];
      } else if i < n {
        assert FirstIn(listed, at[i], ids[..n][i]);
        assert ids[n..][j - n] in ids[n..];
      } else {
        assert ids[n..][i - n] == ids[i] && ids[n..][j - n] == ids[j];
      }
    }
  }
}
