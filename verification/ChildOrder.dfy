/**
 * The order of children: where each stored list has its ids from, and that they stand in
 * the order in which the profiles and the group offer them.
 */
module ChildOrder {
  import opened Text
  import opened Digraph
  import opened Profiles

  // ------------------------------------------------------------------ lists by positions

  predicate Increasing(at: seq<nat>) {
    forall k, l :: 0 <= k < l < |at| ==> at[k] < at[l]
  }

  /** `r` holds the elements of `s` that satisfy `keep`, and `at` says where they are from. */
  ghost predicate Picks<T(!new)>(s: seq<T>, keep: T -> bool, r: seq<T>, at: seq<nat>) {
    && |at| == |r| && Increasing(at)
    && (forall k :: 0 <= k < |r| ==> at[k] < |s| && r[k] == s[at[k]] && keep(r[k]))
    && (forall i: nat :: i < |s| && keep(s[i]) ==> i in at)
  }

  function Shifted(at: seq<nat>, gap: nat): (r: seq<nat>)
    ensures |r| == |at| && forall k :: 0 <= k < |at| ==> r[k] == at[k] + gap
  {
    seq(|at|, k requires 0 <= k < |at| => at[k] + gap)
  }

  lemma ShiftedHas(at: seq<nat>, gap: nat, i: nat)
    requires i in at
    ensures i + gap in Shifted(at, gap)
  {
    var k :| 0 <= k < |at| && at[k] == i;
    assert Shifted(at, gap)[k] == i + gap;
  }

  lemma {:induction false} FilterPicks<T(!new)>(s: seq<T>, keep: T -> bool) returns (at: seq<nat>)
    ensures Picks(s, keep, Filter(s, keep), at)
  {
    if s == [] {
      at := [];
    } else {
      var rest := FilterPicks(s[1..], keep);
      var moved := Shifted(rest, 1);
      MovedPicks(s, keep, Filter(s[1..], keep), rest);
      if keep(s[0]) {
        at := [0] + moved;
        FirstPicked(s, keep, Filter(s[1..], keep), moved);
      } else {
        at := moved;
        assert [] + Filter(s[1..], keep) == Filter(s[1..], keep);
      }
    }
  }

  /** Places in the tail, seen from the whole list. */
  ghost predicate PicksBehind<T(!new)>(s: seq<T>, keep: T -> bool, r: seq<T>, at: seq<nat>) {
    && |at| == |r| && Increasing(at)
    && (forall k :: 0 <= k < |r| ==> 1 <= at[k] < |s| && r[k] == s[at[k]] && keep(r[k]))
    && (forall i: nat :: 1 <= i < |s| && keep(s[i]) ==> i in at)
  }

  lemma MovedPicks<T(!new)>(s: seq<T>, keep: T -> bool, r: seq<T>, at: seq<nat>)
    requires s != [] && Picks(s[1..], keep, r, at)
    ensures PicksBehind(s, keep, r, Shifted(at, 1))
  {
    forall k | 0 <= k < |r| ensures 1 <= at[k] + 1 < |s| && r[k] == s[at[k] + 1] && keep(r[k]) {
      assert s[1..][at[k]] == s[at[k] + 1];
    }
    forall i: nat | 1 <= i < |s| && keep(s[i]) ensures i in Shifted(at, 1) {
      assert s[1..][i - 1] == s[i];
      ShiftedHas(at, 1, i - 1);
    }
  }

  lemma FirstPicked<T(!new)>(s: seq<T>, keep: T -> bool, r: seq<T>, at: seq<nat>)
    requires s != [] && keep(s[0]) && PicksBehind(s, keep, r, at)
    ensures Picks(s, keep, [s[0]] + r, [0] + at)
  {
    var all := [0] + at;
    forall i: nat | i < |s| && keep(s[i]) ensures i in all {
      assert i > 0 ==> i in at;
    }
  }

  // ------------------------------------------------------------------ what a group offers

  /**
   * Position `n` of what a group offers: first come the stored profiles that belong to its
   * subscription and pass its filter, then the ids that it lists and that are stored.
   */
  predicate OffersAt(env: Env, protocol: Protocol, n: nat, id: Id) {
    var stored, listed := |env.profiles|, protocol.ChildIds();
    if n < stored then env.profiles[n].indexId == id && IsMember(env, protocol, env.profiles[n])
    else n - stored < |listed| && listed[n - stored] == id && id in IdsOf(env.profiles)
  }

  /** A server without errors of the subscription that the policy group draws on, let through by its filter. */
  predicate IsMember(env: Env, protocol: Protocol, p: Profile) {
    match protocol
    case PolicyGroup(_, Some(source), filter) =>
      p.subscription == Some(source) && p.protocol == Server && p.nodeErrors == [] && env.passes(filter, p.remarks)
    case _ => false
  }

  predicate OffersFirstAt(env: Env, protocol: Protocol, n: nat, id: Id) {
    OffersAt(env, protocol, n, id) && forall m: nat :: m < n ==> !OffersAt(env, protocol, m, id)
  }

  /** The ids stand in the order in which the group first offers them, so none stands twice. */
  ghost predicate InOrder(env: Env, protocol: Protocol, ids: seq<Id>) {
    exists at: seq<nat> :: AreFirstOffers(env, protocol, ids, at)
  }

  ghost predicate AreFirstOffers(env: Env, protocol: Protocol, ids: seq<Id>, at: seq<nat>) {
    && |at| == |ids| && Increasing(at)
    && forall k :: 0 <= k < |ids| ==> OffersFirstAt(env, protocol, at[k], ids[k])
  }

  lemma InOrderIsUnique(env: Env, protocol: Protocol, ids: seq<Id>)
    requires InOrder(env, protocol, ids)
    ensures forall k, l :: 0 <= k < l < |ids| ==> ids[k] != ids[l]
  {
    var at :| AreFirstOffers(env, protocol, ids, at);
    forall k, l | 0 <= k < l < |ids| ensures ids[k] != ids[l] {
      assert OffersFirstAt(env, protocol, at[k], ids[k]) && OffersFirstAt(env, protocol, at[l], ids[l]);
    }
  }

  function IdsInOrder(profiles: seq<Profile>): (ids: seq<Id>)
    ensures |ids| == |profiles| && forall k :: 0 <= k < |ids| ==> ids[k] == profiles[k].indexId
  {
    seq(|profiles|, k requires 0 <= k < |profiles| => profiles[k].indexId)
  }

  /** Looking up a list of ids gives the profiles of those that are stored, at their places. */
  lemma {:induction false} OrderedByIdsInOrder(env: Env, ids: seq<Id>)
    ensures IdsInOrder(env.OrderedByIds(ids)) == Filter(ids, id => id in IdsOf(env.profiles))
  {
    if ids != [] {
      var found := Find(env.profiles, ids[0]);
      var head := if found.Some? then [found.value] else [];
      OrderedByIdsInOrder(env, ids[1..]);
      assert env.OrderedByIds(ids) == head + env.OrderedByIds(ids[1..]);
      assert IdsInOrder(head + env.OrderedByIds(ids[1..])) == IdsInOrder(head) + IdsInOrder(env.OrderedByIds(ids[1..]));
      assert IdsInOrder(head) == if ids[0] in IdsOf(env.profiles) then [ids[0]] else [];
    }
  }

  /** `at` says which offer each child profile is, and no offer is missing. */
  ghost predicate AreOffers(env: Env, protocol: Protocol, kids: seq<Profile>, at: seq<nat>) {
    && |at| == |kids| && Increasing(at)
    && (forall k :: 0 <= k < |kids| ==> OffersAt(env, protocol, at[k], kids[k].indexId))
    && (forall n: nat, id :: OffersAt(env, protocol, n, id) ==> n in at)
  }

  /** The child profiles of a group are its offers, in that order. */
  lemma ChildProfilesOffered(env: Env, protocol: Protocol) returns (at: seq<nat>)
    ensures AreOffers(env, protocol, env.ChildProfiles(protocol), at)
  {
    var members := FilterPicks(env.profiles, p => env.IsSubscriptionChild(protocol, p));
    var listed := FilterPicks(protocol.ChildIds(), id => id in IdsOf(env.profiles));
    OrderedByIdsInOrder(env, protocol.ChildIds());
    at := members + Shifted(listed, |env.profiles|);
    OffersJoin(env, protocol, env.SubscriptionChildren(protocol), env.SelectedChildren(protocol), members, listed);
  }

  lemma MemberIsChild(env: Env, protocol: Protocol, p: Profile)
    ensures env.IsSubscriptionChild(protocol, p) <==> IsMember(env, protocol, p)
  {
  }

  /** A member at its place is offered there. */
  lemma MemberOffered(env: Env, protocol: Protocol, a: seq<Profile>, members: seq<nat>, k: nat)
    requires Picks(env.profiles, p => env.IsSubscriptionChild(protocol, p), a, members) && k < |a|
    ensures members[k] < |env.profiles| && OffersAt(env, protocol, members[k], a[k].indexId)
  {
    MemberIsChild(env, protocol, a[k]);
  }

  lemma ListedOffered(env: Env, protocol: Protocol, b: seq<Profile>, listed: seq<nat>, k: nat)
    requires Picks(protocol.ChildIds(), id => id in IdsOf(env.profiles), IdsInOrder(b), listed) && k < |b|
    ensures OffersAt(env, protocol, listed[k] + |env.profiles|, b[k].indexId)
  {
    assert IdsInOrder(b)[k] == b[k].indexId;
  }

  lemma OfferFound(env: Env, protocol: Protocol, a: seq<Profile>, b: seq<Profile>, members: seq<nat>, listed: seq<nat>,
                   n: nat, id: Id)
    requires Picks(env.profiles, p => env.IsSubscriptionChild(protocol, p), a, members)
    requires Picks(protocol.ChildIds(), id => id in IdsOf(env.profiles), IdsInOrder(b), listed)
    requires OffersAt(env, protocol, n, id)
    ensures n in members + Shifted(listed, |env.profiles|)
  {
    if n < |env.profiles| {
      MemberIsChild(env, protocol, env.profiles[n]);
    } else {
      ShiftedHas(listed, |env.profiles|, n - |env.profiles|);
    }
  }

  lemma OffersJoin(env: Env, protocol: Protocol, a: seq<Profile>, b: seq<Profile>, members: seq<nat>, listed: seq<nat>)
    requires Picks(env.profiles, p => env.IsSubscriptionChild(protocol, p), a, members)
    requires Picks(protocol.ChildIds(), id => id in IdsOf(env.profiles), IdsInOrder(b), listed)
    ensures AreOffers(env, protocol, a + b, members + Shifted(listed, |env.profiles|))
  {
    var at, kids := members + Shifted(listed, |env.profiles|), a + b;
    forall k | 0 <= k < |kids| ensures OffersAt(env, protocol, at[k], kids[k].indexId) {
      if k < |a| {
        MemberOffered(env, protocol, a, members, k);
      } else {
        ListedOffered(env, protocol, b, listed, k - |a|);
      }
    }
    forall n: nat, id | OffersAt(env, protocol, n, id) ensures n in at {
      OfferFound(env, protocol, a, b, members, listed, n, id);
    }
    PlacesAscend(env.profiles, members, listed);
  }

  lemma PlacesAscend(profiles: seq<Profile>, members: seq<nat>, listed: seq<nat>)
    requires Increasing(members) && Increasing(listed) && forall k :: 0 <= k < |members| ==> members[k] < |profiles|
    ensures Increasing(members + Shifted(listed, |profiles|))
  {
  }
}
