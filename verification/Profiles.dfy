/** Stored profiles and the lookups that core generation makes over a snapshot of them. */
module Profiles {
  import opened Text
  import opened Digraph

  /** `Server` stands for every protocol that dials one server itself. */
  datatype Protocol =
    | Server
    | Custom
    | PolicyGroup(childIds: seq<Id>, source: Option<string>, filter: Option<string>)
    | ProxyChain(childIds: seq<Id>)
  {
    predicate IsGroup() {
      PolicyGroup? || ProxyChain?
    }

    predicate IsComplex() {
      Custom? || IsGroup()
    }

    function ChildIds(): seq<Id> {
      if IsGroup() then childIds else []
    }

    function ReplaceChildIds(ids: seq<Id>): Protocol {
      if IsGroup() then this.(childIds := ids) else this
    }
  }

  /** `nodeErrors` is what the field checks of node validation report for a server. */
  datatype Profile = Profile(
    indexId: Id,
    remarks: string,
    subscription: Option<string>,
    protocol: Protocol,
    nodeErrors: seq<string>)
  {
    predicate IsGroup() {
      protocol.IsGroup()
    }

    function ValidationErrors(): seq<string> {
      if protocol.IsComplex() then [] else nodeErrors
    }

    predicate Accepted() {
      ValidationErrors() == []
    }

    function WithChildren(ids: seq<Id>): Profile {
      this.(protocol := protocol.ReplaceChildIds(ids))
    }
  }

  predicate UniqueIds(profiles: seq<Profile>) {
    forall i, j :: 0 <= i < j < |profiles| ==> profiles[i].indexId != profiles[j].indexId
  }

  function IdsOf(profiles: seq<Profile>): set<Id> {
    set p <- profiles :: p.indexId
  }

  function IdList(profiles: seq<Profile>): (r: seq<Id>)
    ensures forall id :: id in r <==> exists p :: p in profiles && p.indexId == id
  {
    if profiles == [] then [] else [profiles[0].indexId] + IdList(profiles[1..])
  }

  function Find(profiles: seq<Profile>, id: Id): (r: Option<Profile>)
    ensures r.Some? <==> id in IdsOf(profiles)
    ensures r.Some? ==> r.value in profiles && r.value.indexId == id
  {
    if profiles == [] then None
    else if profiles[0].indexId == id then Some(profiles[0])
    else
      assert forall p :: p in profiles <==> p == profiles[0] || p in profiles[1..];
      Find(profiles[1..], id)
  }

  function FindRemarks(profiles: seq<Profile>, remarks: string): (r: Option<Profile>)
    ensures r.Some? ==> r.value in profiles && r.value.remarks == remarks
  {
    if profiles == [] then None
    else if profiles[0].remarks == remarks then Some(profiles[0])
    else FindRemarks(profiles[1..], remarks)
  }

  /** Looking up a stored profile's own id finds that profile. */
  lemma FindSelf(profiles: seq<Profile>, p: Profile)
    requires UniqueIds(profiles) && p in profiles
    ensures Find(profiles, p.indexId) == Some(p)
  {
    var found := Find(profiles, p.indexId).value;
    var i :| 0 <= i < |profiles| && profiles[i] == p;
    var j :| 0 <= j < |profiles| && profiles[j] == found;
    if i < j { assert false; } else if j < i { assert false; }
  }

  /**
   * The snapshot that core generation reads. `passes(filter, remarks)` says whether
   * remarks pass an optional filter expression.
   */
  datatype Env = Env(profiles: seq<Profile>, passes: (Option<string>, string) -> bool) {

    function OrderedByIds(ids: seq<Id>): (r: seq<Profile>)
      ensures forall p :: p in r <==> p.indexId in ids && Find(profiles, p.indexId) == Some(p)
    {
      if ids == [] then []
      else
        (match Find(profiles, ids[0]) case Some(p) => [p] case None => [])
        + OrderedByIds(ids[1..])
    }

    function SelectedChildren(protocol: Protocol): seq<Profile> {
      OrderedByIds(protocol.ChildIds())
    }

    predicate IsSubscriptionChild(protocol: Protocol, p: Profile) {
      && protocol.PolicyGroup?
      && protocol.source.Some?
      && p.subscription == protocol.source
      && !p.protocol.IsComplex()
      && p.Accepted()
      && passes(protocol.filter, p.remarks)
    }

    function SubscriptionChildren(protocol: Protocol): (r: seq<Profile>)
      ensures forall p :: p in r <==> p in profiles && IsSubscriptionChild(protocol, p)
    {
      FilterMembers(profiles, p => IsSubscriptionChild(protocol, p));
      Filter(profiles, p => IsSubscriptionChild(protocol, p))
    }

    /** Subscription members first, then the explicitly selected profiles. */
    function ChildProfiles(protocol: Protocol): (r: seq<Profile>)
      ensures forall p :: p in r <==>
                            || (p in profiles && IsSubscriptionChild(protocol, p))
                            || (p.indexId in protocol.ChildIds() && Find(profiles, p.indexId) == Some(p))
      ensures !protocol.IsGroup() ==> r == []
    {
      assert SubscriptionChildren(protocol) == [] || SubscriptionChildren(protocol)[0] in SubscriptionChildren(protocol);
      SubscriptionChildren(protocol) + SelectedChildren(protocol)
    }
  }
}
