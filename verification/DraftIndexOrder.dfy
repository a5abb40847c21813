/** The ordered map of the draft check: which profile each id stands for, and the order of its keys. */
module DraftIndexOrder {
  import opened Text
  import opened Digraph
  import opened Profiles
  import opened GroupValidation

  // ------------------------------------------------------------------- the order of keys

  lemma {:induction false} LessTransitive(a: string, b: string, c: string)
    requires Less(a, b) && Less(b, c)
    ensures Less(a, c)
  {
    if a != [] && a[0] == b[0] && b[0] == c[0] {
      LessTransitive(a[1..], b[1..], c[1..]);
    }
  }

  lemma {:induction false} LessIrreflexive(a: string)
    ensures !Less(a, a)
  {
    if a != [] {
      LessIrreflexive(a[1..]);
    }
  }

  lemma {:induction false} LessTotal(a: string, b: string)
    ensures Less(a, b) || a == b || Less(b, a)
  {
    if a != [] && b != [] && a[0] == b[0] {
      LessTotal(a[1..], b[1..]);
      assert a == [a[0]] + a[1..] && b == [b[0]] + b[1..];
    }
  }

  ghost predicate Ascending(keys: seq<Id>) {
    forall i, j :: 0 <= i < j < |keys| ==> Less(keys[i], keys[j])
  }

  lemma {:induction false} InsertKeyAscends(keys: seq<Id>, id: Id)
    requires Ascending(keys)
    ensures Ascending(InsertKey(keys, id))
  {
    if keys != [] && keys[0] != id {
      LessTotal(id, keys[0]);
      if Less(id, keys[0]) {
        forall j | 0 <= j < |keys| ensures Less(id, keys[j]) {
          if j > 0 {
            LessTransitive(id, keys[0], keys[j]);
          }
        }
      } else {
        var rest := InsertKey(keys[1..], id);
        InsertKeyAscends(keys[1..], id);
        forall j | 0 <= j < |rest| ensures Less(keys[0], rest[j]) {
          assert rest[j] in rest;
        }
      }
    }
  }

  lemma {:induction false} ProfilesByIdAscends(profiles: seq<Profile>)
    ensures Ascending(ProfilesById(profiles).keys)
  {
    if profiles != [] {
      var last := profiles[|profiles| - 1];
      var rest := ProfilesById(profiles[..|profiles| - 1]);
      ProfilesByIdAscends(profiles[..|profiles| - 1]);
      InsertKeyAscends(rest.keys, last.indexId);
    }
  }

  lemma DraftIndexAscends(draft: Profile, profiles: seq<Profile>)
    ensures Ascending(DraftIndex(draft, profiles).keys)
  {
    ProfilesByIdAscends(profiles);
    InsertKeyAscends(ProfilesById(profiles).keys, EffectiveProfileId(draft));
  }

  // ------------------------------------------------------------------- what ids stand for

  /** `p` is the last stored profile with this id. */
  ghost predicate IsLastWith(profiles: seq<Profile>, id: Id, p: Profile) {
    exists i: nat :: i < |profiles| && profiles[i] == p && IsLastAt(profiles, id, i)
  }

  ghost predicate IsLastAt(profiles: seq<Profile>, id: Id, i: nat)
    requires i < |profiles|
  {
    profiles[i].indexId == id && forall j :: i < j < |profiles| ==> profiles[j].indexId != id
  }

  ghost predicate NobodyHas(profiles: seq<Profile>, id: Id) {
    forall p :: p in profiles ==> p.indexId != id
  }

  lemma LastOf(before: seq<Profile>, last: Profile, id: Id, p: Profile)
    requires if last.indexId == id then p == last else IsLastWith(before, id, p)
    ensures IsLastWith(before + [last], id, p)
  {
    var all := before + [last];
    if last.indexId == id {
      assert IsLastAt(all, id, |before|);
    } else {
      var i: nat :| i < |before| && before[i] == p && IsLastAt(before, id, i);
      assert IsLastAt(all, id, i);
    }
  }

  /** The index holds the last profile of every id that is not blank, and nothing else. */
  lemma {:induction false} ProfilesByIdExact(profiles: seq<Profile>, id: Id)
    ensures var found := ProfilesById(profiles).profiles;
            if id in found then Trim(id) != "" && IsLastWith(profiles, id, found[id])
            else Trim(id) == "" || NobodyHas(profiles, id)
  {
    if profiles != [] {
      var before, last := profiles[..|profiles| - 1], profiles[|profiles| - 1];
      ProfilesByIdExact(before, id);
      assert profiles == before + [last];
      if id in ProfilesById(profiles).profiles {
        LastOf(before, last, id, ProfilesById(profiles).profiles[id]);
      }
    }
  }

  /** The draft stands for its own id, every other id for the last stored profile that has it. */
  lemma DraftIndexExact(draft: Profile, profiles: seq<Profile>, id: Id)
    ensures var found := DraftIndex(draft, profiles).profiles;
            var own := if Trim(draft.indexId) == "" then "__draft_group__" else Trim(draft.indexId);
            if id == own then id in found && found[id] == draft.(indexId := own)
            else if id in found then Trim(id) != "" && IsLastWith(profiles, id, found[id])
            else Trim(id) == "" || NobodyHas(profiles, id)
  {
    ProfilesByIdExact(profiles, id);
  }
}
