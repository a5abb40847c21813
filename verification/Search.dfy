/** The first occurrence of a pattern, as `str::find` reports it. */
module Search {
  import opened Text

  predicate OccursAt(s: string, pattern: string, i: nat) {
    i + |pattern| <= |s| && forall k :: 0 <= k < |pattern| ==> s[i + k] == pattern[k]
  }

  predicate IsFirst(s: string, pattern: string, i: nat) {
    OccursAt(s, pattern, i) && forall j: nat :: j < i ==> !OccursAt(s, pattern, j)
  }

  function Find(s: string, pattern: string): (r: Option<nat>)
    ensures r.Some? ==> r.value + |pattern| <= |s|
  {
    if exists i: nat :: i <= |s| && IsFirst(s, pattern, i) then
      var i: nat :| i <= |s| && IsFirst(s, pattern, i);
      Some(i)
    else None
  }

  lemma {:induction false} FirstExists(s: string, pattern: string, j: nat)
    requires OccursAt(s, pattern, j)
    ensures exists i: nat :: i <= |s| && IsFirst(s, pattern, i)
  {
    if i: nat :| i < j && OccursAt(s, pattern, i) {
      FirstExists(s, pattern, i);
    } else {
      assert IsFirst(s, pattern, j);
    }
  }

  /** The search gives the first occurrence, or there is none. */
  lemma FindFirst(s: string, pattern: string)
    ensures match Find(s, pattern)
            case Some(i) => IsFirst(s, pattern, i)
            case None => forall j: nat :: !OccursAt(s, pattern, j)
  {
    if j: nat :| OccursAt(s, pattern, j) {
      FirstExists(s, pattern, j);
    }
  }

  lemma OccurrenceStarts(s: string, pattern: string, j: nat)
    requires pattern != [] && OccursAt(s, pattern, j)
    ensures s[j] == pattern[0]
  {
    assert s[j..j + |pattern|][0] == s[j];
  }

  lemma OccurrenceReads(s: string, pattern: string, j: nat, i: nat)
    requires OccursAt(s, pattern, j) && i < |pattern|
    ensures s[j + i] == pattern[i]
  {
    assert s[j..j + |pattern|][i] == s[j + i];
  }

  /** A pattern is found right after text that its first character does not occur in. */
  lemma FindAfter(before: string, pattern: string, after: string)
    requires pattern != [] && pattern[0] !in before
    ensures Find(before + pattern + after, pattern) == Some(|before|)
  {
    var s := before + pattern + after;
    assert s[|before|..|before| + |pattern|] == pattern;
    assert OccursAt(s, pattern, |before|);
    forall j: nat | j < |before| ensures !OccursAt(s, pattern, j) {
      if OccursAt(s, pattern, j) {
        OccurrenceStarts(s, pattern, j);
      }
    }
    FindFirst(s, pattern);
  }

  lemma FindNowhere(s: string, pattern: string)
    requires pattern != [] && pattern[0] !in s
    ensures Find(s, pattern) == None
  {
    forall j: nat ensures !OccursAt(s, pattern, j) {
      if OccursAt(s, pattern, j) {
        OccurrenceStarts(s, pattern, j);
      }
    }
    FindFirst(s, pattern);
  }

  predicate StartsWith(s: string, pattern: string) {
    |pattern| <= |s| && s[..|pattern|] == pattern
  }

  /** Every occurrence replaced, from the left and without overlap, as `str::replace` does it. */
  function ReplaceAll(s: string, pattern: string, with: string): string
    requires pattern != []
    decreases |s|
  {
    if s == [] then []
    else if StartsWith(s, pattern) then with + ReplaceAll(s[|pattern|..], pattern, with)
    else [s[0]] + ReplaceAll(s[1..], pattern, with)
  }

  lemma {:induction false} ReplaceNothing(s: string, pattern: string, with: string)
    requires pattern != [] && pattern[0] !in s
    ensures ReplaceAll(s, pattern, with) == s
  {
    if s != [] {
      ReplaceNothing(s[1..], pattern, with);
    }
  }
}
