/** Small facts about strings and sequences shared by every other module. */
module Text {

  datatype Option<+T> = None | Some(value: T)

  /** The Unicode `White_Space` property, which `char::is_whitespace` tests. */
  predicate IsWhitespace(c: char) {
    || '\U{9}' <= c <= '\U{D}'
    || c == ' '
    || c == '\U{85}'
    || c == '\U{A0}'
    || c == '\U{1680}'
    || '\U{2000}' <= c <= '\U{200A}'
    || c == '\U{2028}'
    || c == '\U{2029}'
    || c == '\U{202F}'
    || c == '\U{205F}'
    || c == '\U{3000}'
  }

  function TrimStart(s: string): string {
    if s != [] && IsWhitespace(s[0]) then TrimStart(s[1..]) else s
  }

  function TrimEnd(s: string): string {
    if s != [] && IsWhitespace(s[|s| - 1]) then TrimEnd(s[..|s| - 1]) else s
  }

  function Trim(s: string): string {
    TrimEnd(TrimStart(s))
  }

  /** The elements of `s` that satisfy `keep`, in order. */
  function Filter<T(!new)>(s: seq<T>, keep: T -> bool): seq<T> {
    if s == [] then []
    else (if keep(s[0]) then [s[0]] else []) + Filter(s[1..], keep)
  }

  lemma {:induction false} FilterMembers<T(!new)>(s: seq<T>, keep: T -> bool)
    ensures forall x :: x in Filter(s, keep) <==> x in s && keep(x)
  {
    if s != [] {
      FilterMembers(s[1..], keep);
    }
  }

  lemma {:induction false} FilterAppend<T(!new)>(s: seq<T>, t: seq<T>, keep: T -> bool)
    ensures Filter(s + t, keep) == Filter(s, keep) + Filter(t, keep)
  {
    if s == [] {
      assert s + t == t;
    } else {
      var head := if keep(s[0]) then [s[0]] else [];
      FilterAppend(s[1..], t, keep);
      assert (s + t)[0] == s[0] && (s + t)[1..] == s[1..] + t;
      assert head + (Filter(s[1..], keep) + Filter(t, keep)) == head + Filter(s[1..], keep) + Filter(t, keep);
    }
  }

  lemma {:induction false} FilterAll<T(!new)>(s: seq<T>, keep: T -> bool)
    requires forall x :: x in s ==> keep(x)
    ensures Filter(s, keep) == s
  {
    if s != [] {
      FilterAll(s[1..], keep);
    }
  }

  function WithoutWhitespace(s: string): string {
    Filter(s, c => !IsWhitespace(c))
  }

  lemma WithoutWhitespaceAppend(s: string, t: string)
    ensures WithoutWhitespace(s + t) == WithoutWhitespace(s) + WithoutWhitespace(t)
  {
    FilterAppend(s, t, c => !IsWhitespace(c));
  }

  lemma WithoutWhitespaceKeeps(s: string)
    requires forall c :: c in s ==> !IsWhitespace(c)
    ensures WithoutWhitespace(s) == s
  {
    FilterAll(s, c => !IsWhitespace(c));
  }

  lemma {:induction false} WhitespaceDropped(s: string)
    requires forall c :: c in s ==> IsWhitespace(c)
    ensures WithoutWhitespace(s) == ""
  {
    if s != "" {
      WhitespaceDropped(s[1..]);
    }
  }

  lemma NoWhitespaceLeft(s: string)
    ensures forall c :: c in WithoutWhitespace(s) ==> !IsWhitespace(c)
  {
    FilterMembers(s, c => !IsWhitespace(c));
  }

  predicate AllWhitespace(s: string) {
    forall c :: c in s ==> IsWhitespace(c)
  }

  predicate IsTrimmed(s: string) {
    s != "" ==> !IsWhitespace(s[0]) && !IsWhitespace(s[|s| - 1])
  }

  lemma {:induction false} TrimStartCuts(s: string)
    ensures |TrimStart(s)| <= |s| && s[|s| - |TrimStart(s)|..] == TrimStart(s)
    ensures AllWhitespace(s[..|s| - |TrimStart(s)|])
    ensures TrimStart(s) != "" ==> !IsWhitespace(TrimStart(s)[0])
  {
    if s != "" && IsWhitespace(s[0]) {
      TrimStartCuts(s[1..]);
      var k := |s| - |TrimStart(s)|;
      assert s[k..] == s[1..][k - 1..];
      assert s[..k] == [s[0]] + s[1..][..k - 1];
    }
  }

  lemma {:induction false} TrimEndCuts(s: string)
    ensures TrimEnd(s) <= s && AllWhitespace(s[|TrimEnd(s)|..])
    ensures TrimEnd(s) != "" ==> !IsWhitespace(TrimEnd(s)[|TrimEnd(s)| - 1])
  {
    var last := |s| - 1;
    if s != "" && IsWhitespace(s[last]) {
      TrimEndCuts(s[..last]);
      assert s[|TrimEnd(s)|..] == s[..last][|TrimEnd(s)|..] + [s[last]];
    }
  }

  lemma Rejoin(s: string, before: string, tail: string, core: string, after: string)
    requires |before| + |tail| == |s| && before == s[..|before|] && tail == s[|before|..]
    requires core <= tail && after == tail[|core|..]
    ensures s == before + core + after
  {
    assert tail == core + after && s == before + tail;
    assert before + (core + after) == before + core + after;
  }

  /** Trimming cuts whitespace off both ends, and all of it. */
  lemma TrimExact(s: string) returns (before: string, after: string)
    ensures s == before + Trim(s) + after && AllWhitespace(before) && AllWhitespace(after) && IsTrimmed(Trim(s))
  {
    var tail := TrimStart(s);
    TrimStartCuts(s);
    TrimEndCuts(tail);
    before, after := s[..|s| - |tail|], tail[|Trim(s)|..];
    Rejoin(s, before, tail, Trim(s), after);
    assert Trim(s) != "" ==> Trim(s)[0] == tail[0];
  }
}
