/** URL userinfo taken out of log lines (section 3.2.1 of RFC 3986), on the UTF-8 bytes of the line. */
module Redaction {
  import opened Text
  import opened Base64
  import Utf8

  // ----------------------------------------------------------------------- byte classes

  predicate IsAlpha(b: Byte) {
    0x41 <= b <= 0x5A || 0x61 <= b <= 0x7A
  }

  /** Letters, digits, `+`, `-` and `.`. */
  predicate IsSchemeByte(b: Byte) {
    IsAlpha(b) || 0x30 <= b <= 0x39 || b == 0x2B || b == 0x2D || b == 0x2E
  }

  /** ASCII whitespace and / ? # " ' ` < > ( ) [ ] { } , ; */
  predicate IsTerminator(b: Byte) {
    || b == 0x20 || b == 0x09 || b == 0x0A || b == 0x0C || b == 0x0D
    || b == 0x2F || b == 0x3F || b == 0x23 || b == 0x22 || b == 0x27 || b == 0x60
    || b == 0x3C || b == 0x3E || b == 0x28 || b == 0x29 || b == 0x5B || b == 0x5D
    || b == 0x7B || b == 0x7D || b == 0x2C || b == 0x3B
  }

  const COLON: Byte := 0x3A
  const SLASH: Byte := 0x2F
  const AT: Byte := 0x40
  const LESS: Byte := 0x3C

  /** `<redacted>@` */
  const MASK: seq<Byte> := [LESS, 0x72, 0x65, 0x64, 0x61, 0x63, 0x74, 0x65, 0x64, 0x3E, AT]

  // ---------------------------------------------------------------------------- scanners

  /** `://` at `i`. */
  predicate IsSeparator(b: seq<Byte>, i: nat) {
    i + 3 <= |b| && b[i] == COLON && b[i + 1] == SLASH && b[i + 2] == SLASH
  }

  function FindSeparator(b: seq<Byte>, from: nat): (r: Option<nat>)
    ensures r.Some? ==> from <= r.value && IsSeparator(b, r.value)
    decreases |b| - from
  {
    if |b| < from + 3 then None
    else if IsSeparator(b, from) then Some(from)
    else FindSeparator(b, from + 1)
  }

  function SchemeStart(b: seq<Byte>, index: nat): (r: nat)
    requires index <= |b|
    ensures r <= index && (r < index ==> IsSchemeByte(b[r]))
  {
    if index > 0 && IsSchemeByte(b[index - 1]) then SchemeStart(b, index - 1) else index
  }

  method FindSchemeStart(b: seq<Byte>, schemeEnd: nat) returns (index: nat)
    requires schemeEnd <= |b|
    ensures index == SchemeStart(b, schemeEnd)
  {
    index := schemeEnd;
    while index > 0 && IsSchemeByte(b[index - 1])
      invariant index <= schemeEnd
      invariant SchemeStart(b, index) == SchemeStart(b, schemeEnd)
    {
      index := index - 1;
    }
  }

  predicate IsValidScheme(scheme: seq<Byte>) {
    scheme != [] && IsAlpha(scheme[0]) && forall i :: 0 < i < |scheme| ==> IsSchemeByte(scheme[i])
  }

  /** The end of the authority that starts at `start`. */
  function AuthorityEnd(b: seq<Byte>, start: nat): (r: nat)
    requires start <= |b|
    ensures start <= r <= |b|
    decreases |b| - start
  {
    if start == |b| || IsTerminator(b[start]) then start else AuthorityEnd(b, start + 1)
  }

  function FirstAt(b: seq<Byte>, start: nat, end: nat): (r: Option<nat>)
    requires start <= end <= |b|
    ensures r.Some? ==> start <= r.value < end && b[r.value] == AT
    decreases end - start
  {
    if start == end then None
    else if b[start] == AT then Some(start)
    else FirstAt(b, start + 1, end)
  }

  // ----------------------------------------------------------------------- specification

  /** A valid scheme and `://`, at `e`. */
  predicate IsUrl(b: seq<Byte>, e: nat) {
    IsSeparator(b, e) && IsValidScheme(b[SchemeStart(b, e)..e])
  }

  /** The end of a userinfo that is not empty, behind the separator at `e`. */
  function UserinfoEnd(b: seq<Byte>, e: nat): Option<nat>
    requires e + 3 <= |b|
  {
    match FirstAt(b, e + 3, AuthorityEnd(b, e + 3))
    case None => None
    case Some(at) => if at == e + 3 then None else Some(at)
  }

  /** A stretch of bytes, its end left out. */
  datatype Span = Span(start: nat, end: nat)

  /** What is masked behind the separator at `e`: the userinfo with its `@`. */
  function SpanAt(b: seq<Byte>, e: nat): Option<Span>
    requires IsSeparator(b, e)
  {
    if !IsUrl(b, e) then None
    else
      match UserinfoEnd(b, e)
      case None => None
      case Some(at) => Some(Span(e + 3, at + 1))
  }

  /** Where the search goes on: behind the separator, or behind the whole authority of a URL. */
  function After(b: seq<Byte>, e: nat): (r: nat)
    requires IsSeparator(b, e)
    ensures e + 3 <= r <= |b|
  {
    if IsUrl(b, e) then AuthorityEnd(b, e + 3) else e + 3
  }

  /** The stretches masked from `from` on. */
  function Spans(b: seq<Byte>, from: nat): seq<Span>
    decreases |b| - from
  {
    match FindSeparator(b, from)
    case None => []
    case Some(e) => Cons(SpanAt(b, e), Spans(b, After(b, e)))
  }

  function Cons(span: Option<Span>, rest: seq<Span>): seq<Span> {
    if span.Some? then [span.value] + rest else rest
  }

  /** Spans inside the text from `from` on, in order and apart. */
  predicate Ordered(spans: seq<Span>, from: nat, length: nat) {
    if spans == [] then from <= length
    else from <= spans[0].start < spans[0].end <= length && Ordered(spans[1..], spans[0].end, length)
  }

  /** The text from `from` on with the mask for each span. */
  function Masked(b: seq<Byte>, spans: seq<Span>, from: nat): seq<Byte>
    requires Ordered(spans, from, |b|)
  {
    if spans == [] then b[from..]
    else b[from..spans[0].start] + MASK + Masked(b, spans[1..], spans[0].end)
  }

  lemma OrderedEarlier(spans: seq<Span>, from: nat, later: nat, length: nat)
    requires Ordered(spans, later, length) && from <= later
    ensures Ordered(spans, from, length)
  {
  }

  lemma OrderedCons(span: Span, rest: seq<Span>, from: nat, length: nat)
    requires from <= span.start < span.end <= length && Ordered(rest, span.end, length)
    ensures Ordered([span] + rest, from, length)
  {
    assert ([span] + rest)[1..] == rest;
  }

  lemma SpanAtInside(b: seq<Byte>, e: nat)
    requires IsSeparator(b, e)
    ensures match SpanAt(b, e)
            case None => true
            case Some(span) => e < span.start < span.end <= After(b, e)
  {
  }

  /** The spans are disjoint and increasing. */
  lemma {:induction false} SpansOrdered(b: seq<Byte>, from: nat)
    requires from <= |b|
    ensures Ordered(Spans(b, from), from, |b|)
    decreases |b| - from
  {
    var found := FindSeparator(b, from);
    if found.Some? {
      var e := found.value;
      var rest := Spans(b, After(b, e));
      SpansOrdered(b, After(b, e));
      SpanAtInside(b, e);
      OrderedEarlier(rest, from, After(b, e), |b|);
      if SpanAt(b, e).Some? {
        OrderedEarlier(rest, SpanAt(b, e).value.end, After(b, e), |b|);
        OrderedCons(SpanAt(b, e).value, rest, from, |b|);
      }
    }
  }

  function RedactBytes(b: seq<Byte>): seq<Byte> {
    SpansOrdered(b, 0);
    Masked(b, Spans(b, 0), 0)
  }

  // ---------------------------------------------------------------- character boundaries

  /** Where `str` may be sliced (`is_char_boundary`). */
  predicate IsBoundary(b: seq<Byte>, i: nat) {
    i == 0 || i == |b| || (i < |b| && !Utf8.IsContinuation(b[i]))
  }

  /** A slice that does not panic. */
  function StrSlice(b: seq<Byte>, start: nat, end: nat): seq<Byte>
    requires start <= end <= |b| && IsBoundary(b, start) && IsBoundary(b, end)
  {
    b[start..end]
  }

  /** No character goes on after an ASCII byte. */
  predicate Whole(b: seq<Byte>) {
    forall i :: 0 < i < |b| && b[i - 1] < 0x80 ==> !Utf8.IsContinuation(b[i])
  }

  lemma {:induction false} TextIsWhole(text: string)
    ensures Whole(Utf8.Encode(text))
    ensures text != "" ==> !Utf8.IsContinuation(Utf8.Encode(text)[0])
  {
    if text != "" {
      TextIsWhole(text[1..]);
      CharIsWhole(text[0]);
      var first, rest := Utf8.EncodeChar(text[0]), Utf8.Encode(text[1..]);
      var b := first + rest;
      assert b == Utf8.Encode(text);
      forall i | 0 < i < |b| && b[i - 1] < 0x80 ensures !Utf8.IsContinuation(b[i]) {
        if i > |first| {
          assert b[i] == rest[i - |first|] && b[i - 1] == rest[i - |first| - 1];
        } else if i == |first| {
          assert b[i] == rest[0];
        }
      }
    }
  }

  lemma CharIsWhole(c: char)
    ensures var b := Utf8.EncodeChar(c);
            && (forall i :: 0 <= i < |b| ==> (Utf8.IsContinuation(b[i]) <==> i != 0))
            && (forall i :: 0 <= i < |b| - 1 ==> b[i] >= 0x80)
  {
  }

  /** A boundary cuts the text between two characters. */
  lemma {:induction false} BoundaryCutsText(text: string, i: nat) returns (k: nat)
    requires i <= |Utf8.Encode(text)| && IsBoundary(Utf8.Encode(text), i)
    ensures k <= |text| && Utf8.Encode(text[..k]) == Utf8.Encode(text)[..i]
    ensures Utf8.Encode(text[k..]) == Utf8.Encode(text)[i..]
  {
    if i == 0 {
      k := 0;
      assert text[..0] == "" && text[0..] == text;
    } else {
      var first, rest := Utf8.EncodeChar(text[0]), Utf8.Encode(text[1..]);
      CharIsWhole(text[0]);
      BoundaryBehind(first, rest, i);
      var j := BoundaryCutsText(text[1..], i - |first|);
      k := j + 1;
      EncodeFirst(text, k);
      assert text[k..] == text[1..][j..];
    }
  }

  lemma BoundaryBehind(first: seq<Byte>, rest: seq<Byte>, i: nat)
    requires 0 < i <= |first + rest| && IsBoundary(first + rest, i)
    requires first != [] && forall j :: 0 < j < |first| ==> Utf8.IsContinuation(first[j])
    ensures |first| <= i && IsBoundary(rest, i - |first|)
    ensures (first + rest)[..i] == first + rest[..i - |first|] && (first + rest)[i..] == rest[i - |first|..]
  {
    assert forall j :: 0 <= j < |first| ==> (first + rest)[j] == first[j];
    assert forall j :: |first| <= j < |first + rest| ==> (first + rest)[j] == rest[j - |first|];
  }

  lemma EncodeFirst(text: string, k: nat)
    requires 0 < k <= |text|
    ensures Utf8.Encode(text[..k]) == Utf8.EncodeChar(text[0]) + Utf8.Encode(text[1..][..k - 1])
  {
    assert text[..k][0] == text[0] && text[..k][1..] == text[1..][..k - 1];
  }

  // ------------------------------------------------------------------------- the program

  /** The text so far and the rest, with the spans `todo` masked, make the whole result. */
  ghost predicate Pending(b: seq<Byte>, redacted: seq<Byte>, lastCopied: nat, todo: seq<Span>, whole: seq<Byte>) {
    && IsBoundary(b, lastCopied)
    && Ordered(todo, lastCopied, |b|)
    && redacted + Masked(b, todo, lastCopied) == whole
  }

  lemma Taken(b: seq<Byte>, redacted: seq<Byte>, lastCopied: nat, span: Span, rest: seq<Span>, whole: seq<Byte>)
    requires Pending(b, redacted, lastCopied, [span] + rest, whole) && IsBoundary(b, span.end)
    ensures lastCopied <= span.start < span.end <= |b|
    ensures Pending(b, redacted + b[lastCopied..span.start] + MASK, span.end, rest, whole)
  {
    assert ([span] + rest)[1..] == rest;
    Regroup(redacted, b[lastCopied..span.start], MASK, Masked(b, rest, span.end));
  }

  lemma Regroup(a: seq<Byte>, b: seq<Byte>, c: seq<Byte>, d: seq<Byte>)
    ensures a + (b + c + d) == a + b + c + d
  {
  }

  lemma NoneTaken(b: seq<Byte>, redacted: seq<Byte>, lastCopied: nat, whole: seq<Byte>)
    requires Pending(b, redacted, lastCopied, [], whole)
    ensures lastCopied <= |b| && redacted + b[lastCopied..] == whole
  {
  }

  /** The bytes of the redacted line; each slice of the program is a `StrSlice`. */
  method RedactUrlUserinfo(b: seq<Byte>) returns (r: seq<Byte>)
    requires Whole(b)
    ensures r == RedactBytes(b)
  {
    SpansOrdered(b, 0);
    assert [] + RedactBytes(b) == RedactBytes(b);
    r := Rewrite(b, RedactBytes(b));
  }

  /** The span masked behind one separator, if any, and where the search goes on. */
  method NextSpan(b: seq<Byte>, schemeEnd: nat) returns (span: Option<Span>, next: nat)
    requires Whole(b) && IsSeparator(b, schemeEnd)
    ensures span == SpanAt(b, schemeEnd) && next == After(b, schemeEnd)
    ensures span.Some? ==> span.value.start <= |b| && IsBoundary(b, span.value.start) && IsBoundary(b, span.value.end)
  {
    var schemeStart := FindSchemeStart(b, schemeEnd);
    if !IsValidScheme(StrSlice(b, schemeStart, schemeEnd)) {
      return None, schemeEnd + 3;
    }
    var authorityStart := schemeEnd + 3;
    next := AuthorityEnd(b, authorityStart);
    var userinfoEnd := FirstAt(b, authorityStart, next);
    if userinfoEnd.None? || userinfoEnd.value == authorityStart {
      return None, next;
    }
    span := Some(Span(authorityStart, userinfoEnd.value + 1));
  }

  method Rewrite(b: seq<Byte>, ghost whole: seq<Byte>) returns (r: seq<Byte>)
    requires Whole(b) && Pending(b, [], 0, Spans(b, 0), whole)
    ensures r == whole
  {
    var searchFrom, lastCopied := 0, 0;
    var redacted: seq<Byte> := [];
    var changed := false;
    var separator := FindSeparator(b, searchFrom);
    while separator.Some?
      invariant searchFrom <= |b| && separator == FindSeparator(b, searchFrom)
      invariant Pending(b, redacted, lastCopied, Spans(b, searchFrom), whole)
      invariant !changed ==> lastCopied == 0 && redacted == []
      decreases |b| - searchFrom
    {
      var span, next := NextSpan(b, separator.value);
      if span.Some? {
        Taken(b, redacted, lastCopied, span.value, Spans(b, next), whole);
        redacted := redacted + StrSlice(b, lastCopied, span.value.start) + MASK;
        lastCopied := span.value.end;
        changed := true;
      }
      searchFrom := next;
      separator := FindSeparator(b, searchFrom);
    }
    assert Spans(b, searchFrom) == [];
    NoneTaken(b, redacted, lastCopied, whole);
    if changed {
      r := redacted + StrSlice(b, lastCopied, |b|);
    } else {
      assert [] + b[0..] == b;
      r := b;
    }
  }

  // --------------------------------------------------------------------- what is redacted

  lemma {:induction false} NoSeparatorBefore(b: seq<Byte>, from: nat, i: nat)
    requires from <= i && IsSeparator(b, i)
    ensures FindSeparator(b, from).Some? && FindSeparator(b, from).value <= i
    decreases |b| - from
  {
    if from < i && !IsSeparator(b, from) {
      NoSeparatorBefore(b, from + 1, i);
    }
  }

  lemma {:induction false} AuthorityStops(b: seq<Byte>, start: nat, i: nat)
    requires start <= i < |b| && IsTerminator(b[i])
    ensures AuthorityEnd(b, start) <= i
    decreases i - start
  {
    if !IsTerminator(b[start]) {
      AuthorityStops(b, start + 1, i);
    }
  }

  /** The URLs that the search stops at, by the place of their separators. */
  function Visited(b: seq<Byte>, from: nat): seq<nat>
    decreases |b| - from
  {
    match FindSeparator(b, from)
    case None => []
    case Some(e) => (if IsUrl(b, e) then [e] else []) + Visited(b, After(b, e))
  }

  /** The `:` of the URL at `e` is the last byte of the authority of the URL at `outer`. */
  predicate Swallows(b: seq<Byte>, outer: nat, e: nat) {
    outer + 3 <= |b| && AuthorityEnd(b, outer + 3) == e + 1
  }

  /** The search misses a URL only when the authority of a URL it stops at ends in its `:`. */
  lemma {:induction false} VisitedOrSwallowed(b: seq<Byte>, from: nat, e: nat)
    requires from <= e && IsUrl(b, e)
    ensures e in Visited(b, from) || exists outer :: outer in Visited(b, from) && Swallows(b, outer, e)
    decreases |b| - from
  {
    NoSeparatorBefore(b, from, e);
    var f := FindSeparator(b, from).value;
    assert IsUrl(b, f) ==> f in Visited(b, from);
    assert forall v :: v in Visited(b, After(b, f)) ==> v in Visited(b, from);
    if f < e {
      if IsUrl(b, f) {
        AuthorityStops(b, f + 3, e + 1);
      }
      if After(b, f) <= e {
        VisitedOrSwallowed(b, After(b, f), e);
      } else {
        assert Swallows(b, f, e);
      }
    }
  }

  lemma {:induction false} VisitedInOrder(b: seq<Byte>, from: nat, v: nat)
    requires v in Visited(b, from)
    ensures from <= v && IsUrl(b, v)
    decreases |b| - from
  {
    var e := FindSeparator(b, from).value;
    if !(IsUrl(b, e) && v == e) {
      VisitedInOrder(b, After(b, e), v);
    }
  }

  /** A URL that the search stops at is never swallowed. */
  lemma {:induction false} VisitedNotSwallowed(b: seq<Byte>, from: nat, e: nat, outer: nat)
    requires e in Visited(b, from) && outer in Visited(b, from)
    ensures !Swallows(b, outer, e)
    decreases |b| - from
  {
    VisitedInOrder(b, from, e);
    VisitedInOrder(b, from, outer);
    var f := FindSeparator(b, from).value;
    if e != f && outer != f {
      VisitedNotSwallowed(b, After(b, f), e, outer);
    } else if e != f {
      VisitedInOrder(b, After(b, f), e);
    } else if outer != f {
      VisitedInOrder(b, After(b, f), outer);
    }
  }

  lemma {:induction false} SpansOfVisited(b: seq<Byte>, from: nat, span: Span)
    ensures span in Spans(b, from) <==> exists e :: e in Visited(b, from) && SpanOf(b, e, span)
    decreases |b| - from
  {
    var found := FindSeparator(b, from);
    if found.Some? {
      var f := found.value;
      var rest := Visited(b, After(b, f));
      SpansOfVisited(b, After(b, f), span);
      assert forall e :: e in Visited(b, from) <==> (IsUrl(b, f) && e == f) || e in rest;
      assert SpanAt(b, f) == Some(span) <==> IsUrl(b, f) && SpanOf(b, f, span);
    }
  }

  /** `span` is the non-empty userinfo of the URL at `e`, with its `@`. */
  predicate SpanOf(b: seq<Byte>, e: nat, span: Span) {
    IsSeparator(b, e) && SpanAt(b, e) == Some(span)
  }

  /** Exactly the userinfos of URLs that no URL before them swallows are masked. */
  lemma RedactedExactly(b: seq<Byte>, span: Span)
    ensures span in Spans(b, 0)
            <==> exists e :: SpanOf(b, e, span) && !exists outer :: outer in Visited(b, 0) && Swallows(b, outer, e)
  {
    SpansOfVisited(b, 0, span);
    forall e | SpanOf(b, e, span)
      ensures e in Visited(b, 0) <==> !exists outer :: outer in Visited(b, 0) && Swallows(b, outer, e)
    {
      VisitedOrSwallowed(b, 0, e);
      if e in Visited(b, 0) {
        forall outer | outer in Visited(b, 0) ensures !Swallows(b, outer, e) {
          VisitedNotSwallowed(b, 0, e, outer);
        }
      }
    }
  }

  /** If no URL's authority ends in the `:` of another URL, every userinfo is masked. */
  lemma SeparateUrlsRedacted(b: seq<Byte>, span: Span)
    requires forall outer, e :: IsUrl(b, outer) && IsUrl(b, e) ==> !Swallows(b, outer, e)
    ensures span in Spans(b, 0) <==> exists e :: SpanOf(b, e, span)
  {
    RedactedExactly(b, span);
    forall e, outer | SpanOf(b, e, span) && outer in Visited(b, 0) ensures !Swallows(b, outer, e) {
      VisitedInOrder(b, 0, outer);
      assert IsUrl(b, e);
    }
  }

  lemma {:induction false} AuthorityClear(b: seq<Byte>, start: nat, i: nat)
    requires start <= |b| && start <= i < AuthorityEnd(b, start)
    ensures !IsTerminator(b[i])
    decreases |b| - start
  {
    if start < i {
      AuthorityClear(b, start + 1, i);
    }
  }

  lemma {:induction false} FirstAtIs(b: seq<Byte>, start: nat, end: nat, at: nat)
    requires start <= end <= |b|
    ensures FirstAt(b, start, end) == Some(at) <==> start <= at < end && b[at] == AT && AT !in b[start..at]
    decreases end - start
  {
    if start < end {
      FirstAtIs(b, start + 1, end, at);
      assert start < at < end ==> b[start..at] == [b[start]] + b[start + 1..at];
    }
  }

  /** Up to its `@` the userinfo is not empty and has no other `@` and no byte that ends an authority. */
  predicate IsUserinfo(b: seq<Byte>, span: Span) {
    && span.start + 1 < span.end <= |b| && b[span.end - 1] == AT && AT !in b[span.start..span.end - 1]
    && forall i :: span.start <= i < span.end ==> !IsTerminator(b[i])
  }

  lemma SpanMeans(b: seq<Byte>, e: nat, span: Span)
    ensures SpanOf(b, e, span) <==> IsUrl(b, e) && span.start == e + 3 && IsUserinfo(b, span)
  {
    if IsUrl(b, e) && span.start == e + 3 && span.start < span.end <= |b| {
      var start, end := span.start, AuthorityEnd(b, span.start);
      FirstAtIs(b, start, end, span.end - 1);
      forall i | start <= i < end ensures !IsTerminator(b[i]) {
        AuthorityClear(b, start, i);
      }
      if span.end - 1 >= end {
        TerminatorAtEnd(b, start);
      }
    }
  }

  lemma {:induction false} TerminatorAtEnd(b: seq<Byte>, start: nat)
    requires start <= |b| && AuthorityEnd(b, start) < |b|
    ensures IsTerminator(b[AuthorityEnd(b, start)])
    decreases |b| - start
  {
    if !IsTerminator(b[start]) {
      TerminatorAtEnd(b, start + 1);
    }
  }

  lemma {:induction false} SchemeRun(b: seq<Byte>, index: nat)
    requires index <= |b|
    ensures var s := SchemeStart(b, index);
            (s == 0 || !IsSchemeByte(b[s - 1])) && forall i :: s <= i < index ==> IsSchemeByte(b[i])
  {
    if index > 0 && IsSchemeByte(b[index - 1]) {
      SchemeRun(b, index - 1);
    }
  }

  /** The longest run of scheme bytes in front of the separator is `b[s..e]`, and starts with a letter. */
  predicate IsSchemeRun(b: seq<Byte>, s: nat, e: nat) {
    && s < e <= |b| && IsAlpha(b[s])
    && (forall i :: s <= i < e ==> IsSchemeByte(b[i]))
    && (s == 0 || !IsSchemeByte(b[s - 1]))
  }

  lemma RunsAgree(b: seq<Byte>, s: nat, start: nat, e: nat)
    requires IsSchemeRun(b, s, e) && start <= e && (start == 0 || !IsSchemeByte(b[start - 1]))
    requires forall i :: start <= i < e ==> IsSchemeByte(b[i])
    ensures s == start
  {
  }

  lemma UrlMeans(b: seq<Byte>, e: nat)
    ensures IsUrl(b, e) <==> IsSeparator(b, e) && exists s :: IsSchemeRun(b, s, e)
  {
    if IsSeparator(b, e) {
      var start := SchemeStart(b, e);
      SchemeRun(b, e);
      if IsUrl(b, e) {
        assert b[start..e][0] == b[start];
        assert IsSchemeRun(b, start, e);
      }
      forall s | IsSchemeRun(b, s, e) ensures s == start {
        RunsAgree(b, s, start, e);
      }
    }
  }

  /** The line is returned as it was exactly when nothing is masked. */
  lemma UnchangedExactly(b: seq<Byte>)
    ensures RedactBytes(b) == b <==> Spans(b, 0) == []
  {
    var spans := Spans(b, 0);
    SpansOrdered(b, 0);
    if spans == [] {
      assert b[0..] == b;
    } else {
      var span := spans[0];
      SpansOfVisited(b, 0, span);
      var e :| e in Visited(b, 0) && SpanOf(b, e, span);
      SpanMeans(b, e, span);
      MaskShows(b, spans);
    }
  }

  lemma MaskShows(b: seq<Byte>, spans: seq<Span>)
    requires Ordered(spans, 0, |b|) && spans != []
    ensures |Masked(b, spans, 0)| > spans[0].start && Masked(b, spans, 0)[spans[0].start] == LESS
  {
    var head, tail := b[0..spans[0].start], Masked(b, spans[1..], spans[0].end);
    assert (head + MASK + tail)[|head|] == MASK[0];
  }

  /** `a://b://x@y`: the authority `b:` swallows the second URL, whose userinfo is kept. */
  lemma SwallowedExample(b: seq<Byte>)
    requires b == [0x61, COLON, SLASH, SLASH, 0x62, COLON, SLASH, SLASH, 0x78, AT, 0x79]
    ensures SpanOf(b, 5, Span(8, 10)) && RedactBytes(b) == b
  {
    assert SchemeStart(b, 5) == 4 && b[4..5] == [0x62];
    assert b[8..9] == [0x78];
    SpanMeans(b, 5, Span(8, 10));
    assert SchemeStart(b, 1) == 0 && b[0..1] == [0x61];
    assert AuthorityEnd(b, 6) == 6 && AuthorityEnd(b, 5) == 6 && AuthorityEnd(b, 4) == 6;
    assert FirstAt(b, 4, 6) == None;
    assert FindSeparator(b, 0) == Some(1);
    assert FindSeparator(b, 6) == None;
    UnchangedExactly(b);
  }

  // -------------------------------------------------------------- the result is text again

  lemma {:induction false} EncodeAppend(s: string, t: string)
    ensures Utf8.Encode(s + t) == Utf8.Encode(s) + Utf8.Encode(t)
    decreases |s|
  {
    if s == "" {
      assert s + t == t;
    } else {
      assert (s + t)[1..] == s[1..] + t;
      EncodeAppend(s[1..], t);
    }
  }

  lemma {:induction false} AsciiEncoded(s: string, b: seq<Byte>)
    requires |s| == |b| && forall i :: 0 <= i < |s| ==> s[i] as int == b[i] < 0x80
    ensures Utf8.Encode(s) == b
    decreases |s|
  {
    if s != "" {
      AsciiEncoded(s[1..], b[1..]);
      assert [b[0]] + b[1..] == b;
    }
  }

  lemma MaskIsText()
    ensures Utf8.Encode("<redacted>@") == MASK
  {
    AsciiEncoded("<redacted>@", MASK);
  }

  /** A slice between boundaries holds whole characters. */
  lemma SliceIsText(text: string, i: nat, j: nat) returns (sub: string)
    requires i <= j <= |Utf8.Encode(text)|
    requires IsBoundary(Utf8.Encode(text), i) && IsBoundary(Utf8.Encode(text), j)
    ensures Utf8.Encode(sub) == Utf8.Encode(text)[i..j]
  {
    var b := Utf8.Encode(text);
    var k := BoundaryCutsText(text, j);
    assert b[..j][..i] == b[..i] && b[..j][i..] == b[i..j];
    assert i < j ==> b[..j][i] == b[i];
    var h := BoundaryCutsText(text[..k], i);
    sub := text[..k][h..];
  }

  predicate AllBoundaries(b: seq<Byte>, spans: seq<Span>) {
    forall s :: s in spans ==> IsBoundary(b, s.start) && IsBoundary(b, s.end)
  }

  lemma SpansOnBoundaries(b: seq<Byte>)
    requires Whole(b)
    ensures AllBoundaries(b, Spans(b, 0))
  {
    forall span | span in Spans(b, 0) ensures IsBoundary(b, span.start) && IsBoundary(b, span.end) {
      SpansOfVisited(b, 0, span);
      var e :| e in Visited(b, 0) && SpanOf(b, e, span);
      SpanMeans(b, e, span);
    }
  }

  lemma {:induction false} MaskedIsText(text: string, spans: seq<Span>, from: nat) returns (out: string)
    requires Ordered(spans, from, |Utf8.Encode(text)|) && IsBoundary(Utf8.Encode(text), from)
    requires AllBoundaries(Utf8.Encode(text), spans)
    ensures Utf8.Encode(out) == Masked(Utf8.Encode(text), spans, from)
    decreases |spans|
  {
    var b := Utf8.Encode(text);
    if spans == [] {
      out := SliceIsText(text, from, |b|);
      assert b[from..|b|] == b[from..];
    } else {
      var head := SliceIsText(text, from, spans[0].start);
      var tail := MaskedIsText(text, spans[1..], spans[0].end);
      MaskIsText();
      EncodeAppend(head + "<redacted>@", tail);
      EncodeAppend(head, "<redacted>@");
      out := head + "<redacted>@" + tail;
    }
  }

  /** Redacting a text gives a text, all slices cut between characters. */
  lemma RedactedIsText(text: string)
    ensures Whole(Utf8.Encode(text)) && AllBoundaries(Utf8.Encode(text), Spans(Utf8.Encode(text), 0))
    ensures exists out :: Utf8.Encode(out) == RedactBytes(Utf8.Encode(text))
  {
    TextIsWhole(text);
    SpansOnBoundaries(Utf8.Encode(text));
    SpansOrdered(Utf8.Encode(text), 0);
    var out := MaskedIsText(text, Spans(Utf8.Encode(text), 0), 0);
  }
}
