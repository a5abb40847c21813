/** What the redacted line says, piece by piece, and the bytes that delimit a URL. */
module RedactionText {
  import opened Base64
  import opened Redaction

  /** The bytes that the search knows, as characters. */
  lemma ByteClasses(b: Byte)
    ensures IsTerminator(b) <==> b as char in " \t\n\r/?#\"'`<>()[]{},;" || b as char == '\U{C}'
    ensures IsAlpha(b) <==> 'a' <= b as char <= 'z' || 'A' <= b as char <= 'Z'
    ensures IsSchemeByte(b) <==> IsAlpha(b) || '0' <= b as char <= '9' || b as char in "+-."
  {
  }

  predicate Reads(b: seq<Byte>, text: string) {
    |b| == |text| && forall i :: 0 <= i < |b| ==> b[i] as char == text[i]
  }

  lemma SeparatorAndMask(b: seq<Byte>, e: nat)
    ensures IsSeparator(b, e) <==> e + 3 <= |b| && Reads(b[e..e + 3], "://")
    ensures Reads(MASK, "<redacted>@")
  {
    if e + 3 <= |b| {
      assert b[e..e + 3] == [b[e], b[e + 1], b[e + 2]];
    }
    var mask := "<redacted>@";
    assert mask == ['<', 'r', 'e', 'd', 'a', 'c', 't', 'e', 'd', '>', '@'];
  }

  /** Pieces with fillings between them. */
  function Weave(pieces: seq<seq<Byte>>, fillings: seq<seq<Byte>>): seq<Byte>
    requires |pieces| == |fillings| + 1
  {
    if fillings == [] then pieces[0] else pieces[0] + fillings[0] + Weave(pieces[1..], fillings[1..])
  }

  function Userinfos(b: seq<Byte>, spans: seq<Span>): (fillings: seq<seq<Byte>>)
    requires forall i :: 0 <= i < |spans| ==> spans[i].start <= spans[i].end <= |b|
    ensures |fillings| == |spans|
    ensures forall i :: 0 <= i < |spans| ==> fillings[i] == b[spans[i].start..spans[i].end]
  {
    seq(|spans|, i requires 0 <= i < |spans| => b[spans[i].start..spans[i].end])
  }

  function Masks(n: nat): (fillings: seq<seq<Byte>>)
    ensures |fillings| == n && forall i :: 0 <= i < n ==> fillings[i] == MASK
  {
    seq(n, i => MASK)
  }

  predicate AllInside(spans: seq<Span>, from: nat, length: nat) {
    && from <= length
    && (forall i :: 0 <= i < |spans| ==> from <= spans[i].start < spans[i].end <= length)
    && forall i :: 0 < i < |spans| ==> spans[i - 1].end <= spans[i].start
  }

  lemma {:induction false} SpansInside(spans: seq<Span>, from: nat, length: nat)
    requires Ordered(spans, from, length)
    ensures AllInside(spans, from, length)
  {
    if spans != [] {
      SpansInside(spans[1..], spans[0].end, length);
      forall i | 0 < i < |spans| ensures spans[i - 1].end <= spans[i].start && spans[i].end <= length {
        assert spans[1..][i - 1] == spans[i];
        assert i > 1 ==> spans[1..][i - 2] == spans[i - 1];
      }
    }
  }

  /** The stretch before the span `i`, or behind the last one. */
  function Gap(b: seq<Byte>, spans: seq<Span>, from: nat, i: nat): seq<Byte>
    requires AllInside(spans, from, |b|) && i <= |spans|
  {
    b[if i == 0 then from else spans[i - 1].end..if i < |spans| then spans[i].start else |b|]
  }

  function Gaps(b: seq<Byte>, spans: seq<Span>, from: nat): (pieces: seq<seq<Byte>>)
    requires AllInside(spans, from, |b|)
    ensures |pieces| == |spans| + 1 && forall i :: 0 <= i <= |spans| ==> pieces[i] == Gap(b, spans, from, i)
  {
    seq(|spans| + 1, i requires 0 <= i <= |spans| => Gap(b, spans, from, i))
  }

  lemma GapsStep(b: seq<Byte>, spans: seq<Span>, from: nat)
    requires AllInside(spans, from, |b|) && spans != []
    ensures AllInside(spans[1..], spans[0].end, |b|)
    ensures Gaps(b, spans, from) == [b[from..spans[0].start]] + Gaps(b, spans[1..], spans[0].end)
  {
    var rest := spans[1..];
    forall i | 0 <= i < |rest| ensures spans[0].end <= rest[i].start {
      assert i > 0 ==> rest[i - 1].end <= rest[i].start;
      StartsBehind(spans, from, |b|, i + 1);
    }
    forall i | 0 < i <= |spans| ensures Gap(b, spans, from, i) == Gap(b, rest, spans[0].end, i - 1) {
    }
  }

  lemma {:induction false} StartsBehind(spans: seq<Span>, from: nat, length: nat, i: nat)
    requires AllInside(spans, from, length) && 0 < i < |spans|
    ensures spans[0].end <= spans[i].start
    decreases i
  {
    if i > 1 {
      StartsBehind(spans, from, length, i - 1);
    }
  }

  lemma WeaveFirst(piece: seq<Byte>, pieces: seq<seq<Byte>>, filling: seq<Byte>, fillings: seq<seq<Byte>>)
    requires |pieces| == |fillings| + 1
    ensures Weave([piece] + pieces, [filling] + fillings) == piece + filling + Weave(pieces, fillings)
  {
    assert ([piece] + pieces)[1..] == pieces && ([filling] + fillings)[1..] == fillings;
  }

  /** One span more in front of a woven rest. */
  lemma WovenStep(b: seq<Byte>, spans: seq<Span>, from: nat, rest: seq<seq<Byte>>, infos: seq<seq<Byte>>)
    requires spans != [] && from <= spans[0].start <= spans[0].end <= |b| && |rest| == |infos| + 1 == |spans|
    requires Weave(rest, infos) == b[spans[0].end..]
    ensures Weave([b[from..spans[0].start]] + rest, [b[spans[0].start..spans[0].end]] + infos) == b[from..]
  {
    var first := spans[0];
    WeaveFirst(b[from..first.start], rest, b[first.start..first.end], infos);
    assert b[from..] == b[from..first.start] + b[first.start..first.end] + b[first.end..];
  }

  lemma UserinfosStep(b: seq<Byte>, spans: seq<Span>)
    requires spans != [] && forall i :: 0 <= i < |spans| ==> spans[i].start <= spans[i].end <= |b|
    ensures Userinfos(b, spans) == [b[spans[0].start..spans[0].end]] + Userinfos(b, spans[1..])
  {
  }

  lemma {:induction false} GapsMasked(b: seq<Byte>, spans: seq<Span>, from: nat)
    requires Ordered(spans, from, |b|) && AllInside(spans, from, |b|)
    ensures Weave(Gaps(b, spans, from), Masks(|spans|)) == Masked(b, spans, from)
    decreases |spans|
  {
    if spans != [] {
      GapsStep(b, spans, from);
      GapsMasked(b, spans[1..], spans[0].end);
      assert Masks(|spans|) == [MASK] + Masks(|spans| - 1);
      WeaveFirst(b[from..spans[0].start], Gaps(b, spans[1..], spans[0].end), MASK, Masks(|spans| - 1));
    }
  }

  lemma {:induction false} GapsWoven(b: seq<Byte>, spans: seq<Span>, from: nat)
    requires AllInside(spans, from, |b|)
    ensures Weave(Gaps(b, spans, from), Userinfos(b, spans)) == b[from..]
    decreases |spans|
  {
    if spans != [] {
      GapsStep(b, spans, from);
      GapsWoven(b, spans[1..], spans[0].end);
      UserinfosStep(b, spans);
      WovenStep(b, spans, from, Gaps(b, spans[1..], spans[0].end), Userinfos(b, spans[1..]));
    }
  }

  /**
   * The stretches between the masked userinfos make the line with these userinfos between
   * them, and the redacted line with a mask for each.
   */
  lemma RedactedIsWoven(b: seq<Byte>)
    ensures var spans := Spans(b, 0);
            && AllInside(spans, 0, |b|)
            && Weave(Gaps(b, spans, 0), Userinfos(b, spans)) == b
            && Weave(Gaps(b, spans, 0), Masks(|spans|)) == RedactBytes(b)
  {
    SpansOrdered(b, 0);
    SpansInside(Spans(b, 0), 0, |b|);
    GapsWoven(b, Spans(b, 0), 0);
    GapsMasked(b, Spans(b, 0), 0);
    assert b[0..] == b;
  }
}
