/** Certificates cut out of a configured chain, each as one block (`parse_pem_chain` of the core crate). */
module PemBlocks {
  import opened Text
  import opened Search
  import opened PemMarkers

  /** Slicing with a start behind its end panics. */
  datatype Outcome = Blocks(blocks: seq<string>) | Panic

  function NormalizeNewlines(s: string): string {
    ReplaceAll(ReplaceAll(s, "\r\n", "\n"), "\r", "\n")
  }

  function Render(f: Format, body: string): string {
    f.begin + ("\n" + body + "\n") + f.end + "\n"
  }

  /** What one round of the loop finds in the text left. */
  datatype Round = Finished | Overlap | Found(body: string, rest: string)

  function NextBlock(f: Format, pem: string): (r: Round)
    ensures r.Found? ==> |r.rest| < |pem|
  {
    match Find(pem, f.begin)
    case None => Finished
    case Some(begin) =>
      var fromBegin := pem[begin..];
      match Find(fromBegin, f.end)
      case None => Finished
      case Some(end) =>
        if end < |f.begin| then Overlap
        else Found(WithoutWhitespace(fromBegin[|f.begin|..end]), fromBegin[end + |f.end|..])
  }

  function ParseBlocks(f: Format, pem: string): Outcome
    decreases |pem|
  {
    match NextBlock(f, pem)
    case Finished => Blocks([])
    case Overlap => Panic
    case Found(body, rest) => Prepend([Render(f, body)], ParseBlocks(f, rest))
  }

  function Prepend(blocks: seq<string>, rest: Outcome): Outcome {
    match rest
    case Panic => Panic
    case Blocks(more) => Blocks(blocks + more)
  }

  function ParsePemChain(f: Format, pem: string): Outcome {
    ParseBlocks(f, NormalizeNewlines(pem))
  }

  lemma PrependTwice(a: seq<string>, b: seq<string>, rest: Outcome)
    ensures Prepend(a, Prepend(b, rest)) == Prepend(a + b, rest)
  {
    if rest.Blocks? {
      assert a + (b + rest.blocks) == a + b + rest.blocks;
    }
  }

  lemma RoundFrom(f: Format, text: string, begin: nat, fromBegin: string, end: nat)
    requires Find(text, f.begin) == Some(begin) && fromBegin == text[begin..] && Find(fromBegin, f.end) == Some(end)
    ensures NextBlock(f, text)
            == if end < |f.begin| then Overlap
               else Found(WithoutWhitespace(fromBegin[|f.begin|..end]), fromBegin[end + |f.end|..])
  {
  }

  /** The indices the loop computes cut the same round out of the whole text. */
  lemma RoundAt(f: Format, pem: string, index: nat, begin: nat, end: nat)
    requires index <= begin <= end && index <= |pem| && Find(pem[index..], f.begin) == Some(begin - index)
    requires Find(pem[begin..], f.end) == Some(end - begin)
    ensures end < begin + |f.begin| ==> NextBlock(f, pem[index..]) == Overlap
    ensures begin + |f.begin| <= end
            ==> NextBlock(f, pem[index..])
                == Found(WithoutWhitespace(pem[begin + |f.begin|..end]), pem[end + |f.end|..])
  {
    var fromBegin := pem[begin..];
    assert pem[index..][begin - index..] == fromBegin;
    RoundFrom(f, pem[index..], begin - index, fromBegin, end - begin);
    if begin + |f.begin| <= end {
      assert fromBegin[|f.begin|..end - begin] == pem[begin + |f.begin|..end];
      assert fromBegin[end - begin + |f.end|..] == pem[end + |f.end|..];
    }
  }

  /** One round of the loop, from `index` on. */
  method CutNext(f: Format, pem: string, index: nat) returns (round: Round, next: nat)
    requires index <= |pem|
    ensures round == NextBlock(f, pem[index..])
    ensures round.Found? ==> index < next <= |pem| && round.rest == pem[next..]
  {
    var beginOffset := Find(pem[index..], f.begin);
    if beginOffset.None? {
      return Finished, index;
    }
    var beginIndex := index + beginOffset.value;
    assert pem[index..][beginOffset.value..] == pem[beginIndex..];
    var endOffset := Find(pem[beginIndex..], f.end);
    if endOffset.None? {
      return Finished, index;
    }
    var endIndex := beginIndex + endOffset.value;
    var base64Start := beginIndex + |f.begin|;
    RoundAt(f, pem, index, beginIndex, endIndex);
    if endIndex < base64Start {
      return Overlap, index;
    }
    next := endIndex + |f.end|;
    round := Found(WithoutWhitespace(pem[base64Start..endIndex]), pem[next..]);
  }

  lemma BlockStep(f: Format, certs: seq<string>, text: string, body: string, rest: string, whole: Outcome)
    requires NextBlock(f, text) == Found(body, rest) && Prepend(certs, ParseBlocks(f, text)) == whole
    ensures Prepend(certs + [Render(f, body)], ParseBlocks(f, rest)) == whole
  {
    PrependTwice(certs, [Render(f, body)], ParseBlocks(f, rest));
  }

  lemma RoundEnds(f: Format, certs: seq<string>, text: string, whole: Outcome)
    requires Prepend(certs, ParseBlocks(f, text)) == whole
    ensures NextBlock(f, text) == Finished ==> whole == Blocks(certs)
    ensures NextBlock(f, text) == Overlap ==> whole == Panic
  {
  }

  method CutBlocks(f: Format, pem: string, ghost whole: Outcome) returns (r: Outcome)
    requires Prepend([], ParseBlocks(f, pem[0..])) == whole
    ensures r == whole
  {
    var certs: seq<string> := [];
    var index := 0;
    while index < |pem|
      invariant index <= |pem|
      invariant Prepend(certs, ParseBlocks(f, pem[index..])) == whole
    {
      var round, next := CutNext(f, pem, index);
      if !round.Found? {
        RoundEnds(f, certs, pem[index..], whole);
        return if round == Finished then Blocks(certs) else Panic;
      }
      BlockStep(f, certs, pem[index..], round.body, round.rest, whole);
      certs := certs + [Render(f, round.body)];
      index := next;
    }
    assert pem[index..] == "";
    FindNowhere("", f.begin);
    RoundEnds(f, certs, "", whole);
    r := Blocks(certs);
  }

  method ParseChain(f: Format, pemChain: string) returns (r: Outcome)
    ensures r == ParsePemChain(f, pemChain)
  {
    var pem := NormalizeNewlines(pemChain);
    assert pem[0..] == pem;
    r := CutBlocks(f, pem, ParseBlocks(f, pem));
  }

  // ------------------------------------------------------------------- where it panics

  /** What the proofs use of the two markers. */
  predicate Certificate(f: Format) {
    CertificateBegin(f.begin) && CertificateEnd(f.end)
  }

  predicate CertificateBegin(m: string) {
    && |m| == 27 && m[5] == 'B'
    && (forall i :: 5 <= i < 22 ==> m[i] != '-')
    && (forall i :: 0 <= i < 27 && i != 10 ==> m[i] != ' ')
    && '\n' !in m && '\r' !in m
  }

  predicate CertificateEnd(m: string) {
    && |m| == 25 && m[5] == 'E' && m[8] == ' '
    && (forall i :: 0 <= i < 5 ==> m[i] == '-')
    && '\n' !in m && '\r' !in m
  }

  lemma BeginIsCertificate()
    ensures CertificateBegin(BEGIN_CERT)
  {
  }

  lemma EndIsCertificate()
    ensures CertificateEnd(END_CERT)
  {
  }

  lemma MarkersAreCertificate()
    ensures Certificate(CertificateFormat())
  {
    BeginIsCertificate();
    EndIsCertificate();
  }

  /** No END marker shares the dashes that close the BEGIN marker `fromBegin` starts with. */
  predicate Clear(f: Format, fromBegin: string) {
    forall j: nat :: |f.begin| <= j + 5 && j < |f.begin| ==> !OccursAt(fromBegin, f.end, j)
  }

  /** The text from each BEGIN marker that the search meets, going on behind the END marker after it. */
  function Openings(f: Format, pem: string): seq<string>
    decreases |pem|
  {
    match Find(pem, f.begin)
    case None => []
    case Some(begin) =>
      var fromBegin := pem[begin..];
      match Find(fromBegin, f.end)
      case None => [fromBegin]
      case Some(end) => [fromBegin] + Openings(f, fromBegin[end + |f.end|..])
  }

  lemma EndNotInsideBegin(f: Format, fromBegin: string, j: nat)
    requires Certificate(f) && f.begin <= fromBegin && OccursAt(fromBegin, f.end, j)
    ensures 22 <= j
  {
    forall k | j <= k < j + 5 ensures fromBegin[k] == '-' {
      OccurrenceReads(fromBegin, f.end, j, k - j);
    }
    OccurrenceReads(fromBegin, f.end, j, 5);
    assert forall i :: 5 <= i < 22 ==> fromBegin[i] == f.begin[i];
  }

  /** A round panics exactly when an END marker shares the dashes that close its BEGIN marker. */
  lemma OverlapExact(f: Format, pem: string)
    requires Certificate(f)
    ensures NextBlock(f, pem) == Overlap
            <==> Find(pem, f.begin).Some? && !Clear(f, pem[Find(pem, f.begin).value..])
  {
    FindFirst(pem, f.begin);
    if Find(pem, f.begin).Some? {
      var fromBegin := pem[Find(pem, f.begin).value..];
      FindFirst(fromBegin, f.end);
      if NextBlock(f, pem) == Overlap {
        var end := Find(fromBegin, f.end).value;
        EndNotInsideBegin(f, fromBegin, end);
      }
    }
  }

  predicate AllClear(f: Format, openings: seq<string>) {
    forall i :: 0 <= i < |openings| ==> Clear(f, openings[i])
  }

  lemma AllClearCons(f: Format, first: string, openings: seq<string>)
    ensures AllClear(f, [first] + openings) <==> Clear(f, first) && AllClear(f, openings)
  {
    var all := [first] + openings;
    assert all[0] == first;
    assert openings == all[1..];
    assert forall i :: 0 <= i < |openings| ==> openings[i] == all[i + 1];
    assert forall i :: 0 < i < |all| ==> all[i] == openings[i - 1];
  }

  /** The openings behind a pair of markers. */
  lemma OpeningsCons(f: Format, pem: string, begin: nat, fromBegin: string, end: nat, rest: string)
    requires Find(pem, f.begin) == Some(begin) && fromBegin == pem[begin..]
    requires Find(fromBegin, f.end) == Some(end) && rest == fromBegin[end + |f.end|..]
    ensures Openings(f, pem) == [fromBegin] + Openings(f, rest)
  {
  }

  lemma RoundKind(f: Format, pem: string, begin: nat, fromBegin: string, end: nat, rest: string)
    requires Find(pem, f.begin) == Some(begin) && fromBegin == pem[begin..]
    requires Find(fromBegin, f.end) == Some(end) && rest == fromBegin[end + |f.end|..]
    ensures if end < |f.begin| then NextBlock(f, pem) == Overlap
            else NextBlock(f, pem).Found? && NextBlock(f, pem).rest == rest
  {
    RoundFrom(f, pem, begin, fromBegin, end);
  }

  lemma NoOpeningLeft(f: Format, pem: string)
    requires Find(pem, f.begin) == None || Find(pem[Find(pem, f.begin).value..], f.end) == None
    ensures NextBlock(f, pem) == Finished
    ensures Openings(f, pem) == if Find(pem, f.begin) == None then [] else [pem[Find(pem, f.begin).value..]]
  {
  }

  lemma RoundPanics(f: Format, pem: string)
    ensures NextBlock(f, pem) == Finished ==> ParseBlocks(f, pem) != Panic
    ensures NextBlock(f, pem) == Overlap ==> ParseBlocks(f, pem) == Panic
    ensures NextBlock(f, pem).Found?
            ==> (ParseBlocks(f, pem) == Panic <==> ParseBlocks(f, NextBlock(f, pem).rest) == Panic)
  {
  }

  lemma {:induction false} PanicsExactly(f: Format, pem: string)
    requires Certificate(f)
    ensures ParseBlocks(f, pem) != Panic <==> AllClear(f, Openings(f, pem))
    decreases |pem|
  {
    OverlapExact(f, pem);
    RoundPanics(f, pem);
    var begin := Find(pem, f.begin);
    if begin.None? || Find(pem[begin.value..], f.end).None? {
      NoOpeningLeft(f, pem);
    } else {
      var fromBegin := pem[begin.value..];
      var end := Find(fromBegin, f.end).value;
      var rest := fromBegin[end + |f.end|..];
      OpeningsCons(f, pem, begin.value, fromBegin, end, rest);
      RoundKind(f, pem, begin.value, fromBegin, end, rest);
      AllClearCons(f, fromBegin, Openings(f, rest));
      PanicsExactly(f, rest);
    }
  }

  /** A chain without shared dashes anywhere is parsed. */
  lemma {:induction false} OpeningsOccur(f: Format, pem: string)
    requires forall i: nat :: OccursAt(pem, f.begin, i) ==> Clear(f, pem[i..])
    ensures AllClear(f, Openings(f, pem))
    decreases |pem|
  {
    FindFirst(pem, f.begin);
    if Find(pem, f.begin).Some? {
      var begin := Find(pem, f.begin).value;
      var fromBegin := pem[begin..];
      var end := Find(fromBegin, f.end);
      if end.Some? {
        var next := begin + end.value + |f.end|;
        var rest := fromBegin[end.value + |f.end|..];
        assert rest == pem[next..];
        forall i: nat | OccursAt(rest, f.begin, i) ensures Clear(f, rest[i..]) {
          assert rest[i..i + |f.begin|] == pem[next + i..next + i + |f.begin|];
          assert OccursAt(pem, f.begin, next + i);
          assert pem[next + i..] == rest[i..];
        }
        OpeningsOccur(f, rest);
        AllClearCons(f, fromBegin, Openings(f, rest));
      }
    }
  }

  /** The safe chains, seen from the caller: it is enough that no marker shares dashes with the next. */
  lemma SeparateMarkersParse(f: Format, pem: string)
    requires Certificate(f)
    requires forall i: nat :: OccursAt(pem, f.begin, i) ==> Clear(f, pem[i..])
    ensures ParseBlocks(f, pem) != Panic
  {
    OpeningsOccur(f, pem);
    PanicsExactly(f, pem);
  }

  /** A pair of markers that share their dashes makes the program panic. */
  lemma SharedDashesPanic(f: Format, pem: string)
    requires f.begin <= pem && OccursAt(pem, f.end, 22) && |f.begin| == 27
    ensures ParseBlocks(f, pem) == Panic
  {
    FindFirst(pem, f.begin);
    assert OccursAt(pem, f.begin, 0);
    assert pem[0..] == pem;
    FindFirst(pem, f.end);
  }

  lemma SharedDashesExample()
    ensures ParseBlocks(CertificateFormat(), "-----BEGIN CERTIFICATE" + END_CERT) == Panic
  {
    var pem := "-----BEGIN CERTIFICATE" + END_CERT;
    assert pem[..27] == BEGIN_CERT;
    assert pem[22..47] == END_CERT;
    SharedDashesPanic(CertificateFormat(), pem);
  }

  // -------------------------------------------------------------------------- round trip

  predicate WhitespaceFree(body: string) {
    forall c :: c in body ==> !IsWhitespace(c)
  }

  /** The END marker is not found before the one that closes the block. */
  lemma EndFoundAfter(f: Format, body: string, tail: string)
    requires Certificate(f) && WhitespaceFree(body)
    ensures var head := f.begin + ("\n" + body + "\n"); Find(head + f.end + tail, f.end) == Some(|head|)
  {
    var head := f.begin + ("\n" + body + "\n");
    var s := head + f.end + tail;
    forall j: nat | j < |head| ensures !OccursAt(s, f.end, j) {
      if OccursAt(s, f.end, j) {
        EndNotInHead(f, body, s, j);
      }
    }
    assert s[|head|..|head| + |f.end|] == f.end;
    assert OccursAt(s, f.end, |head|);
    FindFirst(s, f.end);
  }

  /** The only blank in front of the END marker is the one in the BEGIN marker. */
  lemma OnlyBlank(f: Format, body: string, k: nat)
    requires Certificate(f) && WhitespaceFree(body)
    requires k < |f.begin| + |body| + 2 && (f.begin + ("\n" + body + "\n"))[k] == ' '
    ensures k == 10
  {
    var inner := "\n" + body + "\n";
    assert ' ' !in inner;
    assert forall i :: |f.begin| <= i < |f.begin| + |inner| ==> (f.begin + inner)[i] == inner[i - |f.begin|];
  }

  lemma EndNotInHead(f: Format, body: string, s: string, j: nat)
    requires Certificate(f) && WhitespaceFree(body)
    requires f.begin + ("\n" + body + "\n") <= s && OccursAt(s, f.end, j)
    ensures |f.begin| + |body| + 2 <= j
  {
    var head := f.begin + ("\n" + body + "\n");
    var last := |head| - 1;
    assert s[last] == head[last] == '\n';
    OccurrenceReads(s, f.end, j, 8);
    if j <= last < j + |f.end| {
      OccurrenceReads(s, f.end, j, last - j);
    } else if j <= last {
      assert s[j + 8] == head[j + 8];
      OnlyBlank(f, body, j + 8);
      EndNotInsideBegin(f, s, j);
    }
  }

  lemma BodyFiltered(body: string)
    requires WhitespaceFree(body)
    ensures WithoutWhitespace("\n" + body + "\n") == body
  {
    WithoutWhitespaceAppend("\n" + body, "\n");
    WithoutWhitespaceAppend("\n", body);
    WithoutWhitespaceKeeps(body);
    WhitespaceDropped("\n");
  }

  lemma PartsOf(a: string, b: string, c: string, d: string)
    ensures (a + b + c + d)[|a|..|a| + |b|] == b && (a + b + c + d)[|a| + |b| + |c|..] == d
  {
  }

  lemma BehindText(before: string, a: string, b: string, c: string, d: string)
    ensures before + (a + b + c + d) == before + a + (b + c + d)
    ensures (before + (a + b + c + d))[|before|..] == a + b + c + d
  {
  }

  lemma RegroupBlock(before: string, a: string, b: string, c: string, d: string, after: string)
    ensures before + (a + b + c + d) + after == before + (a + b + c + (d + after))
  {
  }

  lemma BlockRead(f: Format, text: string, begin: nat, fromBegin: string, end: nat, inner: string, tail: string)
    requires Find(text, f.begin) == Some(begin) && fromBegin == text[begin..] && Find(fromBegin, f.end) == Some(end)
    requires |f.begin| <= end && fromBegin[|f.begin|..end] == inner && fromBegin[end + |f.end|..] == tail
    ensures NextBlock(f, text) == Found(WithoutWhitespace(inner), tail)
  {
    RoundFrom(f, text, begin, fromBegin, end);
  }

  /** A rendered block is cut out again, after text without dashes and before anything. */
  lemma BlockRoundTrip(f: Format, before: string, body: string, after: string)
    requires Certificate(f) && '-' !in before && WhitespaceFree(body)
    ensures NextBlock(f, before + Render(f, body) + after) == Found(body, "\n" + after)
  {
    var inner, tail := "\n" + body + "\n", "\n" + after;
    RegroupBlock(before, f.begin, inner, f.end, "\n", after);
    BehindText(before, f.begin, inner, f.end, tail);
    PartsOf(f.begin, inner, f.end, tail);
    FindAfter(before, f.begin, inner + f.end + tail);
    EndFoundAfter(f, body, tail);
    BlockRead(f, before + (f.begin + inner + f.end + tail), |before|, f.begin + inner + f.end + tail,
              |f.begin| + |inner|, inner, tail);
    BodyFiltered(body);
  }

  function Rendered(f: Format, bodies: seq<string>): seq<string> {
    if bodies == [] then [] else [Render(f, bodies[0])] + Rendered(f, bodies[1..])
  }

  function Concat(blocks: seq<string>): string {
    if blocks == [] then "" else blocks[0] + Concat(blocks[1..])
  }

  lemma {:induction false} ChainRoundTrip(f: Format, before: string, bodies: seq<string>)
    requires Certificate(f) && '-' !in before
    requires forall i :: 0 <= i < |bodies| ==> WhitespaceFree(bodies[i])
    ensures ParseBlocks(f, before + Concat(Rendered(f, bodies))) == Blocks(Rendered(f, bodies))
    decreases |bodies|
  {
    if bodies == [] {
      assert before + "" == before;
      FindNowhere(before, f.begin);
    } else {
      var rest := Rendered(f, bodies[1..]);
      ChainRoundTrip(f, "\n", bodies[1..]);
      BlockRoundTrip(f, before, bodies[0], Concat(rest));
      assert ([Render(f, bodies[0])] + rest)[1..] == rest;
      assert before + Concat(Rendered(f, bodies)) == before + Render(f, bodies[0]) + Concat(rest);
    }
  }

  lemma {:induction false} NoReturns(f: Format, bodies: seq<string>)
    requires Certificate(f)
    requires forall i :: 0 <= i < |bodies| ==> WhitespaceFree(bodies[i])
    ensures '\r' !in Concat(Rendered(f, bodies))
    decreases |bodies|
  {
    if bodies != [] {
      NoReturns(f, bodies[1..]);
      assert Rendered(f, bodies)[1..] == Rendered(f, bodies[1..]);
      assert '\r' !in Render(f, bodies[0]);
    }
  }

  lemma NormalizedAlready(text: string)
    requires '\r' !in text
    ensures NormalizeNewlines(text) == text
  {
    ReplaceNothing(text, "\r\n", "\n");
    ReplaceNothing(text, "\r", "\n");
  }

  lemma {:induction false} ReplacedIsGone(text: string, c: char, with: string)
    requires c !in with
    ensures c !in ReplaceAll(text, [c], with)
  {
    if text != "" {
      assert text[0] == c ==> text[..1] == [c];
      if StartsWith(text, [c]) {
        ReplacedIsGone(text[1..], c, with);
      } else {
        ReplacedIsGone(text[1..], c, with);
      }
    }
  }

  /** No carriage return is left, and a text without any is left as it is. */
  lemma NormalizedExactly(text: string)
    ensures '\r' !in NormalizeNewlines(text)
    ensures NormalizeNewlines(text) == text <==> '\r' !in text
  {
    ReplacedIsGone(ReplaceAll(text, "\r\n", "\n"), '\r', "\n");
    if '\r' !in text {
      NormalizedAlready(text);
    }
  }

  /** Every list of whitespace-free bodies is cut out of its rendered chain, block by block. */
  lemma RenderedRoundTrip(f: Format, bodies: seq<string>)
    requires Certificate(f)
    requires forall i :: 0 <= i < |bodies| ==> WhitespaceFree(bodies[i])
    ensures ParsePemChain(f, Concat(Rendered(f, bodies))) == Blocks(Rendered(f, bodies))
  {
    NoReturns(f, bodies);
    NormalizedAlready(Concat(Rendered(f, bodies)));
    ChainRoundTrip(f, "", bodies);
    assert "" + Concat(Rendered(f, bodies)) == Concat(Rendered(f, bodies));
  }

  lemma BodyIsFree(f: Format, pem: string)
    ensures NextBlock(f, pem).Found? ==> WhitespaceFree(NextBlock(f, pem).body)
  {
    var begin := Find(pem, f.begin);
    if begin.Some? {
      var end := Find(pem[begin.value..], f.end);
      if end.Some? && |f.begin| <= end.value {
        NoWhitespaceLeft(pem[begin.value..][|f.begin|..end.value]);
      }
    }
  }

  /** The bodies of what was cut out. */
  lemma {:induction false} OutputIsRendered(f: Format, pem: string) returns (bodies: seq<string>)
    requires ParseBlocks(f, pem).Blocks?
    ensures ParseBlocks(f, pem).blocks == Rendered(f, bodies)
    ensures forall i :: 0 <= i < |bodies| ==> WhitespaceFree(bodies[i])
    decreases |pem|
  {
    match NextBlock(f, pem)
    case Finished =>
      bodies := [];
    case Found(body, rest) =>
      var more := OutputIsRendered(f, rest);
      bodies := [body] + more;
      assert bodies[1..] == more;
      BodyIsFree(f, pem);
  }

  /** Parsing what was parsed, joined again, changes nothing. */
  lemma ParseIsFixpoint(f: Format, pemChain: string)
    requires Certificate(f) && ParsePemChain(f, pemChain).Blocks?
    ensures ParsePemChain(f, Concat(ParsePemChain(f, pemChain).blocks)) == ParsePemChain(f, pemChain)
  {
    var bodies := OutputIsRendered(f, NormalizeNewlines(pemChain));
    RenderedRoundTrip(f, bodies);
  }
}
