/** Certificates printed as PEM and read back (sections 2 and 3 of RFC 7468). */
module PemCertificates {
  import opened Text
  import opened Search
  import opened Base64
  import opened PemMarkers

  const COLUMNS: nat := 64

  type Der = seq<Byte>

  function DecodeBody(body: string): Option<Der> {
    Decode(WithoutWhitespace(body))
  }

  datatype Parsed = Certificates(ders: seq<Der>) | InvalidPem

  // --------------------------------------------------------------------------- printing

  /** Lines of at most 64 columns, each ended. */
  function Columns(text: string): string
    decreases |text|
  {
    if text == "" then ""
    else if |text| <= COLUMNS then text + "\n"
    else text[..COLUMNS] + "\n" + Columns(text[COLUMNS..])
  }

  function BodyOf(der: Der): string {
    "\n" + Columns(Encode(der))
  }

  function Block(f: Format, body: string): string {
    f.begin + body + f.end + "\n"
  }

  function Blocks(f: Format, bodies: seq<string>): string {
    if bodies == [] then "" else Block(f, bodies[0]) + Blocks(f, bodies[1..])
  }

  function BodiesOf(ders: seq<Der>): seq<string> {
    seq(|ders|, i requires 0 <= i < |ders| => BodyOf(ders[i]))
  }

  function CertToPem(der: Der): string {
    Block(CertificateFormat(), BodyOf(der))
  }

  function ConcatenatePem(ders: seq<Der>): string {
    if ders == [] then "" else CertToPem(ders[0]) + ConcatenatePem(ders[1..])
  }

  lemma {:induction false} ConcatenatedBlocks(f: Format, ders: seq<Der>)
    requires f == CertificateFormat()
    ensures ConcatenatePem(ders) == Blocks(f, BodiesOf(ders))
  {
    if ders != [] {
      ConcatenatedBlocks(f, ders[1..]);
      assert BodiesOf(ders)[0] == BodyOf(ders[0]) && BodiesOf(ders)[1..] == BodiesOf(ders[1..]);
    }
  }

  method PrintCertificate(der: Der) returns (pem: string)
    ensures pem == CertToPem(der)
  {
    var f := CertificateFormat();
    pem := PrintColumns(f.begin, f.end, Encode(der));
    assert pem == Block(f, BodyOf(der));
  }

  method PrintColumns(begin: string, end: string, encoded: string) returns (pem: string)
    ensures pem == begin + ("\n" + Columns(encoded)) + end + "\n"
  {
    pem := begin + "\n";
    var from := 0;
    while from < |encoded|
      invariant 0 <= from <= |encoded|
      invariant pem + Columns(encoded[from..]) == begin + "\n" + Columns(encoded)
    {
      var next := if from + COLUMNS <= |encoded| then from + COLUMNS else |encoded|;
      ghost var rest := encoded[from..];
      assert rest[..next - from] == encoded[from..next] && rest[next - from..] == encoded[next..];
      ColumnsStep(rest, next - from);
      pem := pem + encoded[from..next] + "\n";
      from := next;
    }
    assert encoded[from..] == "" && pem + "" == pem;
    assert begin + "\n" + Columns(encoded) == begin + ("\n" + Columns(encoded));
    pem := pem + end + "\n";
  }

  lemma ColumnsStep(text: string, n: nat)
    requires text != "" && n <= |text| && (n == COLUMNS || (n == |text| && n < COLUMNS))
    ensures Columns(text) == text[..n] + "\n" + Columns(text[n..])
  {
    if n == |text| {
      assert text[..n] == text && text[n..] == "";
    }
  }

  // ---------------------------------------------------------------------------- parsing

  /** What one round of the reading loop finds. */
  datatype Round = Finished | Broken | Read(der: Der, rest: string)

  function NextCertificate(f: Format, pem: string): (r: Round)
    ensures r.Read? ==> |r.rest| < |pem|
  {
    match Find(pem, f.begin)
    case None => Finished
    case Some(begin) =>
      var afterBegin := pem[begin + |f.begin|..];
      match Find(afterBegin, f.end)
      case None => Broken
      case Some(end) =>
        match DecodeBody(afterBegin[..end])
        case None => Broken
        case Some(der) => Read(der, afterBegin[end + |f.end|..])
  }

  function ParsePemChain(f: Format, pem: string): Parsed
    decreases |pem|
  {
    match NextCertificate(f, pem)
    case Finished => Certificates([])
    case Broken => InvalidPem
    case Read(der, rest) => Prepend([der], ParsePemChain(f, rest))
  }

  /** Certificates already read, in front of what the rest gives. */
  function Prepend(certs: seq<Der>, rest: Parsed): Parsed {
    match rest
    case InvalidPem => InvalidPem
    case Certificates(ders) => Certificates(certs + ders)
  }

  lemma PrependTwice(a: seq<Der>, b: seq<Der>, rest: Parsed)
    ensures Prepend(a, Prepend(b, rest)) == Prepend(a + b, rest)
  {
    if rest.Certificates? {
      assert a + (b + rest.ders) == a + b + rest.ders;
    }
  }

  /** One round of the loop. */
  method ReadNext(f: Format, pem: string) returns (round: Round)
    ensures round == NextCertificate(f, pem)
  {
    var begin := Find(pem, f.begin);
    if begin.None? {
      return Finished;
    }
    var afterBegin := pem[begin.value + |f.begin|..];
    var end := Find(afterBegin, f.end);
    if end.None? {
      return Broken;
    }
    var der := DecodeBody(afterBegin[..end.value]);
    if der.None? {
      return Broken;
    }
    round := Read(der.value, afterBegin[end.value + |f.end|..]);
  }

  lemma RoundRead(f: Format, certs: seq<Der>, pem: string, round: Round, whole: Parsed)
    requires round == NextCertificate(f, pem) && Prepend(certs, ParsePemChain(f, pem)) == whole
    ensures round == Finished ==> whole == Certificates(certs)
    ensures round == Broken ==> whole == InvalidPem
    ensures round.Read? ==> Prepend(certs + [round.der], ParsePemChain(f, round.rest)) == whole
  {
    if round.Read? {
      PrependTwice(certs, [round.der], ParsePemChain(f, round.rest));
    }
  }

  method ReadPemChain(f: Format, pem: string) returns (parsed: Parsed)
    ensures parsed == ParsePemChain(f, pem)
  {
    ghost var whole := ParsePemChain(f, pem);
    var certs: seq<Der> := [];
    var rest := pem;
    var round := ReadNext(f, rest);
    while round.Read?
      invariant round == NextCertificate(f, rest)
      invariant Prepend(certs, ParsePemChain(f, rest)) == whole
      decreases |rest|
    {
      RoundRead(f, certs, rest, round, whole);
      certs, rest := certs + [round.der], round.rest;
      round := ReadNext(f, rest);
    }
    RoundRead(f, certs, rest, round, whole);
    parsed := if round == Finished then Certificates(certs) else InvalidPem;
  }

  // ------------------------------------------------------------------------- round trip

  lemma {:induction false} ColumnsOnlyAddNewlines(text: string)
    requires forall c :: c in text ==> !IsWhitespace(c)
    ensures WithoutWhitespace(Columns(text)) == text
    ensures forall c :: c in Columns(text) ==> c in text || c == '\n'
    decreases |text|
  {
    if text != "" {
      var n := if |text| <= COLUMNS then |text| else COLUMNS;
      ColumnsOnlyAddNewlines(text[n..]);
      ColumnsStep(text, n);
      LineStripped(text[..n], Columns(text[n..]));
      assert text[..n] + text[n..] == text;
    }
  }

  lemma LineStripped(line: string, rest: string)
    requires forall c :: c in line ==> !IsWhitespace(c)
    ensures WithoutWhitespace(line + "\n" + rest) == line + WithoutWhitespace(rest)
  {
    WithoutWhitespaceAppend(line + "\n", rest);
    WithoutWhitespaceAppend(line, "\n");
    WithoutWhitespaceKeeps(line);
    WhitespaceDropped("\n");
  }

  /** The body printed for a text without whitespace is that text with whitespace added. */
  lemma BodyStripped(text: string)
    requires forall c :: c in text ==> !IsWhitespace(c) && c != '-'
    ensures WithoutWhitespace("\n" + Columns(text)) == text
    ensures '-' !in "\n" + Columns(text)
  {
    ColumnsOnlyAddNewlines(text);
    LineStripped("", Columns(text));
    assert "" + "\n" + Columns(text) == "\n" + Columns(text);
  }

  /** What stands between the markers of a printed certificate decodes to it. */
  lemma BodyDecodes(der: Der)
    ensures Decode(WithoutWhitespace(BodyOf(der))) == Some(der)
    ensures '-' !in BodyOf(der)
  {
    EncodedBodyStripped(der, Encode(der));
    DecodeEncode(der);
  }

  lemma EncodedBodyStripped(der: Der, text: string)
    requires text == Encode(der)
    ensures WithoutWhitespace("\n" + Columns(text)) == text && '-' !in "\n" + Columns(text)
  {
    EncodeSymbols(der);
    assert forall c :: c in text ==> Plain(c);
    BodyStripped(text);
  }

  predicate Carries(body: string, der: Der) {
    '-' !in body && DecodeBody(body) == Some(der)
  }

  /** A marked body is read back, after text without dashes and before anything. */
  lemma MarkedRoundTrip(f: Format, before: string, body: string, after: string, der: Der)
    requires '-' !in before && Carries(body, der)
    ensures NextCertificate(f, before + f.begin + (body + f.end + after)) == Read(der, after)
  {
    var afterBegin := body + f.end + after;
    var text := before + f.begin + afterBegin;
    FindAfter(before, f.begin, afterBegin);
    assert text[|before| + |f.begin|..] == afterBegin;
    FindAfter(body, f.end, after);
    assert afterBegin[..|body|] == body && afterBegin[|body| + |f.end|..] == after;
  }

  lemma Regroup(a: string, b: string, c: string, d: string, e: string, g: string)
    ensures a + (b + c + d + e + g) == a + b + (c + d + (e + g))
  {
  }

  /** One printed block, and then whatever is read after it. */
  lemma BlockRoundTrip(f: Format, before: string, bodies: seq<string>, der: Der, ders: seq<Der>)
    requires bodies != [] && '-' !in before && Carries(bodies[0], der)
    requires ParsePemChain(f, "\n" + Blocks(f, bodies[1..])) == Certificates(ders)
    ensures ParsePemChain(f, before + Blocks(f, bodies)) == Certificates([der] + ders)
  {
    MarkedRoundTrip(f, before, bodies[0], "\n" + Blocks(f, bodies[1..]), der);
    Regroup(before, f.begin, bodies[0], f.end, "\n", Blocks(f, bodies[1..]));
  }

  lemma {:induction false} ChainRoundTrip(f: Format, before: string, bodies: seq<string>, ders: seq<Der>)
    requires '-' !in before && |bodies| == |ders|
    requires forall i :: 0 <= i < |ders| ==> Carries(bodies[i], ders[i])
    ensures ParsePemChain(f, before + Blocks(f, bodies)) == Certificates(ders)
    decreases |ders|
  {
    if ders == [] {
      assert before + Blocks(f, bodies) == before;
      FindNowhere(before, f.begin);
    } else {
      ChainRoundTrip(f, "\n", bodies[1..], ders[1..]);
      BlockRoundTrip(f, before, bodies, ders[0], ders[1..]);
      assert [ders[0]] + ders[1..] == ders;
    }
  }

  /** A chain printed between any markers is read back. */
  lemma FormatRoundTrip(f: Format, ders: seq<Der>)
    ensures ParsePemChain(f, Blocks(f, BodiesOf(ders))) == Certificates(ders)
  {
    forall i | 0 <= i < |ders| ensures Carries(BodyOf(ders[i]), ders[i]) {
      BodyDecodes(ders[i]);
    }
    ChainRoundTrip(f, "", BodiesOf(ders), ders);
    assert "" + Blocks(f, BodiesOf(ders)) == Blocks(f, BodiesOf(ders));
  }

  /** Every list of certificates is read back from its printed form. */
  lemma PemRoundTrip(ders: seq<Der>)
    ensures ParsePemChain(CertificateFormat(), ConcatenatePem(ders)) == Certificates(ders)
  {
    ConcatenatedBlocks(CertificateFormat(), ders);
    FormatRoundTrip(CertificateFormat(), ders);
  }
}
