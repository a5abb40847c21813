/** Which blocks a configured chain is cut into, whatever text it is. */
module PemBlockReading {
  import opened Text
  import opened Search
  import opened PemMarkers
  import opened PemBlocks

  /** The markers and the form of a block, written out. */
  lemma BlockText(body: string)
    ensures Render(CertificateFormat(), body)
            == "-----BEGIN CERTIFICATE-----\n" + body + "\n-----END CERTIFICATE-----\n"
  {
    var begin, end := "-----BEGIN CERTIFICATE-----", "-----END CERTIFICATE-----";
    assert CertificateFormat().begin == begin && CertificateFormat().end == end;
    assert begin + "\n" == "-----BEGIN CERTIFICATE-----\n";
    assert "\n" + end + "\n" == "\n-----END CERTIFICATE-----\n";
    Regrouped(begin, body, end, "\n");
  }

  lemma Regrouped(begin: string, body: string, end: string, line: string)
    ensures begin + (line + body + line) + end + line == begin + line + body + (line + end + line)
  {
  }

  // -------------------------------------------------------------------------- line ends

  /** Every line end, `\r\n`, `\r` or `\n`, as `\n`. */
  function WithLineFeeds(s: string): string
    decreases |s|
  {
    if s == "" then ""
    else if s[0] != '\r' then [s[0]] + WithLineFeeds(s[1..])
    else if |s| > 1 && s[1] == '\n' then ['\n'] + WithLineFeeds(s[2..])
    else ['\n'] + WithLineFeeds(s[1..])
  }

  lemma PairsStep(s: string)
    requires s != ""
    ensures ReplaceAll(s, "\r\n", "\n")
            == if |s| > 1 && s[0] == '\r' && s[1] == '\n' then ['\n'] + ReplaceAll(s[2..], "\r\n", "\n")
               else [s[0]] + ReplaceAll(s[1..], "\r\n", "\n")
  {
    if |s| > 1 {
      assert s[..2] == [s[0], s[1]];
    }
  }

  lemma ReturnsStep(c: char, rest: string)
    ensures ReplaceAll([c] + rest, "\r", "\n") == [if c == '\r' then '\n' else c] + ReplaceAll(rest, "\r", "\n")
  {
    var s := [c] + rest;
    assert s[..1] == [c] && s[1..] == rest;
  }

  /** The two replacements bring every line end to a line feed. */
  lemma {:induction false} LineEndsNormalized(s: string)
    ensures NormalizeNewlines(s) == WithLineFeeds(s)
    decreases |s|
  {
    if s != "" {
      PairsStep(s);
      if |s| > 1 && s[0] == '\r' && s[1] == '\n' {
        ReturnsStep('\n', ReplaceAll(s[2..], "\r\n", "\n"));
        LineEndsNormalized(s[2..]);
      } else {
        ReturnsStep(s[0], ReplaceAll(s[1..], "\r\n", "\n"));
        LineEndsNormalized(s[1..]);
      }
    }
  }

  // ------------------------------------------------------------------------------ blocks

  /**
   * What the text holds: from the first BEGIN marker the first END marker is found, what
   * stands between them, without whitespace, is the body of a block, and the text behind
   * holds the others; a text without a BEGIN marker, or with nothing to close it, holds none.
   */
  ghost predicate Holds(f: Format, pem: string, bodies: seq<string>)
    decreases |bodies|
  {
    if bodies == [] then HoldsNone(f, pem)
    else exists rest :: Begins(f, pem, bodies[0], rest) && Holds(f, rest, bodies[1..])
  }

  ghost predicate HoldsNone(f: Format, pem: string) {
    forall i: nat, j: nat :: !EnclosedAt(f, pem, i, j)
  }

  /** The first BEGIN marker is at `i`; from there the first END marker comes after `j` characters. */
  ghost predicate EnclosedAt(f: Format, pem: string, i: nat, j: nat) {
    IsFirst(pem, f.begin, i) && IsFirst(pem[i..], f.end, j)
  }

  ghost predicate Begins(f: Format, pem: string, body: string, rest: string) {
    exists i: nat, j: nat :: StandsAt(f, pem, i, j, body, rest)
  }

  ghost predicate StandsAt(f: Format, pem: string, i: nat, j: nat, body: string, rest: string) {
    && EnclosedAt(f, pem, i, j)
    && |f.begin| <= j
    && body == WithoutWhitespace(pem[i..][|f.begin|..j])
    && rest == pem[i..][j + |f.end|..]
  }

  lemma FirstFound(s: string, pattern: string, i: nat)
    ensures IsFirst(s, pattern, i) <==> Find(s, pattern) == Some(i)
  {
    FindFirst(s, pattern);
    if IsFirst(s, pattern, i) {
      var j := Find(s, pattern).value;
      assert i <= j && j <= i;
    }
  }

  lemma EnclosedFound(f: Format, pem: string, i: nat, j: nat)
    ensures EnclosedAt(f, pem, i, j)
            <==> Find(pem, f.begin) == Some(i) && Find(pem[i..], f.end) == Some(j)
  {
    FirstFound(pem, f.begin, i);
    if i <= |pem| {
      FirstFound(pem[i..], f.end, j);
    }
  }

  lemma StandsIsFound(f: Format, pem: string, i: nat, j: nat, body: string, rest: string)
    requires StandsAt(f, pem, i, j, body, rest)
    ensures NextBlock(f, pem) == Found(body, rest)
  {
    EnclosedFound(f, pem, i, j);
    RoundFrom(f, pem, i, pem[i..], j);
  }

  lemma FoundStands(f: Format, pem: string, body: string, rest: string)
    requires NextBlock(f, pem) == Found(body, rest)
    ensures Begins(f, pem, body, rest)
  {
    var i := Find(pem, f.begin).value;
    var j := Find(pem[i..], f.end).value;
    EnclosedFound(f, pem, i, j);
    assert StandsAt(f, pem, i, j, body, rest);
  }

  lemma NoneFound(f: Format, pem: string)
    ensures NextBlock(f, pem) == Finished <==> HoldsNone(f, pem)
  {
    forall i: nat, j: nat ensures EnclosedAt(f, pem, i, j)
                                  <==> Find(pem, f.begin) == Some(i) && i <= |pem| && Find(pem[i..], f.end) == Some(j)
    {
      EnclosedFound(f, pem, i, j);
    }
    var begin := Find(pem, f.begin);
    if begin.Some? && Find(pem[begin.value..], f.end).Some? {
      assert EnclosedAt(f, pem, begin.value, Find(pem[begin.value..], f.end).value);
    }
  }

  function Rendered(f: Format, bodies: seq<string>): (blocks: seq<string>)
    ensures |blocks| == |bodies| && forall i :: 0 <= i < |blocks| ==> blocks[i] == Render(f, bodies[i])
  {
    seq(|bodies|, i requires 0 <= i < |bodies| => Render(f, bodies[i]))
  }

  lemma FirstHeld(f: Format, pem: string, bodies: seq<string>) returns (rest: string)
    requires bodies != [] && Holds(f, pem, bodies)
    ensures NextBlock(f, pem) == Found(bodies[0], rest) && Holds(f, rest, bodies[1..])
  {
    rest :| Begins(f, pem, bodies[0], rest) && Holds(f, rest, bodies[1..]);
    var i: nat, j: nat :| StandsAt(f, pem, i, j, bodies[0], rest);
    StandsIsFound(f, pem, i, j, bodies[0], rest);
  }

  lemma ParsesOn(f: Format, pem: string, rest: string, bodies: seq<string>)
    requires bodies != [] && NextBlock(f, pem) == Found(bodies[0], rest)
    requires ParseBlocks(f, rest) == Blocks(Rendered(f, bodies[1..]))
    ensures ParseBlocks(f, pem) == Blocks(Rendered(f, bodies))
  {
    assert [Render(f, bodies[0])] + Rendered(f, bodies[1..]) == Rendered(f, bodies);
  }

  lemma NoneParsed(f: Format, pem: string)
    requires HoldsNone(f, pem)
    ensures ParseBlocks(f, pem) == Blocks(Rendered(f, []))
  {
    NoneFound(f, pem);
  }

  lemma {:induction false} HeldIsParsed(f: Format, pem: string, bodies: seq<string>)
    requires Holds(f, pem, bodies)
    ensures ParseBlocks(f, pem) == Blocks(Rendered(f, bodies))
    decreases |bodies|
  {
    if bodies == [] {
      NoneParsed(f, pem);
    } else {
      var rest := FirstHeld(f, pem, bodies);
      HeldIsParsed(f, rest, bodies[1..]);
      ParsesOn(f, pem, rest, bodies);
    }
  }

  lemma HoldsBehind(f: Format, pem: string, body: string, rest: string, bodies: seq<string>)
    requires Begins(f, pem, body, rest) && Holds(f, rest, bodies)
    ensures Holds(f, pem, [body] + bodies)
  {
    var all := [body] + bodies;
    assert all[0] == body && all[1..] == bodies;
  }

  lemma {:induction false} ParsedIsHeld(f: Format, pem: string) returns (bodies: seq<string>)
    requires ParseBlocks(f, pem).Blocks?
    ensures Holds(f, pem, bodies)
    decreases |pem|
  {
    var round := NextBlock(f, pem);
    if round == Finished {
      NoneFound(f, pem);
      bodies := [];
    } else {
      bodies := ParsedIsHeld(f, round.rest);
      FoundStands(f, pem, round.body, round.rest);
      HoldsBehind(f, pem, round.body, round.rest, bodies);
      bodies := [round.body] + bodies;
    }
  }

  lemma BlocksExactly(f: Format, pem: string)
    ensures ParseBlocks(f, pem) == Panic <==> forall bodies :: !Holds(f, pem, bodies)
    ensures forall bodies :: Holds(f, pem, bodies) ==> ParseBlocks(f, pem) == Blocks(Rendered(f, bodies))
  {
    if ParseBlocks(f, pem).Blocks? {
      var bodies := ParsedIsHeld(f, pem);
      assert Holds(f, pem, bodies);
    }
    forall bodies | Holds(f, pem, bodies) ensures ParseBlocks(f, pem) == Blocks(Rendered(f, bodies)) {
      HeldIsParsed(f, pem, bodies);
    }
  }

  /** The parser does not panic exactly when the normalised text holds some bodies in this way, and gives their blocks. */
  lemma ParsedExactly(f: Format, pemChain: string)
    ensures ParsePemChain(f, pemChain) == Panic
            <==> forall bodies :: !Holds(f, NormalizeNewlines(pemChain), bodies)
    ensures forall bodies :: Holds(f, NormalizeNewlines(pemChain), bodies)
                             ==> ParsePemChain(f, pemChain) == Blocks(Rendered(f, bodies))
  {
    BlocksExactly(f, NormalizeNewlines(pemChain));
  }
}
