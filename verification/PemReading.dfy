/** Which texts the certificate reader accepts, and how wide the printer's lines are. */
module PemReading {
  import opened Text
  import opened Search
  import opened Base64
  import opened PemMarkers
  import opened PemCertificates

  /**
   * What the text holds: the first BEGIN marker has an END marker behind it, what stands up
   * to the first of those is, without whitespace, the base64 of a certificate, and the text
   * behind holds the others; a text without a BEGIN marker holds none.
   */
  ghost predicate Holds(f: Format, pem: string, ders: seq<Der>)
    decreases |ders|
  {
    if ders == [] then HoldsNone(f, pem)
    else exists rest :: Begins(f, pem, ders[0], rest) && Holds(f, rest, ders[1..])
  }

  ghost predicate HoldsNone(f: Format, pem: string) {
    forall i: nat :: !OccursAt(pem, f.begin, i)
  }

  ghost predicate Begins(f: Format, pem: string, der: Der, rest: string) {
    exists i: nat, j: nat :: StandsAt(f, pem, i, j, der, rest)
  }

  /** The first BEGIN marker is at `i`, and the first END marker comes `j` behind it. */
  ghost predicate StandsAt(f: Format, pem: string, i: nat, j: nat, der: Der, rest: string) {
    && IsFirst(pem, f.begin, i)
    && IsFirst(pem[i + |f.begin|..], f.end, j)
    && Decode(WithoutWhitespace(pem[i + |f.begin|..][..j])) == Some(der)
    && rest == pem[i + |f.begin|..][j + |f.end|..]
  }

  lemma FirstFound(s: string, pattern: string, i: nat)
    ensures IsFirst(s, pattern, i) <==> Find(s, pattern) == Some(i)
  {
    FindFirst(s, pattern);
    if IsFirst(s, pattern, i) {
      var j := Find(s, pattern).value;
      assert i <= j && j <= i;
    }
  }

  lemma StandsIsRead(f: Format, pem: string, i: nat, j: nat, der: Der, rest: string)
    requires StandsAt(f, pem, i, j, der, rest)
    ensures NextCertificate(f, pem) == Read(der, rest)
  {
    FirstFound(pem, f.begin, i);
    FirstFound(pem[i + |f.begin|..], f.end, j);
  }

  lemma ReadStands(f: Format, pem: string, der: Der, rest: string)
    requires NextCertificate(f, pem) == Read(der, rest)
    ensures Begins(f, pem, der, rest)
  {
    var i := Find(pem, f.begin).value;
    var j := Find(pem[i + |f.begin|..], f.end).value;
    FirstFound(pem, f.begin, i);
    FirstFound(pem[i + |f.begin|..], f.end, j);
    assert StandsAt(f, pem, i, j, der, rest);
  }

  /** One round reads exactly what stands first. */
  lemma RoundExact(f: Format, pem: string)
    ensures NextCertificate(f, pem) == Finished <==> HoldsNone(f, pem)
    ensures forall der, rest :: NextCertificate(f, pem) == Read(der, rest) <==> Begins(f, pem, der, rest)
  {
    FindFirst(pem, f.begin);
    forall der, rest ensures NextCertificate(f, pem) == Read(der, rest) <==> Begins(f, pem, der, rest) {
      if NextCertificate(f, pem) == Read(der, rest) {
        ReadStands(f, pem, der, rest);
      }
      if Begins(f, pem, der, rest) {
        var i: nat, j: nat :| StandsAt(f, pem, i, j, der, rest);
        StandsIsRead(f, pem, i, j, der, rest);
      }
    }
  }

  lemma FirstHeld(f: Format, pem: string, ders: seq<Der>) returns (rest: string)
    requires ders != [] && Holds(f, pem, ders)
    ensures NextCertificate(f, pem) == Read(ders[0], rest) && Holds(f, rest, ders[1..])
  {
    rest :| Begins(f, pem, ders[0], rest) && Holds(f, rest, ders[1..]);
    RoundExact(f, pem);
  }

  lemma ParsesOn(f: Format, pem: string, rest: string, ders: seq<Der>)
    requires ders != [] && NextCertificate(f, pem) == Read(ders[0], rest)
    requires ParsePemChain(f, rest) == Certificates(ders[1..])
    ensures ParsePemChain(f, pem) == Certificates(ders)
  {
    assert [ders[0]] + ders[1..] == ders;
  }

  lemma NoneParsed(f: Format, pem: string)
    requires Holds(f, pem, [])
    ensures ParsePemChain(f, pem) == Certificates([])
  {
    RoundExact(f, pem);
  }

  lemma {:induction false} HeldIsParsed(f: Format, pem: string, ders: seq<Der>)
    requires Holds(f, pem, ders)
    ensures ParsePemChain(f, pem) == Certificates(ders)
    decreases |ders|
  {
    if ders == [] {
      NoneParsed(f, pem);
    } else {
      var rest := FirstHeld(f, pem, ders);
      HeldIsParsed(f, rest, ders[1..]);
      ParsesOn(f, pem, rest, ders);
    }
  }

  lemma {:induction false} ParsedIsHeld(f: Format, pem: string)
    ensures ParsePemChain(f, pem).Certificates? ==> Holds(f, pem, ParsePemChain(f, pem).ders)
    decreases |pem|
  {
    RoundExact(f, pem);
    var round := NextCertificate(f, pem);
    if round.Read? && ParsePemChain(f, round.rest).Certificates? {
      var ders := ParsePemChain(f, round.rest).ders;
      ParsedIsHeld(f, round.rest);
      HoldsBehind(f, pem, round.der, round.rest, ders);
    }
  }

  lemma HoldsBehind(f: Format, pem: string, der: Der, rest: string, ders: seq<Der>)
    requires Begins(f, pem, der, rest) && Holds(f, rest, ders)
    ensures Holds(f, pem, [der] + ders)
  {
    var all := [der] + ders;
    assert all[0] == der && all[1..] == ders;
  }

  /** The reader accepts exactly the texts that hold certificates in this way, and gives those. */
  lemma ParsedExactly(f: Format, pem: string, ders: seq<Der>)
    ensures ParsePemChain(f, pem) == Certificates(ders) <==> Holds(f, pem, ders)
    ensures ParsePemChain(f, pem) == InvalidPem <==> forall found :: !Holds(f, pem, found)
  {
    var parsed := ParsePemChain(f, pem);
    ParsedIsHeld(f, pem);
    assert parsed.Certificates? ==> Holds(f, pem, parsed.ders);
    forall found | Holds(f, pem, found) ensures parsed == Certificates(found) {
      HeldIsParsed(f, pem, found);
    }
  }

  lemma {:induction false} ColumnsLength(text: string)
    ensures |Columns(text)| == |text| + (|text| + 63) / 64
    decreases |text|
  {
    if |text| > 64 {
      ColumnsLength(text[64..]);
    }
  }

  lemma OneLineUp(k: nat)
    requires k >= 65
    ensures (k - 65) % 65 == k % 65 && 64 + ((k - 65) / 65 * 64 + (k - 65) % 65) == k / 65 * 64 + k % 65
  {
  }

  /** The lines are 64 characters wide: position `k` of the columns. */
  lemma {:induction false} ColumnsAt(text: string, k: nat)
    requires k < |Columns(text)|
    ensures |Columns(text)| == |text| + (|text| + 63) / 64
    ensures if k % 65 == 64 || k == |Columns(text)| - 1 then Columns(text)[k] == '\n'
            else k / 65 * 64 + k % 65 < |text| && Columns(text)[k] == text[k / 65 * 64 + k % 65]
    decreases |text|
  {
    ColumnsLength(text);
    if |text| > 64 && k >= 65 {
      ColumnsAt(text[64..], k - 65);
      OneLineUp(k);
    }
  }
}
