/** Subscription bodies sent as base64 in any of its common spellings (sections 4 and 5 of RFC 4648). */
module Subscription {
  import opened Text
  import Base64
  import Utf8

  predicate Allowed(c: char) {
    || 'A' <= c <= 'Z'
    || 'a' <= c <= 'z'
    || '0' <= c <= '9'
    || c == '+' || c == '/' || c == '_' || c == '-' || c == '='
  }

  /** The URL-safe symbols as their standard ones, `_` first and then `-`. */
  function Standard(c: char): char {
    var slashed := if c == '_' then '/' else c;
    if slashed == '-' then '+' else slashed
  }

  function StandardText(s: string): (r: string)
    ensures |r| == |s|
  {
    seq(|s|, i requires 0 <= i < |s| => Standard(s[i]))
  }

  function Padding(n: nat): (r: string)
    ensures |r| == n && forall c :: c in r ==> c == '='
  {
    seq(n, i => '=')
  }

  function Padded(s: string): string {
    if |s| % 4 != 0 then s + Padding(4 - |s| % 4) else s
  }

  function DecodePayload(input: string): Option<string> {
    var stripped := WithoutWhitespace(Trim(input));
    if stripped == "" || exists c :: c in stripped && !Allowed(c) then None
    else TextOf(Base64.Decode(Padded(StandardText(stripped))))
  }

  function TextOf(bytes: Option<seq<Base64.Byte>>): Option<string> {
    match bytes
    case None => None
    case Some(b) =>
      match Utf8.Decode(b)
      case None => None
      case Some(text) => if Trim(text) == "" then None else Some(Trim(text))
  }

  // -------------------------------------------------------------------- what is accepted

  /** `s` spells `encoded`: either alphabet, with any number of the closing `=` left out. */
  predicate Spells(s: string, encoded: string) {
    && |s| <= |encoded|
    && (forall i :: 0 <= i < |s| ==> Standard(s[i]) == encoded[i])
    && (forall i :: |s| <= i < |encoded| ==> encoded[i] == '=')
  }

  /** `input` carries `text`: a spelling of its encoded UTF-8, with whitespace anywhere. */
  predicate Carries(input: string, text: string) {
    Spells(WithoutWhitespace(input), Base64.Encode(Utf8.Encode(text)))
  }

  lemma {:induction false} TrimStartKeeps(s: string)
    ensures WithoutWhitespace(TrimStart(s)) == WithoutWhitespace(s)
  {
    if s != [] && IsWhitespace(s[0]) {
      TrimStartKeeps(s[1..]);
    }
  }

  lemma {:induction false} TrimEndKeeps(s: string)
    ensures WithoutWhitespace(TrimEnd(s)) == WithoutWhitespace(s)
  {
    if s != [] && IsWhitespace(s[|s| - 1]) {
      var last := |s| - 1;
      TrimEndKeeps(s[..last]);
      WithoutWhitespaceAppend(s[..last], s[last..]);
      WhitespaceDropped(s[last..]);
      assert s[..last] + s[last..] == s;
    }
  }

  /** Trimming removes nothing that the whitespace filter keeps. */
  lemma TrimKeeps(s: string)
    ensures WithoutWhitespace(Trim(s)) == WithoutWhitespace(s)
  {
    TrimStartKeeps(s);
    TrimEndKeeps(TrimStart(s));
  }

  /** Fewer than three closing `=` can be missing, and padding restores them. */
  lemma PaddedTo(s: string, encoded: string)
    requires Spells(s, encoded) && |encoded| % 4 == 0
    requires encoded != "" ==> |encoded| >= 4 && encoded[|encoded| - 3] != '='
    ensures Padded(StandardText(s)) == encoded
  {
    assert encoded != "" ==> |encoded| - 3 < |s|;
  }

  lemma PaddedSpelling(s: string, bytes: seq<Base64.Byte>)
    requires Spells(s, Base64.Encode(bytes))
    ensures Padded(StandardText(s)) == Base64.Encode(bytes)
  {
    Base64.EncodeLength(bytes);
    Base64.PaddingIsShort(bytes);
    PaddedTo(s, Base64.Encode(bytes));
  }

  /** Each text that decoding accepts spells the bytes it decodes to. */
  lemma PaddedDecodes(s: string, bytes: seq<Base64.Byte>)
    requires Base64.Decode(Padded(StandardText(s))) == Some(bytes)
    ensures Spells(s, Base64.Encode(bytes))
  {
    Base64.EncodeDecode(Padded(StandardText(s)));
  }

  lemma SpellingIsAllowed(s: string, bytes: seq<Base64.Byte>)
    requires Spells(s, Base64.Encode(bytes))
    ensures forall c :: c in s ==> Allowed(c)
  {
    Base64.EncodeSymbols(bytes);
    forall i | 0 <= i < |s| ensures Allowed(s[i]) {
      assert Base64.Plain(Base64.Encode(bytes)[i]);
    }
  }

  /** A carried text comes out trimmed, unless it is blank. */
  lemma CarriedTextIsDecoded(input: string, text: string)
    requires Carries(input, text)
    ensures DecodePayload(input) == if Trim(text) == "" then None else Some(Trim(text))
  {
    var stripped, bytes := WithoutWhitespace(input), Utf8.Encode(text);
    TrimKeeps(input);
    SpellingIsAllowed(stripped, bytes);
    PaddedSpelling(stripped, bytes);
    Base64.DecodeEncode(bytes);
    Utf8.DecodeEncode(text);
  }

  /** Nothing else is decoded. */
  lemma DecodedTextIsCarried(input: string, trimmed: string)
    requires DecodePayload(input) == Some(trimmed)
    ensures trimmed != "" && exists text :: Carries(input, text) && Trim(text) == trimmed
  {
    var stripped := WithoutWhitespace(input);
    TrimKeeps(input);
    var bytes := Base64.Decode(Padded(StandardText(stripped))).value;
    PaddedDecodes(stripped, bytes);
    Utf8.EncodeDecode(bytes);
    assert Carries(input, Utf8.Decode(bytes).value);
  }

  /** The decoder accepts exactly the spellings of a text that is not blank, and gives it trimmed. */
  lemma PayloadExact(input: string, trimmed: string)
    ensures DecodePayload(input) == Some(trimmed)
            <==> trimmed != "" && exists text :: Carries(input, text) && Trim(text) == trimmed
  {
    if DecodePayload(input) == Some(trimmed) {
      DecodedTextIsCarried(input, trimmed);
    } else if trimmed != "" {
      forall text | Carries(input, text) ensures Trim(text) != trimmed {
        CarriedTextIsDecoded(input, text);
      }
    }
  }

  lemma PayloadMeans(input: string)
    ensures var r := DecodePayload(input);
            && (r.Some? ==> r.value != "" && exists text :: Carries(input, text) && Trim(text) == r.value)
            && forall text :: Carries(input, text) ==> r == if Trim(text) == "" then None else Some(Trim(text))
  {
    if DecodePayload(input).Some? {
      DecodedTextIsCarried(input, DecodePayload(input).value);
    }
    forall text | Carries(input, text)
      ensures DecodePayload(input) == if Trim(text) == "" then None else Some(Trim(text))
    {
      CarriedTextIsDecoded(input, text);
    }
  }

  method NormalizeAndDecode(input: string) returns (r: Option<string>)
    ensures r == DecodePayload(input)
  {
    var normalized := WithoutWhitespace(Trim(input));
    if normalized == "" || exists c :: c in normalized && !Allowed(c) {
      return None;
    }
    normalized := StandardText(normalized);
    if |normalized| % 4 != 0 {
      normalized := normalized + Padding(4 - |normalized| % 4);
    }
    var bytes := Base64.Decode(normalized);
    if bytes.None? {
      return None;
    }
    var decoded := Utf8.Decode(bytes.value);
    if decoded.None? {
      return None;
    }
    var trimmed := Trim(decoded.value);
    r := if trimmed == "" then None else Some(trimmed);
  }

  /** Gives the text that the input carries, trimmed, and nothing for any other input or a blank text. */
  method DecodeBase64Payload(input: string) returns (r: Option<string>)
    ensures r.Some? ==> r.value != "" && exists text :: Carries(input, text) && Trim(text) == r.value
    ensures forall text :: Carries(input, text) ==> r == if Trim(text) == "" then None else Some(Trim(text))
  {
    r := NormalizeAndDecode(input);
    PayloadMeans(input);
  }
}
