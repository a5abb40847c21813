/** Standard base64 with padding, encoded and strictly decoded (section 4 of RFC 4648). */
module Base64 {
  import opened Text

  type Byte = x: int | 0 <= x < 256
  type Sextet = x: int | 0 <= x < 64

  function CharOf(v: Sextet): char {
    if v < 26 then ('A' as int + v) as char
    else if v < 52 then ('a' as int + v - 26) as char
    else if v < 62 then ('0' as int + v - 52) as char
    else if v == 62 then '+'
    else '/'
  }

  function ValueOf(c: char): (r: Option<Sextet>)
    ensures r.Some? ==> CharOf(r.value) == c
  {
    if 'A' <= c <= 'Z' then Some(c as int - 'A' as int)
    else if 'a' <= c <= 'z' then Some(c as int - 'a' as int + 26)
    else if '0' <= c <= '9' then Some(c as int - '0' as int + 52)
    else if c == '+' then Some(62)
    else if c == '/' then Some(63)
    else None
  }

  predicate IsSymbol(c: char) {
    ValueOf(c).Some? || c == '='
  }

  lemma ValueOfCharOf(v: Sextet)
    ensures ValueOf(CharOf(v)) == Some(v)
    ensures CharOf(v) != '=' && CharOf(v) != '-' && CharOf(v) != '_' && !IsWhitespace(CharOf(v))
  {
  }

  // The six-bit groups of up to three bytes, and the bytes of four groups.

  function First(b0: Byte): Sextet { b0 / 4 }
  function Second(b0: Byte, b1: Byte): Sextet { b0 % 4 * 16 + b1 / 16 }
  function Third(b1: Byte, b2: Byte): Sextet { b1 % 16 * 4 + b2 / 64 }
  function Fourth(b2: Byte): Sextet { b2 % 64 }

  function Byte0(v0: Sextet, v1: Sextet): Byte { v0 * 4 + v1 / 16 }
  function Byte1(v1: Sextet, v2: Sextet): Byte { v1 % 16 * 16 + v2 / 4 }
  function Byte2(v2: Sextet, v3: Sextet): Byte { v2 % 4 * 64 + v3 }

  lemma BytesOfGroups(b0: Byte, b1: Byte, b2: Byte)
    ensures Byte0(First(b0), Second(b0, b1)) == b0
    ensures Byte1(Second(b0, b1), Third(b1, b2)) == b1
    ensures Byte2(Third(b1, b2), Fourth(b2)) == b2
    ensures Second(b0, 0) % 16 == 0 && Third(b1, 0) % 4 == 0
  {
  }

  lemma GroupsOfBytes(v0: Sextet, v1: Sextet, v2: Sextet, v3: Sextet)
    ensures First(Byte0(v0, v1)) == v0
    ensures Second(Byte0(v0, v1), Byte1(v1, v2)) == v1
    ensures Third(Byte1(v1, v2), Byte2(v2, v3)) == v2
    ensures Fourth(Byte2(v2, v3)) == v3
    ensures v1 % 16 == 0 ==> Second(Byte0(v0, v1), 0) == v1
    ensures v2 % 4 == 0 ==> Third(Byte1(v1, v2), 0) == v2
  {
  }

  /** The text of exactly three bytes. */
  function Quad(b0: Byte, b1: Byte, b2: Byte): (r: string)
    ensures |r| == 4
  {
    [CharOf(First(b0)), CharOf(Second(b0, b1)), CharOf(Third(b1, b2)), CharOf(Fourth(b2))]
  }

  function Encode(b: seq<Byte>): (r: string)
    ensures |r| == (|b| + 2) / 3 * 4
  {
    if b == [] then []
    else if |b| == 1 then [CharOf(First(b[0])), CharOf(Second(b[0], 0)), '=', '=']
    else if |b| == 2 then [CharOf(First(b[0])), CharOf(Second(b[0], b[1])), CharOf(Third(b[1], 0)), '=']
    else Quad(b[0], b[1], b[2]) + Encode(b[3..])
  }

  /** The bytes of four symbols without padding. */
  function DecodeFull(q: string): (r: Option<seq<Byte>>)
    requires |q| == 4
    ensures r.Some? ==> |r.value| == 3
  {
    match (ValueOf(q[0]), ValueOf(q[1]), ValueOf(q[2]), ValueOf(q[3]))
    case (Some(v0), Some(v1), Some(v2), Some(v3)) => Some([Byte0(v0, v1), Byte1(v1, v2), Byte2(v2, v3)])
    case _ => None
  }

  /** The bytes of the last four symbols: padding is needed and the unused bits must be zero. */
  function DecodeLast(q: string): Option<seq<Byte>>
    requires |q| == 4
  {
    if q[3] != '=' then DecodeFull(q)
    else
      match (ValueOf(q[0]), ValueOf(q[1]))
      case (Some(v0), Some(v1)) =>
        if q[2] == '=' then
          if v1 % 16 == 0 then Some([Byte0(v0, v1)]) else None
        else
          (match ValueOf(q[2])
           case Some(v2) => if v2 % 4 == 0 then Some([Byte0(v0, v1), Byte1(v1, v2)]) else None
           case None => None)
      case _ => None
  }

  function Decode(s: string): Option<seq<Byte>> {
    if s == [] then Some([])
    else if |s| < 4 then None
    else if |s| == 4 then DecodeLast(s)
    else
      match (DecodeFull(s[..4]), Decode(s[4..]))
      case (Some(first), Some(rest)) => Some(first + rest)
      case _ => None
  }

  lemma QuadRoundTrip(b0: Byte, b1: Byte, b2: Byte)
    ensures DecodeFull(Quad(b0, b1, b2)) == Some([b0, b1, b2]) && Quad(b0, b1, b2)[3] != '='
  {
    BytesOfGroups(b0, b1, b2);
    ValueOfCharOf(First(b0));
    ValueOfCharOf(Second(b0, b1));
    ValueOfCharOf(Third(b1, b2));
    ValueOfCharOf(Fourth(b2));
  }

  lemma DecodeOne(v0: Sextet, v1: Sextet)
    requires v1 % 16 == 0
    ensures Decode([CharOf(v0), CharOf(v1), '=', '=']) == Some([Byte0(v0, v1)])
  {
    ValueOfCharOf(v0);
    ValueOfCharOf(v1);
  }

  lemma DecodeTwo(v0: Sextet, v1: Sextet, v2: Sextet)
    requires v2 % 4 == 0
    ensures Decode([CharOf(v0), CharOf(v1), CharOf(v2), '=']) == Some([Byte0(v0, v1), Byte1(v1, v2)])
  {
    ValueOfCharOf(v0);
    ValueOfCharOf(v1);
    ValueOfCharOf(v2);
  }

  lemma DecodeQuadThen(q: string, rest: string, first: seq<Byte>, more: seq<Byte>)
    requires |q| == 4 && q[3] != '=' && DecodeFull(q) == Some(first) && Decode(rest) == Some(more)
    requires rest == [] || |rest| >= 4
    ensures Decode(q + rest) == Some(first + more)
  {
    if rest == [] {
      assert q + rest == q;
      assert first + more == first;
    } else {
      assert (q + rest)[..4] == q && (q + rest)[4..] == rest;
    }
  }

  lemma OneRoundTrip(b0: Byte)
    ensures Decode(Encode([b0])) == Some([b0])
  {
    BytesOfGroups(b0, 0, 0);
    DecodeOne(First(b0), Second(b0, 0));
  }

  lemma TwoRoundTrip(b0: Byte, b1: Byte)
    ensures Decode(Encode([b0, b1])) == Some([b0, b1])
  {
    BytesOfGroups(b0, b1, 0);
    DecodeTwo(First(b0), Second(b0, b1), Third(b1, 0));
  }

  /** Every byte string is decoded from its encoding. */
  lemma {:induction false} DecodeEncode(b: seq<Byte>)
    ensures Decode(Encode(b)) == Some(b)
    decreases |b|
  {
    if |b| == 1 {
      assert b == [b[0]];
      OneRoundTrip(b[0]);
    } else if |b| == 2 {
      assert b == [b[0], b[1]];
      TwoRoundTrip(b[0], b[1]);
    } else if |b| >= 3 {
      var first, rest := [b[0], b[1], b[2]], b[3..];
      assert first + rest == b;
      QuadRoundTrip(b[0], b[1], b[2]);
      DecodeEncode(rest);
      DecodeQuadThen(Quad(b[0], b[1], b[2]), Encode(rest), first, rest);
    }
  }

  lemma FullIsEncoding(q: string)
    requires |q| == 4 && DecodeFull(q).Some?
    ensures var b := DecodeFull(q).value; Quad(b[0], b[1], b[2]) == q
  {
    GroupsOfBytes(ValueOf(q[0]).value, ValueOf(q[1]).value, ValueOf(q[2]).value, ValueOf(q[3]).value);
  }

  lemma OneIsEncoding(v0: Sextet, v1: Sextet)
    requires v1 % 16 == 0
    ensures Encode([Byte0(v0, v1)]) == [CharOf(v0), CharOf(v1), '=', '=']
  {
    GroupsOfBytes(v0, v1, 0, 0);
  }

  lemma TwoIsEncoding(v0: Sextet, v1: Sextet, v2: Sextet)
    requires v2 % 4 == 0
    ensures Encode([Byte0(v0, v1), Byte1(v1, v2)]) == [CharOf(v0), CharOf(v1), CharOf(v2), '=']
  {
    GroupsOfBytes(v0, v1, v2, 0);
  }

  lemma LastIsEncoding(q: string)
    requires |q| == 4 && DecodeLast(q).Some?
    ensures Encode(DecodeLast(q).value) == q
  {
    if q[3] != '=' {
      FullIsEncoding(q);
      var b := DecodeFull(q).value;
      assert b[3..] == [];
      assert Encode(b) == Quad(b[0], b[1], b[2]);
    } else if q[2] == '=' {
      OneIsEncoding(ValueOf(q[0]).value, ValueOf(q[1]).value);
    } else {
      TwoIsEncoding(ValueOf(q[0]).value, ValueOf(q[1]).value, ValueOf(q[2]).value);
    }
  }

  /** Decoding accepts nothing but encodings: each byte string has exactly one accepted text. */
  lemma {:induction false} EncodeDecode(s: string)
    requires Decode(s).Some?
    ensures Encode(Decode(s).value) == s
    decreases |s|
  {
    if |s| == 4 {
      LastIsEncoding(s);
    } else if |s| > 4 {
      var first, rest := DecodeFull(s[..4]).value, Decode(s[4..]).value;
      FullIsEncoding(s[..4]);
      EncodeDecode(s[4..]);
      assert (first + rest)[3..] == rest;
      assert s[..4] + s[4..] == s;
    }
  }

  /** A symbol of the standard alphabet, or padding. */
  predicate Plain(c: char) {
    IsSymbol(c) && !IsWhitespace(c) && c != '-' && c != '_'
  }

  predicate AllPlain(s: string) {
    forall c :: c in s ==> Plain(c)
  }

  lemma CharOfIsPlain(v: Sextet)
    ensures Plain(CharOf(v))
  {
    ValueOfCharOf(v);
  }

  lemma QuadSymbols(b0: Byte, b1: Byte, b2: Byte)
    ensures AllPlain(Quad(b0, b1, b2))
  {
    CharOfIsPlain(First(b0));
    CharOfIsPlain(Second(b0, b1));
    CharOfIsPlain(Third(b1, b2));
    CharOfIsPlain(Fourth(b2));
  }

  lemma ShortSymbols(b: seq<Byte>)
    requires 1 <= |b| <= 2
    ensures AllPlain(Encode(b))
  {
    CharOfIsPlain(First(b[0]));
    CharOfIsPlain(Second(b[0], 0));
    if |b| == 2 {
      CharOfIsPlain(Second(b[0], b[1]));
      CharOfIsPlain(Third(b[1], 0));
    }
  }

  lemma AllPlainAppend(s: string, t: string)
    requires AllPlain(s) && AllPlain(t)
    ensures AllPlain(s + t)
  {
  }

  lemma FourTimes(n: int, m: int)
    requires m == n * 4
    ensures m % 4 == 0
  {
  }

  lemma EncodeLength(b: seq<Byte>)
    ensures |Encode(b)| % 4 == 0
  {
    FourTimes((|b| + 2) / 3, |Encode(b)|);
  }

  /** Encodings consist of symbols. */
  lemma {:induction false} EncodeSymbols(b: seq<Byte>)
    ensures AllPlain(Encode(b))
    decreases |b|
  {
    if 1 <= |b| <= 2 {
      ShortSymbols(b);
    } else if |b| >= 3 {
      QuadSymbols(b[0], b[1], b[2]);
      EncodeSymbols(b[3..]);
      AllPlainAppend(Quad(b[0], b[1], b[2]), Encode(b[3..]));
    }
  }

  /** At most two `=` close an encoding. */
  lemma {:induction false} PaddingIsShort(b: seq<Byte>)
    ensures b != [] ==> Encode(b)[|Encode(b)| - 3] != '='
    decreases |b|
  {
    if 1 <= |b| <= 2 {
      ValueOfCharOf(Second(b[0], if |b| == 1 then 0 else b[1]));
    } else if |b| >= 3 {
      QuadRoundTrip(b[0], b[1], b[2]);
      ValueOfCharOf(Second(b[0], b[1]));
      PaddingIsShort(b[3..]);
    }
  }
}
