/** The published tables behind the codecs: symbols, bit groups, and what counts as whitespace. */
module EncodingTables {
  import opened Text
  import Base64
  import Utf8
  import Subscription

  /** Table 1 of RFC 4648, by ranges. */
  function Symbol(v: nat): char
    requires v < 64
  {
    if v < 26 then "ABCDEFGHIJKLMNOPQRSTUVWXYZ"[v]
    else if v < 52 then "abcdefghijklmnopqrstuvwxyz"[v - 26]
    else "0123456789+/"[v - 52]
  }

  lemma SymbolsMatch(v: Base64.Sextet)
    ensures Base64.CharOf(v) == Symbol(v)
  {
    var upper, lower, rest := "ABCDEFGHIJKLMNOPQRSTUVWXYZ", "abcdefghijklmnopqrstuvwxyz", "0123456789+/";
    assert forall i :: 0 <= i < 26 ==> upper[i] as int == 65 + i;
    assert forall i :: 0 <= i < 26 ==> lower[i] as int == 97 + i;
    assert forall i :: 0 <= i < 10 ==> rest[i] as int == 48 + i;
    assert rest[10] == '+' && rest[11] == '/';
  }

  function ByteAt(b: seq<Base64.Byte>, i: nat): Base64.Byte {
    if i < |b| then b[i] else 0
  }

  /** Three bytes from `3 * k` on, missing ones as zeros, as one number of 24 bits. */
  function Group(b: seq<Base64.Byte>, k: nat): int {
    ByteAt(b, 3 * k) * 65536 + ByteAt(b, 3 * k + 1) * 256 + ByteAt(b, 3 * k + 2)
  }

  /** Four values of six bits that make up a number of 24. */
  predicate IsSplit(group: int, v: seq<nat>) {
    && |v| == 4
    && (forall j :: 0 <= j < 4 ==> v[j] < 64)
    && v[0] * 262144 + v[1] * 4096 + v[2] * 64 + v[3] == group
  }

  lemma HighBits(b: Base64.Byte, n: nat, high: nat, low: nat)
    requires n > 0 && high == b / n && low == b % n
    ensures b == high * n + low
  {
  }

  lemma GroupSplits(b0: Base64.Byte, b1: Base64.Byte, b2: Base64.Byte)
    ensures IsSplit(b0 * 65536 + b1 * 256 + b2,
                    [Base64.First(b0), Base64.Second(b0, b1), Base64.Third(b1, b2), Base64.Fourth(b2)])
  {
    HighBits(b0, 4, b0 / 4, b0 % 4);
    HighBits(b1, 16, b1 / 16, b1 % 16);
    HighBits(b2, 64, b2 / 64, b2 % 64);
  }

  /** How many of the symbols of group `k` stand for bits of `b`; the others are padding. */
  function SymbolsIn(b: seq<Base64.Byte>, k: nat): nat
    requires 3 * k < |b|
  {
    if |b| - 3 * k >= 3 then 4 else |b| - 3 * k + 1
  }

  /** The four characters at `from` are the symbols of `v`, and padding behind the first `n`. */
  predicate Spells(s: string, from: nat, v: seq<nat>, n: nat) {
    && from + 4 <= |s| && |v| == 4
    && forall j :: 0 <= j < 4 ==> v[j] < 64 && s[from + j] == if j < n then Symbol(v[j]) else '='
  }

  lemma FirstGroup(b: seq<Base64.Byte>) returns (v: seq<nat>)
    requires b != []
    ensures IsSplit(Group(b, 0), v) && Spells(Base64.Encode(b), 0, v, SymbolsIn(b, 0))
  {
    var b0, b1, b2: Base64.Byte := ByteAt(b, 0), ByteAt(b, 1), ByteAt(b, 2);
    var s := Base64.Encode(b);
    v := [Base64.First(b0), Base64.Second(b0, b1), Base64.Third(b1, b2), Base64.Fourth(b2)];
    GroupSplits(b0, b1, b2);
    SymbolsMatch(v[0]);
    SymbolsMatch(v[1]);
    SymbolsMatch(v[2]);
    SymbolsMatch(v[3]);
    FirstFour(b, s, b0, b1, b2);
  }

  lemma FirstFour(b: seq<Base64.Byte>, s: string, b0: Base64.Byte, b1: Base64.Byte, b2: Base64.Byte)
    requires b != [] && s == Base64.Encode(b) && b0 == ByteAt(b, 0) && b1 == ByteAt(b, 1) && b2 == ByteAt(b, 2)
    ensures |s| >= 4 && s[0] == Base64.CharOf(Base64.First(b0)) && s[1] == Base64.CharOf(Base64.Second(b0, b1))
    ensures s[2] == if |b| > 1 then Base64.CharOf(Base64.Third(b1, b2)) else '='
    ensures s[3] == if |b| > 2 then Base64.CharOf(Base64.Fourth(b2)) else '='
  {
    if |b| > 2 {
      var quad := Base64.Quad(b0, b1, b2);
      assert s == quad + Base64.Encode(b[3..]);
    }
  }

  lemma LaterGroup(b: seq<Base64.Byte>, k: nat)
    requires 3 <= 3 * k < |b|
    ensures Group(b, k) == Group(b[3..], k - 1) && SymbolsIn(b, k) == SymbolsIn(b[3..], k - 1)
  {
  }

  lemma SpellsBehind(first: string, rest: string, from: nat, v: seq<nat>, n: nat)
    requires |first| == 4 && Spells(rest, from, v, n)
    ensures Spells(first + rest, from + 4, v, n)
  {
    var s := first + rest;
    assert s[from + 4 + 0] == rest[from + 0] && s[from + 4 + 1] == rest[from + 1];
    assert s[from + 4 + 2] == rest[from + 2] && s[from + 4 + 3] == rest[from + 3];
  }

  lemma LaterSymbols(b: seq<Base64.Byte>)
    requires |b| > 3
    ensures Base64.Encode(b) == Base64.Quad(b[0], b[1], b[2]) + Base64.Encode(b[3..])
  {
  }

  /** Each group of an encoding spells the bits of three bytes in order (section 4 of RFC 4648). */
  lemma {:induction false} EncodedGroup(b: seq<Base64.Byte>, k: nat) returns (v: seq<nat>)
    requires 3 * k < |b|
    ensures IsSplit(Group(b, k), v) && Spells(Base64.Encode(b), 4 * k, v, SymbolsIn(b, k))
    decreases k
  {
    if k == 0 {
      v := FirstGroup(b);
    } else {
      v := EncodedGroup(b[3..], k - 1);
      LaterGroup(b, k);
      LaterSymbols(b);
      SpellsBehind(Base64.Quad(b[0], b[1], b[2]), Base64.Encode(b[3..]), 4 * (k - 1), v, SymbolsIn(b, k));
    }
  }

  /** The URL-safe symbols (table 2 of RFC 4648) stand for those of the same value. */
  lemma UrlSafeSymbols(c: char)
    ensures Subscription.Standard(c)
            == if c == '-' then Symbol(62) else if c == '_' then Symbol(63) else c
  {
    SymbolsMatch(62);
    SymbolsMatch(63);
  }

  /** The value that leading and following bytes hold, six bits in each following byte. */
  function BitsOf(b: seq<Base64.Byte>, lead: int): int
    requires b != []
  {
    if |b| == 1 then b[0] as int - lead else BitsOf(b[..|b| - 1], lead) * 64 + (b[|b| - 1] as int - 0x80)
  }

  lemma TwoBytes(b0: Base64.Byte, b1: Base64.Byte, lead: int)
    ensures BitsOf([b0, b1], lead) == (b0 as int - lead) * 64 + (b1 as int - 0x80)
  {
    assert [b0, b1][..1] == [b0];
  }

  lemma ThreeBytes(b0: Base64.Byte, b1: Base64.Byte, b2: Base64.Byte, lead: int)
    ensures BitsOf([b0, b1, b2], lead) == ((b0 as int - lead) * 64 + (b1 as int - 0x80)) * 64 + (b2 as int - 0x80)
  {
    assert [b0, b1, b2][..2] == [b0, b1];
    TwoBytes(b0, b1, lead);
  }

  lemma FourBytes(b0: Base64.Byte, b1: Base64.Byte, b2: Base64.Byte, b3: Base64.Byte, lead: int)
    ensures BitsOf([b0, b1, b2, b3], lead)
            == (((b0 as int - lead) * 64 + (b1 as int - 0x80)) * 64 + (b2 as int - 0x80)) * 64 + (b3 as int - 0x80)
  {
    assert [b0, b1, b2, b3][..3] == [b0, b1, b2];
    ThreeBytes(b0, b1, b2, lead);
  }

  lemma Sixes(v: nat)
    ensures v == v / 0x40 * 64 + v % 0x40
    ensures v / 0x40 == v / 0x1000 * 64 + v / 0x40 % 0x40
    ensures v / 0x1000 == v / 0x4_0000 * 64 + v / 0x1000 % 0x40
  {
  }

  /** The encoding of one character: its length by its value, and the bits of the value in it (table 3-1 of RFC 3629). */
  lemma CharacterBits(c: char)
    ensures var b, v := Utf8.EncodeChar(c), c as int;
            if v <= 0x7F then b == [v]
            else if v <= 0x7FF then |b| == 2 && BitsOf(b, 0xC0) == v
            else if v <= 0xFFFF then |b| == 3 && BitsOf(b, 0xE0) == v
            else |b| == 4 && BitsOf(b, 0xF0) == v
  {
    var b, v := Utf8.EncodeChar(c), c as int;
    Sixes(v);
    if |b| == 2 {
      TwoBytes(b[0], b[1], 0xC0);
    } else if |b| == 3 {
      ThreeBytes(b[0], b[1], b[2], 0xE0);
    } else if |b| == 4 {
      FourBytes(b[0], b[1], b[2], b[3], 0xF0);
    }
  }

  /** The 25 characters with the Unicode property `White_Space`. */
  lemma WhitespaceCharacters(c: char)
    ensures IsWhitespace(c)
            <==> c in {'\t', '\n', '\U{B}', '\U{C}', '\r', ' ', '\U{85}', '\U{A0}', '\U{1680}', '\U{2000}', '\U{2001}',
                       '\U{2002}', '\U{2003}', '\U{2004}', '\U{2005}', '\U{2006}', '\U{2007}', '\U{2008}', '\U{2009}',
                       '\U{200A}', '\U{2028}', '\U{2029}', '\U{202F}', '\U{205F}', '\U{3000}'}
  {
  }
}
