/** UTF-8, encoded and strictly decoded (section 3 of RFC 3629). */
module Utf8 {
  import opened Text
  import opened Base64

  /** The bytes of one scalar value. */
  function EncodeChar(c: char): (r: seq<Byte>)
    ensures 1 <= |r| <= 4
  {
    var v := c as int;
    if v < 0x80 then [v]
    else if v < 0x800 then [0xC0 + v / 0x40, 0x80 + v % 0x40]
    else if v < 0x1_0000 then [0xE0 + v / 0x1000, 0x80 + v / 0x40 % 0x40, 0x80 + v % 0x40]
    else [0xF0 + v / 0x4_0000, 0x80 + v / 0x1000 % 0x40, 0x80 + v / 0x40 % 0x40, 0x80 + v % 0x40]
  }

  function Encode(text: string): seq<Byte> {
    if text == [] then [] else EncodeChar(text[0]) + Encode(text[1..])
  }

  predicate IsContinuation(b: Byte) {
    0x80 <= b < 0xC0
  }

  /** The number of bytes the first one announces, 0 when it cannot come first. */
  function Width(b: Byte): (r: nat)
    ensures r <= 4
  {
    if b < 0x80 then 1
    else if 0xC2 <= b < 0xE0 then 2
    else if 0xE0 <= b < 0xF0 then 3
    else if 0xF0 <= b < 0xF5 then 4
    else 0
  }

  /** The second byte stays clear of overlong forms, surrogates and values past U+10FFFF. */
  predicate SecondFits(b0: Byte, b1: Byte) {
    && IsContinuation(b1)
    && (b0 == 0xE0 ==> 0xA0 <= b1)
    && (b0 == 0xED ==> b1 < 0xA0)
    && (b0 == 0xF0 ==> 0x90 <= b1)
    && (b0 == 0xF4 ==> b1 < 0x90)
  }

  predicate IsSequence(b: seq<Byte>) {
    && b != []
    && Width(b[0]) == |b|
    && (|b| > 1 ==> SecondFits(b[0], b[1]))
    && (|b| > 2 ==> IsContinuation(b[2]))
    && (|b| > 3 ==> IsContinuation(b[3]))
  }

  /** Six more bits behind `high`. */
  function Join(high: int, low: int): int {
    high * 0x40 + low
  }

  function ValueOfSequence(b: seq<Byte>): (v: int)
    requires IsSequence(b)
    ensures 0 <= v < 0xD800 || 0xE000 <= v < 0x11_0000
  {
    if |b| == 1 then b[0]
    else if |b| == 2 then Join(b[0] - 0xC0, b[1] - 0x80)
    else if |b| == 3 then Join(Join(b[0] - 0xE0, b[1] - 0x80), b[2] - 0x80)
    else Join(Join(Join(b[0] - 0xF0, b[1] - 0x80), b[2] - 0x80), b[3] - 0x80)
  }

  function ScalarOf(b: seq<Byte>): char
    requires IsSequence(b)
  {
    ValueOfSequence(b) as char
  }

  function Decode(b: seq<Byte>): Option<string> {
    if b == [] then Some([])
    else
      var n := Width(b[0]);
      if n == 0 || n > |b| || !IsSequence(b[..n]) then None
      else
        match Decode(b[n..])
        case None => None
        case Some(rest) => Some([ScalarOf(b[..n])] + rest)
  }

  lemma JoinSplits(v: int)
    requires 0 <= v
    ensures Join(v / 0x40, v % 0x40) == v
    ensures v / 0x1000 == v / 0x40 / 0x40 && v / 0x4_0000 == v / 0x40 / 0x40 / 0x40
  {
  }

  lemma CharRoundTrip(c: char)
    ensures IsSequence(EncodeChar(c)) && ScalarOf(EncodeChar(c)) == c
  {
    var v := c as int;
    assert v < 0xD800 || 0xE000 <= v < 0x11_0000;
    JoinSplits(v);
    JoinSplits(v / 0x40);
    JoinSplits(v / 0x1000);
    if v < 0x80 {
    } else if v < 0x800 {
    } else if v < 0x1_0000 {
    } else {
    }
  }

  lemma SplitsJoin(high: int, low: int)
    requires 0 <= high && 0 <= low < 0x40
    ensures Join(high, low) / 0x40 == high && Join(high, low) % 0x40 == low
  {
  }

  lemma SplitsJoinTwice(x: int, y: int, z: int)
    requires 0 <= x && 0 <= y < 0x40 && 0 <= z < 0x40
    ensures var v := Join(Join(x, y), z); v / 0x1000 == x && v / 0x40 % 0x40 == y && v % 0x40 == z
  {
    SplitsJoin(x, y);
    SplitsJoin(Join(x, y), z);
    JoinSplits(Join(Join(x, y), z));
  }

  lemma TwoRoundTrip(b: seq<Byte>)
    requires IsSequence(b) && |b| == 2
    ensures EncodeChar(ScalarOf(b)) == b
  {
    SplitsJoin(b[0] - 0xC0, b[1] - 0x80);
  }

  lemma ThreeRoundTrip(b: seq<Byte>)
    requires IsSequence(b) && |b| == 3
    ensures EncodeChar(ScalarOf(b)) == b
  {
    SplitsJoinTwice(b[0] - 0xE0, b[1] - 0x80, b[2] - 0x80);
    assert 0x800 <= ValueOfSequence(b) < 0x1_0000;
  }

  lemma FourRoundTrip(b: seq<Byte>)
    requires IsSequence(b) && |b| == 4
    ensures EncodeChar(ScalarOf(b)) == b
  {
    var x, y, z, w := b[0] - 0xF0, b[1] - 0x80, b[2] - 0x80, b[3] - 0x80;
    var v := ValueOfSequence(b);
    SplitsJoinTwice(x, y, z);
    SplitsJoin(Join(Join(x, y), z), w);
    JoinSplits(v);
    assert v / 0x4_0000 == x && v / 0x1000 % 0x40 == y && v / 0x40 % 0x40 == z && v % 0x40 == w;
    assert 0x1_0000 <= v;
  }

  lemma SequenceRoundTrip(b: seq<Byte>)
    requires IsSequence(b)
    ensures EncodeChar(ScalarOf(b)) == b
  {
    if |b| == 2 {
      TwoRoundTrip(b);
    } else if |b| == 3 {
      ThreeRoundTrip(b);
    } else if |b| == 4 {
      FourRoundTrip(b);
    }
  }

  /** Every text is decoded from its bytes. */
  lemma {:induction false} DecodeEncode(text: string)
    ensures Decode(Encode(text)) == Some(text)
  {
    if text != [] {
      var b := EncodeChar(text[0]);
      var rest := Encode(text[1..]);
      CharRoundTrip(text[0]);
      DecodeEncode(text[1..]);
      assert (b + rest)[..|b|] == b && (b + rest)[|b|..] == rest;
      assert (b + rest)[0] == b[0];
      assert [text[0]] + text[1..] == text;
    }
  }

  /** Only the bytes of a text are decoded: each text has one accepted form. */
  lemma {:induction false} EncodeDecode(b: seq<Byte>)
    requires Decode(b).Some?
    ensures Encode(Decode(b).value) == b
  {
    if b != [] {
      var n := Width(b[0]);
      SequenceRoundTrip(b[..n]);
      EncodeDecode(b[n..]);
      assert b[..n] + b[n..] == b;
    }
  }
}
