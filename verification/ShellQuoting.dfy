/** Shell quoting inside an XML property list, read back in two layers. */
module ShellQuoting {
  import opened Text
  import opened Search

  // ------------------------------------------------------------------------- the printers

  function XmlEscape(value: string): string {
    ReplaceAll(ReplaceAll(ReplaceAll(ReplaceAll(value, "&", "&amp;"), "\"", "&quot;"), "<", "&lt;"), ">", "&gt;")
  }

  /** Each single quote closed, escaped and opened again. */
  function Spelled(text: string): string {
    ReplaceAll(text, "'", "'\\''")
  }

  function ShellSingleQuote(value: string): string {
    "'" + Spelled(value) + "'"
  }

  function ShellQuotedXml(value: string): string {
    XmlEscape(ShellSingleQuote(value))
  }

  predicate IsBare(c: char) {
    || 'A' <= c <= 'Z' || 'a' <= c <= 'z' || '0' <= c <= '9'
    || c == '_' || c == '-' || c == '.' || c == '/' || c == ':'
  }

  function QuoteShellArg(value: string): string {
    if value == "" then "''"
    else if forall c :: c in value ==> IsBare(c) then value
    else ShellSingleQuote(value)
  }

  // -------------------------------------------------------------------------- the readers

  /** The predefined entity that `text` starts with (section 4.6 of XML 1.0): its length and character. */
  function EntityAt(text: string): Option<(nat, char)> {
    if StartsWith(text, "&amp;") then Some((5, '&'))
    else if StartsWith(text, "&lt;") then Some((4, '<'))
    else if StartsWith(text, "&gt;") then Some((4, '>'))
    else if StartsWith(text, "&quot;") then Some((6, '\"'))
    else if StartsWith(text, "&apos;") then Some((6, '\''))
    else None
  }

  /** Character data with its entities resolved; no markup and no other reference is read. */
  function XmlText(text: string): Option<string>
    decreases |text|
  {
    if text == "" then Some("")
    else if text[0] == '<' then None
    else if text[0] == '&' then
      match EntityAt(text)
      case None => None
      case Some((n, c)) => Prefixed(c, XmlText(text[n..]))
    else Prefixed(text[0], XmlText(text[1..]))
  }

  function Prefixed(c: char, rest: Option<string>): Option<string> {
    match rest
    case None => None
    case Some(s) => Some([c] + s)
  }

  predicate IsAsciiAlphanumeric(c: char) {
    'A' <= c <= 'Z' || 'a' <= c <= 'z' || '0' <= c <= '9'
  }

  /** Some characters that always stand for themselves outside quotes. */
  predicate IsOrdinary(c: char) {
    IsAsciiAlphanumeric(c) || c in "_-./:+,@" || ('\U{80}' <= c && !IsWhitespace(c))
  }

  /**
    * One shell word: single quotes keep everything up to the next one, a backslash outside them keeps
    * the next character and joins lines (sections 2.2.1 and 2.2.2 of the POSIX Shell Command Language).
    * Text with any other meaning is not read.
    */
  function ReadWord(text: string, quoted: bool): Option<string>
    decreases |text|
  {
    if text == "" then if quoted then None else Some("")
    else if text[0] == '\'' then ReadWord(text[1..], !quoted)
    else if quoted then Prefixed(text[0], ReadWord(text[1..], true))
    else if text[0] == '\\' then
      if |text| == 1 then None
      else if text[1] == '\n' then ReadWord(text[2..], false)
      else Prefixed(text[1], ReadWord(text[2..], false))
    else if IsOrdinary(text[0]) then Prefixed(text[0], ReadWord(text[1..], false))
    else None
  }

  function ShellWord(text: string): Option<string> {
    if text == "" then None else ReadWord(text, false)
  }

  // -------------------------------------------------------------------- the layers undone

  function Entity(c: char): string {
    if c == '&' then "&amp;"
    else if c == '\"' then "&quot;"
    else if c == '<' then "&lt;"
    else if c == '>' then "&gt;"
    else [c]
  }

  lemma OneCharacter(s: string, c: char)
    requires s != ""
    ensures StartsWith(s, [c]) <==> s[0] == c
  {
    assert s[..1] == [s[0]];
  }

  lemma ReplaceStep(s: string, c: char, with: string)
    requires s != ""
    ensures ReplaceAll(s, [c], with) == (if s[0] == c then with else [s[0]]) + ReplaceAll(s[1..], [c], with)
  {
    OneCharacter(s, c);
  }

  lemma {:induction false} ReplaceAppend(s: string, t: string, c: char, with: string)
    ensures ReplaceAll(s + t, [c], with) == ReplaceAll(s, [c], with) + ReplaceAll(t, [c], with)
    decreases |s|
  {
    if s == "" {
      assert s + t == t;
    } else {
      assert (s + t)[1..] == s[1..] + t;
      ReplaceStep(s + t, c, with);
      ReplaceStep(s, c, with);
      ReplaceAppend(s[1..], t, c, with);
      Associates(if s[0] == c then with else [s[0]], ReplaceAll(s[1..], [c], with), ReplaceAll(t, [c], with));
    }
  }

  lemma Associates(a: string, b: string, c: string)
    ensures a + b + c == a + (b + c)
  {
  }

  lemma ReplaceOne(x: char, c: char, with: string)
    ensures ReplaceAll([x], [c], with) == if x == c then with else [x]
  {
    ReplaceStep([x], c, with);
    assert [x][1..] == "";
  }

  lemma EscapeAppend(s: string, t: string)
    ensures XmlEscape(s + t) == XmlEscape(s) + XmlEscape(t)
  {
    var s1, t1 := ReplaceAll(s, "&", "&amp;"), ReplaceAll(t, "&", "&amp;");
    var s2, t2 := ReplaceAll(s1, "\"", "&quot;"), ReplaceAll(t1, "\"", "&quot;");
    var s3, t3 := ReplaceAll(s2, "<", "&lt;"), ReplaceAll(t2, "<", "&lt;");
    ReplaceAppend(s, t, '&', "&amp;");
    ReplaceAppend(s1, t1, '\"', "&quot;");
    ReplaceAppend(s2, t2, '<', "&lt;");
    ReplaceAppend(s3, t3, '>', "&gt;");
  }

  /** Escaping `&` first keeps the later replacements apart: each character becomes its own entity. */
  lemma EscapeOne(c: char)
    ensures XmlEscape([c]) == Entity(c)
  {
    ReplaceOne(c, '&', "&amp;");
    if c == '&' {
      ReplaceNothing("&amp;", "\"", "&quot;");
      ReplaceNothing("&amp;", "<", "&lt;");
      ReplaceNothing("&amp;", ">", "&gt;");
    } else {
      ReplaceOne(c, '\"', "&quot;");
      if c == '\"' {
        ReplaceNothing("&quot;", "<", "&lt;");
        ReplaceNothing("&quot;", ">", "&gt;");
      } else {
        ReplaceOne(c, '<', "&lt;");
        if c == '<' {
          ReplaceNothing("&lt;", ">", "&gt;");
        } else {
          ReplaceOne(c, '>', "&gt;");
        }
      }
    }
  }

  lemma EntityRead(c: char, rest: string)
    ensures XmlText(Entity(c) + rest) == Prefixed(c, XmlText(rest))
  {
    var text := Entity(c) + rest;
    assert text[|Entity(c)|..] == rest;
    assert StartsWith(text, Entity(c));
    if c == '&' || c == '\"' || c == '<' || c == '>' {
      EntityFound(text, c);
    }
  }

  lemma EntityFound(text: string, c: char)
    requires c == '&' || c == '\"' || c == '<' || c == '>'
    requires StartsWith(text, Entity(c))
    ensures EntityAt(text) == Some((|Entity(c)|, c)) && text[0] == '&'
  {
    assert text[1] == Entity(c)[1] && text[2] == Entity(c)[2];
  }

  /** Resolving the entities undoes the escaping. */
  lemma {:induction false} XmlRoundTrip(s: string)
    ensures XmlText(XmlEscape(s)) == Some(s)
  {
    if s != "" {
      assert s == [s[0]] + s[1..];
      EscapeAppend([s[0]], s[1..]);
      EscapeOne(s[0]);
      EntityRead(s[0], XmlEscape(s[1..]));
      XmlRoundTrip(s[1..]);
    }
  }

  /** A quote inside quotes: closed, escaped and opened again. */
  lemma EscapedQuoteRead(rest: string)
    ensures ReadWord("'\\''" + rest, true) == Prefixed('\'', ReadWord(rest, true))
  {
    var text := "'\\''" + rest;
    var t1, t3 := "\\''" + rest, "'" + rest;
    assert text == "'" + t1 && text[1..] == t1;
    assert ReadWord(text, true) == ReadWord(t1, false);
    assert t1[0] == '\\' && t1[1] == '\'' && t1[2..] == t3;
    assert ReadWord(t1, false) == Prefixed('\'', ReadWord(t3, false));
    assert t3[1..] == rest;
  }

  lemma {:induction false} QuotedTailRead(s: string)
    ensures ReadWord(Spelled(s) + "'", true) == Some(s)
  {
    if s == "" {
      assert "'"[1..] == "";
    } else {
      var tail := Spelled(s[1..]) + "'";
      QuotedTailRead(s[1..]);
      assert s == [s[0]] + s[1..];
      ReplaceAppend([s[0]], s[1..], '\'', "'\\''");
      ReplaceOne(s[0], '\'', "'\\''");
      if s[0] == '\'' {
        EscapedQuoteRead(tail);
        assert Spelled(s) + "'" == "'\\''" + tail;
      } else {
        assert Spelled(s) + "'" == [s[0]] + tail;
        assert ([s[0]] + tail)[1..] == tail;
      }
    }
  }

  /** The shell reads a single-quoted text back as it was. */
  lemma SingleQuoteRoundTrip(s: string)
    ensures ShellWord(ShellSingleQuote(s)) == Some(s)
  {
    QuotedTailRead(s);
    var inner := Spelled(s) + "'";
    assert ShellSingleQuote(s) == "'" + inner;
    assert ("'" + inner)[1..] == inner;
  }

  /** Both layers together, for every text. */
  lemma ShellQuotedXmlRoundTrip(s: string)
    ensures XmlText(ShellQuotedXml(s)).Some? && ShellWord(XmlText(ShellQuotedXml(s)).value) == Some(s)
  {
    XmlRoundTrip(ShellSingleQuote(s));
    SingleQuoteRoundTrip(s);
  }

  lemma BareIsOrdinary(c: char)
    requires IsBare(c)
    ensures IsOrdinary(c)
  {
    var others := "_-./:+,@";
    assert others == ['_', '-', '.', '/', ':', '+', ',', '@'];
  }

  lemma {:induction false} BareRead(s: string)
    requires forall c :: c in s ==> IsBare(c)
    ensures ReadWord(s, false) == Some(s)
  {
    if s != "" {
      BareIsOrdinary(s[0]);
      BareRead(s[1..]);
      assert [s[0]] + s[1..] == s;
    }
  }

  /** The shell reads every quoted argument back, those left bare and the empty one included. */
  lemma QuoteShellArgRoundTrip(s: string)
    ensures ShellWord(QuoteShellArg(s)) == Some(s)
  {
    if s == "" {
      assert "''"[1..] == "'" && "'"[1..] == "";
    } else if forall c :: c in s ==> IsBare(c) {
      BareRead(s);
    } else {
      SingleQuoteRoundTrip(s);
    }
  }

  /** Exactly the texts of letters, digits and `_-./:` are printed as they are. */
  lemma BareExactly(s: string)
    ensures QuoteShellArg(s) == s
            <==> s != "" && forall c :: c in s ==> IsAsciiAlphanumeric(c) || c in "_-./:"
  {
    forall c: char ensures IsBare(c) <==> IsAsciiAlphanumeric(c) || c in "_-./:" {
      BareCharacter(c);
    }
    SpelledLength(s);
    assert |ShellSingleQuote(s)| >= |s| + 2;
  }

  lemma BareCharacter(c: char)
    ensures IsBare(c) <==> IsAsciiAlphanumeric(c) || c in "_-./:"
  {
  }

  lemma {:induction false} SpelledLength(s: string)
    ensures |Spelled(s)| >= |s|
  {
    if s != "" {
      ReplaceStep(s, '\'', "'\\''");
      SpelledLength(s[1..]);
    }
  }
}
