/**
 * The language of the command-line splitter: what every line is made of, and the arguments
 * that it stands for.
 */
module CommandGrammar {
  import opened Text
  import opened ShellQuoting
  import opened CommandLine

  /** A character between quotes, as it is or behind a backslash. */
  datatype Inner = Same(c: char) | Behind(c: char)

  /** Blanks part arguments; plain characters, escaped ones and quoted stretches make them up. */
  datatype Token = Blank(c: char) | Plain(c: char) | Escape(c: char) | Quoted(quote: char, inner: seq<Inner>)

  /** How a line ends: behind a token, behind a backslash, or between quotes and there perhaps behind a backslash. */
  datatype Ending = Complete | Backslash | Open(quote: char, inner: seq<Inner>, backslash: bool)

  predicate IsQuote(c: char) {
    c == '\'' || c == '\"'
  }

  predicate InnerOk(quote: char, inner: seq<Inner>) {
    forall x :: x in inner && x.Same? ==> x.c != quote && x.c != '\\'
  }

  predicate TokenOk(t: Token) {
    match t
    case Blank(c) => IsWhitespace(c)
    case Plain(c) => !IsWhitespace(c) && !IsQuote(c) && c != '\\'
    case Escape(_) => true
    case Quoted(quote, inner) => IsQuote(quote) && InnerOk(quote, inner)
  }

  predicate LineOk(tokens: seq<Token>, ending: Ending) {
    && (forall t :: t in tokens ==> TokenOk(t))
    && (ending.Open? ==> IsQuote(ending.quote) && InnerOk(ending.quote, ending.inner))
  }

  // ------------------------------------------------------------------ how it is spelled

  function SpellInner(inner: seq<Inner>): string {
    if inner == [] then ""
    else
      var last := inner[|inner| - 1];
      SpellInner(inner[..|inner| - 1]) + if last.Behind? then ['\\', last.c] else [last.c]
  }

  function SpellToken(t: Token): string {
    match t
    case Blank(c) => [c]
    case Plain(c) => [c]
    case Escape(c) => ['\\', c]
    case Quoted(quote, inner) => [quote] + SpellInner(inner) + [quote]
  }

  function SpellTokens(tokens: seq<Token>): string {
    if tokens == [] then ""
    else SpellTokens(tokens[..|tokens| - 1]) + SpellToken(tokens[|tokens| - 1])
  }

  function SpellEnding(ending: Ending): string {
    match ending
    case Complete => ""
    case Backslash => "\\"
    case Open(quote, inner, backslash) => [quote] + SpellInner(inner) + if backslash then "\\" else ""
  }

  // ------------------------------------------------------------------ what it stands for

  function InnerText(inner: seq<Inner>): string {
    seq(|inner|, i requires 0 <= i < |inner| => inner[i].c)
  }

  function TokenText(t: Token): string {
    match t
    case Quoted(_, inner) => InnerText(inner)
    case _ => [t.c]
  }

  /** The arguments: the stretches between blanks, each the text of its tokens. */
  function Words(tokens: seq<Token>): (words: seq<string>)
    ensures tokens != [] && !tokens[0].Blank? ==> words != []
  {
    if tokens == [] then []
    else if tokens[0].Blank? then Words(tokens[1..])
    else
      var text, rest := TokenText(tokens[0]), Words(tokens[1..]);
      if |tokens| == 1 || tokens[1].Blank? then [text] + rest else [text + rest[0]] + rest[1..]
  }

  /** A backslash at the very end stands for itself; an open quote is an error. */
  function Meaning(tokens: seq<Token>, ending: Ending): Split {
    match ending
    case Complete => Arguments(Words(tokens))
    case Backslash => Arguments(Words(tokens + [Escape('\\')]))
    case Open(quote, _, _) => Unterminated(quote)
  }

  // ---------------------------------------------------------------- the arguments so far

  function Joined(open: seq<Token>): string {
    if open == [] then "" else TokenText(open[0]) + Joined(open[1..])
  }

  predicate NoBlank(tokens: seq<Token>) {
    forall t :: t in tokens ==> !t.Blank?
  }

  predicate EndsBlank(tokens: seq<Token>) {
    tokens == [] || tokens[|tokens| - 1].Blank?
  }

  lemma {:induction false} OpenWord(open: seq<Token>)
    requires open != [] && NoBlank(open)
    ensures Words(open) == [Joined(open)]
  {
    assert open[0] in open;
    if |open| > 1 {
      assert open[1] in open;
      OpenWord(open[1..]);
    } else {
      assert open[1..] == [];
      assert TokenText(open[0]) + "" == TokenText(open[0]);
    }
  }

  lemma WordsStep(tokens: seq<Token>, more: seq<Token>)
    requires tokens != [] && EndsBlank(tokens)
    requires Words(tokens[1..] + more) == Words(tokens[1..]) + Words(more)
    ensures Words(tokens + more) == Words(tokens) + Words(more)
  {
    assert (tokens + more)[1..] == tokens[1..] + more && (tokens + more)[0] == tokens[0];
    assert |tokens| > 1 ==> (tokens + more)[1] == tokens[1];
  }

  /** Behind a blank a new argument begins. */
  lemma {:induction false} WordsAppend(closed: seq<Token>, more: seq<Token>)
    requires EndsBlank(closed)
    ensures Words(closed + more) == Words(closed) + Words(more)
    decreases |closed|
  {
    if closed == [] {
      assert closed + more == more;
    } else {
      WordsAppend(closed[1..], more);
      WordsStep(closed, more);
    }
  }

  lemma {:induction false} JoinedSnoc(open: seq<Token>, t: Token)
    ensures Joined(open + [t]) == Joined(open) + TokenText(t)
  {
    if open == [] {
      assert open + [t] == [t] && [t][1..] == [];
    } else {
      JoinedSnoc(open[1..], t);
      assert (open + [t])[1..] == open[1..] + [t] && (open + [t])[0] == open[0];
      Associates(TokenText(open[0]), Joined(open[1..]), TokenText(t));
    }
  }

  lemma WordsSplit(closed: seq<Token>, open: seq<Token>)
    requires EndsBlank(closed) && NoBlank(open)
    ensures Words(closed + open) == Words(closed) + if open == [] then [] else [Joined(open)]
  {
    WordsAppend(closed, open);
    if open != [] {
      OpenWord(open);
    }
  }

  lemma {:induction false} TrailingBlank(tokens: seq<Token>, t: Token)
    requires t.Blank?
    ensures Words(tokens + [t]) == Words(tokens)
  {
    if tokens == [] {
      assert tokens + [t] == [t] && [t][1..] == [];
    } else {
      TrailingBlank(tokens[1..], t);
      assert (tokens + [t])[1..] == tokens[1..] + [t];
      assert |tokens| > 1 ==> (tokens + [t])[1] == tokens[1];
      assert |tokens| == 1 ==> tokens[1..] == [];
    }
  }

  // ------------------------------------------------------------------ reading a spelling

  /** The scan behind these tokens: closed arguments, and the one that is open, if any. */
  ghost predicate ReadUpTo(s: Scan, closed: seq<Token>, open: seq<Token>) {
    && EndsBlank(closed) && NoBlank(open)
    && s == Scan(Words(closed), Joined(open), None, false, open != [])
  }

  lemma RunSnoc(s: Scan, text: string, c: char)
    ensures Run(s, text + [c]) == Feed(Run(s, text), c)
  {
    RunAppend(s, text, [c]);
    RunOne(Run(s, text), c);
  }

  lemma RunTwo(s: Scan, a: char, b: char)
    ensures Run(s, [a, b]) == Feed(Feed(s, a), b)
  {
    assert [a, b] == [a] + [b];
    RunSnoc(s, [a], b);
    RunOne(s, a);
  }

  lemma {:induction false} InnerRead(s: Scan, quote: char, inner: seq<Inner>)
    requires s.quote == Some(quote) && !s.escaped && s.sawToken && InnerOk(quote, inner)
    ensures Run(s, SpellInner(inner)) == s.(current := s.current + InnerText(inner))
  {
    if inner == [] {
      assert s.current + InnerText([]) == s.current;
    } else {
      var before, last := inner[..|inner| - 1], inner[|inner| - 1];
      InnerRead(s, quote, before);
      assert last in inner;
      var text := if last.Behind? then ['\\', last.c] else [last.c];
      RunAppend(s, SpellInner(before), text);
      LastInnerRead(Run(s, SpellInner(before)), quote, last, text);
      assert s.current + InnerText(before) + [last.c] == s.current + InnerText(inner);
    }
  }

  lemma LastInnerRead(s: Scan, quote: char, x: Inner, text: string)
    requires s.quote == Some(quote) && !s.escaped && s.sawToken && (x.Same? ==> x.c != quote && x.c != '\\')
    requires text == if x.Behind? then ['\\', x.c] else [x.c]
    ensures Run(s, text) == s.(current := s.current + [x.c])
  {
    if x.Behind? {
      RunTwo(s, '\\', x.c);
    } else {
      RunOne(s, x.c);
    }
  }

  /** A token other than a blank adds its text to the open argument. */
  lemma TokenRead(s: Scan, t: Token)
    requires s.quote.None? && !s.escaped && TokenOk(t) && !t.Blank?
    ensures Run(s, SpellToken(t)) == s.(current := s.current + TokenText(t), sawToken := true)
  {
    match t
    case Plain(c) => RunOne(s, c);
    case Escape(c) => RunTwo(s, '\\', c);
    case Quoted(quote, inner) =>
      var begun := Feed(s, quote);
      RunSnoc(s, [quote] + SpellInner(inner), quote);
      RunAppend(s, [quote], SpellInner(inner));
      RunOne(s, quote);
      InnerRead(begun, quote, inner);
  }

  lemma BlankRead(s: Scan, closed: seq<Token>, open: seq<Token>, t: Token)
    requires ReadUpTo(s, closed, open) && t.Blank? && TokenOk(t)
    ensures ReadUpTo(Run(s, SpellToken(t)), closed + open + [t], [])
  {
    RunOne(s, t.c);
    WordsSplit(closed, open);
    TrailingBlank(closed + open, t);
  }

  lemma NextTokenRead(s: Scan, closed: seq<Token>, open: seq<Token>, t: Token)
    returns (closed': seq<Token>, open': seq<Token>)
    requires ReadUpTo(s, closed, open) && TokenOk(t)
    ensures closed' + open' == closed + open + [t] && ReadUpTo(Run(s, SpellToken(t)), closed', open')
  {
    if t.Blank? {
      BlankRead(s, closed, open, t);
      closed', open' := closed + open + [t], [];
    } else {
      TokenRead(s, t);
      JoinedSnoc(open, t);
      closed', open' := closed, open + [t];
    }
  }

  lemma {:induction false} TokensRead(tokens: seq<Token>) returns (closed: seq<Token>, open: seq<Token>)
    requires forall t :: t in tokens ==> TokenOk(t)
    ensures tokens == closed + open && ReadUpTo(Run(START, SpellTokens(tokens)), closed, open)
    decreases |tokens|
  {
    if tokens == [] {
      closed, open := [], [];
    } else {
      var before, t := tokens[..|tokens| - 1], tokens[|tokens| - 1];
      assert t in tokens;
      closed, open := TokensRead(before);
      RunAppend(START, SpellTokens(before), SpellToken(t));
      closed, open := NextTokenRead(Run(START, SpellTokens(before)), closed, open, t);
      assert before + [t] == tokens;
    }
  }

  lemma BackslashRead(s: Scan, closed: seq<Token>, open: seq<Token>)
    requires ReadUpTo(s, closed, open)
    ensures Finish(Run(s, "\\")) == Arguments(Words(closed + open + [Escape('\\')]))
  {
    var all := open + [Escape('\\')];
    RunOne(s, '\\');
    JoinedSnoc(open, Escape('\\'));
    WordsSplit(closed, all);
    assert closed + open + [Escape('\\')] == closed + all;
  }

  lemma OpenRead(s: Scan, closed: seq<Token>, open: seq<Token>, ending: Ending)
    requires ReadUpTo(s, closed, open) && ending.Open? && LineOk([], ending)
    ensures Finish(Run(s, SpellEnding(ending))) == Unterminated(ending.quote)
  {
    var begun := Feed(s, ending.quote);
    var text := [ending.quote] + SpellInner(ending.inner);
    RunAppend(s, [ending.quote], SpellInner(ending.inner));
    RunOne(s, ending.quote);
    InnerRead(begun, ending.quote, ending.inner);
    if ending.backslash {
      RunSnoc(s, text, '\\');
    } else {
      assert text + "" == text;
    }
  }

  /** Every line of the language is read as what it stands for. */
  lemma MeaningRead(tokens: seq<Token>, ending: Ending)
    requires LineOk(tokens, ending)
    ensures SplitCommandLine(SpellTokens(tokens) + SpellEnding(ending)) == Meaning(tokens, ending)
  {
    var closed, open := TokensRead(tokens);
    var s := Run(START, SpellTokens(tokens));
    RunAppend(START, SpellTokens(tokens), SpellEnding(ending));
    match ending
    case Complete => WordsSplit(closed, open);
    case Backslash => BackslashRead(s, closed, open);
    case Open(_, _, _) => OpenRead(s, closed, open, ending);
  }

  // ------------------------------------------------------------------ every line is one

  lemma SpellSnoc(tokens: seq<Token>, t: Token)
    ensures SpellTokens(tokens + [t]) == SpellTokens(tokens) + SpellToken(t)
  {
    assert (tokens + [t])[..|tokens|] == tokens;
  }

  lemma SpellInnerSnoc(inner: seq<Inner>, x: Inner)
    ensures SpellInner(inner + [x]) == SpellInner(inner) + if x.Behind? then ['\\', x.c] else [x.c]
  {
    assert (inner + [x])[..|inner|] == inner;
  }

  ghost predicate IsLine(input: string, tokens: seq<Token>, ending: Ending) {
    LineOk(tokens, ending) && input == SpellTokens(tokens) + SpellEnding(ending)
  }

  /** One more character behind a complete line. */
  lemma AfterToken(input: string, tokens: seq<Token>, c: char) returns (tokens': seq<Token>, ending': Ending)
    requires IsLine(input, tokens, Complete)
    ensures IsLine(input + [c], tokens', ending')
  {
    if c == '\\' {
      tokens', ending' := tokens, Backslash;
    } else if IsQuote(c) {
      tokens', ending' := tokens, Open(c, [], false);
      assert SpellEnding(ending') == [c];
    } else {
      var t := if IsWhitespace(c) then Blank(c) else Plain(c);
      tokens', ending' := tokens + [t], Complete;
      SpellSnoc(tokens, t);
    }
  }

  lemma AfterBackslash(input: string, tokens: seq<Token>, c: char)
    requires IsLine(input, tokens, Backslash)
    ensures IsLine(input + [c], tokens + [Escape(c)], Complete)
  {
    SpellSnoc(tokens, Escape(c));
    assert "\\" + [c] == ['\\', c];
    Associates(SpellTokens(tokens), "\\", [c]);
  }

  lemma ClosesQuote(input: string, tokens: seq<Token>, quote: char, inner: seq<Inner>)
    requires IsLine(input, tokens, Open(quote, inner, false))
    ensures IsLine(input + [quote], tokens + [Quoted(quote, inner)], Complete)
  {
    var t := Quoted(quote, inner);
    SpellSnoc(tokens, t);
    Associates(SpellTokens(tokens), [quote] + SpellInner(inner), [quote]);
    assert SpellToken(t) == [quote] + SpellInner(inner) + [quote];
    assert input + [quote] == SpellTokens(tokens) + SpellToken(t);
    assert SpellTokens(tokens + [t]) + "" == SpellTokens(tokens + [t]);
  }

  lemma OneMoreInside(input: string, tokens: seq<Token>, quote: char, inner: seq<Inner>, c: char)
    requires IsLine(input, tokens, Open(quote, inner, false)) && c != quote && c != '\\'
    ensures IsLine(input + [c], tokens, Open(quote, inner + [Same(c)], false))
  {
    SpellInnerSnoc(inner, Same(c));
    Associates([quote], SpellInner(inner), [c]);
    Associates(SpellTokens(tokens), [quote] + SpellInner(inner), [c]);
    assert SpellEnding(Open(quote, inner + [Same(c)], false)) == [quote] + SpellInner(inner) + [c];
  }

  lemma BackslashInside(input: string, tokens: seq<Token>, quote: char, inner: seq<Inner>)
    requires IsLine(input, tokens, Open(quote, inner, false))
    ensures IsLine(input + "\\", tokens, Open(quote, inner, true))
  {
    Associates(SpellTokens(tokens), [quote] + SpellInner(inner), "\\");
    assert SpellEnding(Open(quote, inner, true)) == [quote] + SpellInner(inner) + "\\";
  }

  /** One more character between quotes. */
  lemma BetweenQuotes(input: string, tokens: seq<Token>, quote: char, inner: seq<Inner>, c: char)
    returns (tokens': seq<Token>, ending': Ending)
    requires IsLine(input, tokens, Open(quote, inner, false))
    ensures IsLine(input + [c], tokens', ending')
  {
    if c == quote {
      ClosesQuote(input, tokens, quote, inner);
      tokens', ending' := tokens + [Quoted(quote, inner)], Complete;
    } else if c == '\\' {
      BackslashInside(input, tokens, quote, inner);
      tokens', ending' := tokens, Open(quote, inner, true);
    } else {
      OneMoreInside(input, tokens, quote, inner, c);
      tokens', ending' := tokens, Open(quote, inner + [Same(c)], false);
    }
  }

  lemma BetweenQuotesBackslash(input: string, tokens: seq<Token>, quote: char, inner: seq<Inner>, c: char)
    requires IsLine(input, tokens, Open(quote, inner, true))
    ensures IsLine(input + [c], tokens, Open(quote, inner + [Behind(c)], false))
  {
    SpellInnerSnoc(inner, Behind(c));
    assert [quote] + (SpellInner(inner) + ['\\', c]) == [quote] + SpellInner(inner) + "\\" + [c];
    Associates(SpellTokens(tokens), [quote] + SpellInner(inner) + "\\", [c]);
  }

  lemma {:induction false} EveryLine(input: string) returns (tokens: seq<Token>, ending: Ending)
    ensures IsLine(input, tokens, ending)
    decreases |input|
  {
    if input == "" {
      tokens, ending := [], Complete;
    } else {
      var before, c := input[..|input| - 1], input[|input| - 1];
      tokens, ending := EveryLine(before);
      assert before + [c] == input;
      match ending {
        case Complete => tokens, ending := AfterToken(before, tokens, c);
        case Backslash => AfterBackslash(before, tokens, c); tokens, ending := tokens + [Escape(c)], Complete;
        case Open(quote, inner, false) => tokens, ending := BetweenQuotes(before, tokens, quote, inner, c);
        case Open(quote, inner, true) =>
          BetweenQuotesBackslash(before, tokens, quote, inner, c);
          ending := Open(quote, inner + [Behind(c)], false);
      }
    }
  }

  /** The splitter gives `r` exactly for the lines that stand for it; every line stands for one thing. */
  lemma SplitExactly(input: string, r: Split)
    ensures SplitCommandLine(input) == r
            <==> exists tokens, ending :: IsLine(input, tokens, ending) && Meaning(tokens, ending) == r
  {
    var tokens, ending := EveryLine(input);
    MeaningRead(tokens, ending);
    forall others, end | IsLine(input, others, end) ensures SplitCommandLine(input) == Meaning(others, end) {
      MeaningRead(others, end);
    }
  }
}
