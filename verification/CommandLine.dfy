/** The launcher's command-line splitter, against the two printers that feed it. */
module CommandLine {
  import opened Text
  import opened ShellQuoting

  datatype Split = Arguments(args: seq<string>) | Unterminated(quote: char)

  /** The variables of the loop. */
  datatype Scan = Scan(args: seq<string>, current: string, quote: Option<char>, escaped: bool, sawToken: bool)

  function Feed(s: Scan, c: char): Scan {
    if s.escaped then s.(current := s.current + [c], escaped := false, sawToken := true)
    else if c == '\\' then s.(escaped := true, sawToken := true)
    else if s.quote == Some(c) then s.(quote := None, sawToken := true)
    else if s.quote.Some? then s.(current := s.current + [c], sawToken := true)
    else if c == '\'' || c == '\"' then s.(quote := Some(c), sawToken := true)
    else if !IsWhitespace(c) then s.(current := s.current + [c], sawToken := true)
    else if s.sawToken then s.(args := s.args + [s.current], current := "", sawToken := false)
    else s
  }

  function Run(s: Scan, input: string): Scan
    decreases |input|
  {
    if input == "" then s else Run(Feed(s, input[0]), input[1..])
  }

  function Finish(s: Scan): Split {
    var current := if s.escaped then s.current + ['\\'] else s.current;
    if s.quote.Some? then Unterminated(s.quote.value)
    else if s.sawToken then Arguments(s.args + [current])
    else Arguments(s.args)
  }

  const START: Scan := Scan([], "", None, false, false)

  function SplitCommandLine(input: string): Split {
    Finish(Run(START, input))
  }

  method SplitLine(input: string) returns (r: Split)
    ensures r == SplitCommandLine(input)
  {
    var args: seq<string> := [];
    var current := "";
    var quote: Option<char> := None;
    var escaped, sawToken := false, false;
    var i := 0;
    assert input[0..] == input;
    while i < |input|
      invariant 0 <= i <= |input|
      invariant Run(Scan(args, current, quote, escaped, sawToken), input[i..]) == Run(START, input)
    {
      var character := input[i];
      assert input[i..][1..] == input[i + 1..];
      i := i + 1;
      if escaped {
        current := current + [character];
        escaped, sawToken := false, true;
        continue;
      }
      if character == '\\' {
        escaped, sawToken := true, true;
        continue;
      }
      match quote
      case Some(activeQuote) =>
        if character == activeQuote {
          quote := None;
        } else {
          current := current + [character];
        }
        sawToken := true;
      case None =>
        if character == '\'' || character == '\"' {
          quote, sawToken := Some(character), true;
        } else if IsWhitespace(character) {
          if sawToken {
            args := args + [current];
            current, sawToken := "", false;
          }
        } else {
          current, sawToken := current + [character], true;
        }
    }
    assert input[i..] == "";
    if escaped {
      current := current + ['\\'];
    }
    if quote.Some? {
      return Unterminated(quote.value);
    }
    if sawToken {
      args := args + [current];
    }
    r := Arguments(args);
  }

  // ------------------------------------------------------------------- printed arguments

  function JoinArgs(args: seq<string>): string {
    if args == [] then ""
    else if |args| == 1 then QuoteShellArg(args[0])
    else QuoteShellArg(args[0]) + " " + JoinArgs(args[1..])
  }

  function QuotePath(path: string): string {
    if path == "" then "" else "\"" + path + "\""
  }

  lemma {:induction false} RunAppend(s: Scan, a: string, b: string)
    ensures Run(s, a + b) == Run(Run(s, a), b)
    decreases |a|
  {
    if a == "" {
      assert a + b == b;
    } else {
      assert (a + b)[1..] == a[1..] + b;
      RunAppend(Feed(s, a[0]), a[1..], b);
    }
  }

  predicate Inside(s: Scan, quote: char) {
    s.quote == Some(quote) && !s.escaped && s.sawToken
  }

  /** Inside quotes, everything but the quote and the backslash is kept. */
  lemma {:induction false} QuotedKept(s: Scan, text: string, quote: char)
    requires Inside(s, quote) && quote !in text && '\\' !in text
    ensures Run(s, text) == s.(current := s.current + text)
    decreases |text|
  {
    if text == "" {
      assert s.current + text == s.current;
    } else {
      QuotedKept(Feed(s, text[0]), text[1..], quote);
      assert s.current + [text[0]] + text[1..] == s.current + text;
    }
  }

  /** The single-quoted spelling of text without backslashes, inside its quotes. */
  lemma {:induction false} SpellingKept(s: Scan, text: string)
    requires Inside(s, '\'') && '\\' !in text
    ensures Run(s, Spelled(text)) == s.(current := s.current + text)
    decreases |text|
  {
    if text == "" {
      assert s.current + text == s.current;
    } else {
      var first := if text[0] == '\'' then "'\\''" else [text[0]];
      var rest := Spelled(text[1..]);
      var next := s.(current := s.current + [text[0]]);
      ReplaceStep(text, '\'', "'\\''");
      RunAppend(s, first, rest);
      SpellingStep(s, text[0], first);
      SpellingKept(next, text[1..]);
      assert s.current + [text[0]] + text[1..] == s.current + text;
    }
  }

  lemma SpellingStep(s: Scan, c: char, spelling: string)
    requires Inside(s, '\'') && c != '\\' && spelling == if c == '\'' then "'\\''" else [c]
    ensures Run(s, spelling) == s.(current := s.current + [c])
  {
    if c == '\'' {
      RunFour(s, '\'', '\\', '\'', '\'');
    } else {
      RunOne(s, c);
    }
  }

  lemma RunOne(s: Scan, c: char)
    ensures Run(s, [c]) == Feed(s, c)
  {
    assert [c][1..] == "";
  }

  lemma RunFour(s: Scan, a: char, b: char, c: char, d: char)
    ensures Run(s, [a, b, c, d]) == Feed(Feed(Feed(Feed(s, a), b), c), d)
  {
    RunAppend(s, [a, b, c], [d]);
    RunAppend(s, [a, b], [c]);
    RunAppend(s, [a], [b]);
    RunOne(s, a);
    RunOne(Feed(s, a), b);
    RunOne(Feed(Feed(s, a), b), c);
    RunOne(Feed(Feed(Feed(s, a), b), c), d);
    assert [a] + [b] + [c] + [d] == [a, b, c, d] && [a] + [b] == [a, b] && [a, b] + [c] == [a, b, c];
  }

  /** Nothing of the next argument was read yet. */
  predicate Between(s: Scan) {
    s.current == "" && s.quote == None && !s.escaped && !s.sawToken
  }

  lemma {:induction false} BareKept(s: Scan, text: string)
    requires s.quote == None && !s.escaped && forall c :: c in text ==> IsBare(c)
    ensures Run(s, text) == s.(current := s.current + text, sawToken := s.sawToken || text != "")
    decreases |text|
  {
    if text == "" {
      assert s.current + text == s.current;
    } else {
      assert IsBare(text[0]);
      BareKept(Feed(s, text[0]), text[1..]);
      assert s.current + [text[0]] + text[1..] == s.current + text;
    }
  }

  /** A printed argument without backslashes is read whole. */
  lemma PrintedKept(s: Scan, arg: string)
    requires Between(s) && '\\' !in arg
    ensures Run(s, QuoteShellArg(arg)) == s.(current := arg, sawToken := true)
  {
    if arg == "" {
      assert "''"[1..] == "'";
      RunOne(Feed(s, '\''), '\'');
    } else if forall c :: c in arg ==> IsBare(c) {
      BareKept(s, arg);
      assert "" + arg == arg;
    } else {
      var spelled := Spelled(arg);
      RunAppend(s, "'" + spelled, "'");
      RunAppend(s, "'", spelled);
      RunOne(s, '\'');
      SpellingKept(Feed(s, '\''), arg);
      assert "" + arg == arg;
      RunOne(Run(Feed(s, '\''), spelled), '\'');
    }
  }

  lemma {:induction false} JoinedKept(s: Scan, args: seq<string>)
    requires Between(s) && forall i :: 0 <= i < |args| ==> '\\' !in args[i]
    ensures Finish(Run(s, JoinArgs(args))) == Arguments(s.args + args)
    decreases |args|
  {
    if args == [] {
      assert s.args + args == s.args;
    } else {
      PrintedKept(s, args[0]);
      var read := s.(current := args[0], sawToken := true);
      if |args| == 1 {
        assert args == [args[0]];
      } else {
        var next := s.(args := s.args + [args[0]]);
        RunAppend(s, QuoteShellArg(args[0]) + " ", JoinArgs(args[1..]));
        RunAppend(s, QuoteShellArg(args[0]), " ");
        RunOne(read, ' ');
        JoinedKept(next, args[1..]);
        assert next.args + args[1..] == s.args + args;
      }
    }
  }

  /** Printed arguments are split back into themselves, empty ones included. */
  lemma PrintedRoundTrip(args: seq<string>)
    requires forall i :: 0 <= i < |args| ==> '\\' !in args[i]
    ensures SplitCommandLine(JoinArgs(args)) == Arguments(args)
  {
    JoinedKept(START, args);
    assert [] + args == args;
  }

  // ---------------------------------------------------------- what a backslash does to it

  /** Once begun, an argument is only added to. */
  lemma {:induction false} Grows(s: Scan, input: string)
    requires s.sawToken
    ensures match Finish(Run(s, input))
            case Unterminated(_) => true
            case Arguments(out) => |s.args| < |out| && out[..|s.args|] == s.args && s.current <= out[|s.args|]
    decreases |input|
  {
    if input != "" {
      var next := Feed(s, input[0]);
      if next.sawToken {
        Grows(next, input[1..]);
      } else {
        Completed(next, input[1..]);
        assert next.args[|s.args|] == s.current;
      }
    }
  }

  /** Completed arguments stay. */
  lemma {:induction false} Completed(s: Scan, input: string)
    ensures match Finish(Run(s, input))
            case Unterminated(_) => true
            case Arguments(out) => s.args <= out
    decreases |input|
  {
    if input != "" {
      Completed(Feed(s, input[0]), input[1..]);
    }
  }

  /** `s` has read the arguments before `arg` and the first `q` characters of it, inside single quotes. */
  predicate Reading(s: Scan, all: seq<string>, arg: string, q: nat) {
    && Inside(s, '\'')
    && |s.args| < |all| && s.args == all[..|s.args|] && arg == all[|s.args|]
    && q < |arg| && s.current == arg[..q] && arg[q] == '\\'
  }

  lemma WrongCharacter(s: Scan, all: seq<string>, arg: string, q: nat, x: char, input: string)
    requires Reading(s, all, arg, q) && x != '\\'
    ensures Finish(Run(s.(current := s.current + [x]), input)) != Arguments(all)
  {
    var next := s.(current := s.current + [x]);
    assert next.current[q] == x;
    Grows(next, input);
  }

  predicate IsTail(tail: string) {
    tail == "" || tail[0] == ' '
  }

  lemma TooShort(s: Scan, all: seq<string>, arg: string, q: nat, tail: string)
    requires Reading(s, all, arg, q) && IsTail(tail)
    ensures Finish(Run(s, "'" + tail)) != Arguments(all)
  {
    var closed := Feed(s, '\'');
    assert ("'" + tail)[1..] == tail;
    assert |s.current| == q;
    if tail != "" {
      var next := Feed(closed, ' ');
      Completed(next, tail[1..]);
      assert next.args[|s.args|] == s.current;
    } else {
      assert (s.args + [s.current])[|s.args|] == s.current;
    }
  }

  /** What is left to read of `arg` from position `p`, and behind it. */
  function Remaining(arg: string, p: nat, tail: string): string
    requires p <= |arg|
  {
    Spelled(arg[p..]) + "'" + tail
  }

  lemma RemainingStep(arg: string, p: nat, tail: string)
    requires p < |arg|
    ensures Remaining(arg, p, tail) == (if arg[p] == '\'' then "'\\''" else [arg[p]]) + Remaining(arg, p + 1, tail)
  {
    ReplaceStep(arg[p..], '\'', "'\\''");
    assert arg[p..][1..] == arg[p + 1..];
  }

  /** The character that a backslash at `p` escapes. */
  lemma RemainingStarts(arg: string, p: nat, tail: string)
    requires p <= |arg|
    ensures Remaining(arg, p, tail) != ""
    ensures Remaining(arg, p, tail)[0] == if p < |arg| then arg[p] else '\''
  {
    if p < |arg| {
      RemainingStep(arg, p, tail);
    } else {
      assert Spelled(arg[p..]) == "";
    }
  }

  /** From the first backslash on the reader falls behind, and it cannot catch up inside the argument. */
  lemma {:induction false} FallsBehind(s: Scan, all: seq<string>, arg: string, q: nat, p: nat, tail: string)
    requires Reading(s, all, arg, q) && q <= p <= |arg| && IsTail(tail)
    requires forall j :: q <= j < p ==> arg[j] == '\\'
    ensures Finish(Run(s, Remaining(arg, p, tail))) != Arguments(all)
    decreases |arg| - p
  {
    var input := Remaining(arg, p, tail);
    if p == |arg| {
      assert input == "'" + tail;
      TooShort(s, all, arg, q, tail);
    } else {
      var rest := Remaining(arg, p + 1, tail);
      RemainingStep(arg, p, tail);
      if arg[p] == '\'' {
        RunAppend(s, "'\\''", rest);
        SpellingStep(s, '\'', "'\\''");
        WrongCharacter(s, all, arg, q, '\'', rest);
      } else if arg[p] != '\\' {
        assert input[1..] == rest;
        WrongCharacter(s, all, arg, q, arg[p], rest);
      } else {
        assert input[1..] == rest;
        EscapedInside(s, all, arg, q, p, tail);
      }
    }
  }

  lemma {:induction false} EscapedInside(s: Scan, all: seq<string>, arg: string, q: nat, p: nat, tail: string)
    requires Reading(s, all, arg, q) && q <= p < |arg| && IsTail(tail)
    requires forall j :: q <= j <= p ==> arg[j] == '\\'
    ensures Finish(Run(s.(escaped := true), Remaining(arg, p + 1, tail))) != Arguments(all)
    decreases |arg| - p, 0
  {
    var rest := Remaining(arg, p + 1, tail);
    var x := rest[0];
    RemainingStarts(arg, p + 1, tail);
    if x != '\\' {
      WrongCharacter(s, all, arg, q, x, rest[1..]);
    } else {
      RemainingStep(arg, p + 1, tail);
      assert rest[1..] == Remaining(arg, p + 2, tail);
      var next := s.(current := s.current + ['\\']);
      assert next.current == arg[..q + 1];
      FallsBehind(next, all, arg, q + 1, p + 2, tail);
    }
  }

  /** Up to its first backslash, at `i`, an argument is read as it is. */
  lemma ReadUpTo(s: Scan, arg: string, i: nat, tail: string)
    requires Between(s) && i < |arg| && arg[i] == '\\' && '\\' !in arg[..i]
    ensures Run(s, QuoteShellArg(arg) + tail)
            == Run(s.(current := arg[..i], quote := Some('\''), sawToken := true), Remaining(arg, i, tail))
  {
    assert !IsBare('\\') && arg[i] in arg;
    var begun := Feed(s, '\'');
    var rest := Remaining(arg, i, tail);
    ReplaceAppend(arg[..i], arg[i..], '\'', "'\\''");
    assert arg[..i] + arg[i..] == arg;
    assert QuoteShellArg(arg) + tail == "'" + (Spelled(arg[..i]) + rest);
    assert ("'" + (Spelled(arg[..i]) + rest))[1..] == Spelled(arg[..i]) + rest;
    RunAppend(begun, Spelled(arg[..i]), rest);
    SpellingKept(begun, arg[..i]);
    assert "" + arg[..i] == arg[..i];
  }

  /** The first argument with a backslash is not read back. */
  lemma ArgumentBreaks(s: Scan, all: seq<string>, arg: string, tail: string)
    requires Between(s) && '\\' in arg && IsTail(tail)
    requires |s.args| < |all| && s.args == all[..|s.args|] && arg == all[|s.args|]
    ensures Finish(Run(s, QuoteShellArg(arg) + tail)) != Arguments(all)
  {
    var i := FirstBackslash(arg);
    ReadUpTo(s, arg, i, tail);
    FallsBehind(s.(current := arg[..i], quote := Some('\''), sawToken := true), all, arg, i, i, tail);
  }

  lemma FirstBackslash(arg: string) returns (i: nat)
    requires '\\' in arg
    ensures i < |arg| && arg[i] == '\\' && '\\' !in arg[..i]
  {
    i := 0;
    while arg[i] != '\\'
      decreases |arg| - i
      invariant i < |arg| && '\\' !in arg[..i] && '\\' in arg[i..]
    {
      i := i + 1;
    }
  }

  /** An argument without backslashes, and the blank behind it. */
  lemma ArgumentRead(s: Scan, arg: string, rest: string)
    requires Between(s) && '\\' !in arg
    ensures Run(s, QuoteShellArg(arg) + (" " + rest)) == Run(s.(args := s.args + [arg]), rest)
  {
    PrintedKept(s, arg);
    RunAppend(s, QuoteShellArg(arg), " " + rest);
    assert (" " + rest)[1..] == rest;
  }

  lemma JoinFirst(args: seq<string>)
    requires args != []
    ensures JoinArgs(args) == QuoteShellArg(args[0]) + if |args| == 1 then "" else " " + JoinArgs(args[1..])
  {
  }

  lemma BreaksHere(s: Scan, args: seq<string>, all: seq<string>)
    requires Between(s) && s.args + args == all && args != [] && '\\' in args[0]
    ensures Finish(Run(s, JoinArgs(args))) != Arguments(all)
  {
    JoinFirst(args);
    assert all[|s.args|] == args[0];
    ArgumentBreaks(s, all, args[0], if |args| == 1 then "" else " " + JoinArgs(args[1..]));
  }

  lemma BreaksLater(s: Scan, args: seq<string>, all: seq<string>)
    requires Between(s) && |args| > 1 && '\\' !in args[0]
    requires Finish(Run(s.(args := s.args + [args[0]]), JoinArgs(args[1..]))) != Arguments(all)
    ensures Finish(Run(s, JoinArgs(args))) != Arguments(all)
  {
    JoinFirst(args);
    ArgumentRead(s, args[0], JoinArgs(args[1..]));
  }

  lemma {:induction false} BackslashBreaks(s: Scan, args: seq<string>, all: seq<string>, k: nat)
    requires Between(s) && s.args + args == all && k < |args| && '\\' in args[k]
    ensures Finish(Run(s, JoinArgs(args))) != Arguments(all)
    decreases |args|
  {
    if '\\' in args[0] {
      BreaksHere(s, args, all);
    } else {
      BackslashBreaks(s.(args := s.args + [args[0]]), args[1..], all, k - 1);
      BreaksLater(s, args, all);
    }
  }

  /** The printed arguments are split back into themselves exactly when none has a backslash. */
  lemma PrintedExactly(args: seq<string>)
    ensures SplitCommandLine(JoinArgs(args)) == Arguments(args) <==> forall i :: 0 <= i < |args| ==> '\\' !in args[i]
  {
    if forall i :: 0 <= i < |args| ==> '\\' !in args[i] {
      PrintedRoundTrip(args);
    } else {
      var k :| 0 <= k < |args| && '\\' in args[k];
      assert [] + args == args;
      BackslashBreaks(START, args, args, k);
    }
  }

  // ------------------------------------------------------------------------ quoted paths

  /** The characters read into arguments. */
  function Read(s: Scan): nat {
    Total(s.args) + |s.current|
  }

  function Total(args: seq<string>): nat {
    if args == [] then 0 else Total(args[..|args| - 1]) + |args[|args| - 1]|
  }

  lemma FeedReads(s: Scan, c: char)
    ensures Read(Feed(s, c)) <= Read(s) + 1
    ensures !s.escaped && c == '\\' ==> Read(Feed(s, c)) == Read(s)
  {
    assert (s.args + [s.current])[..|s.args|] == s.args;
  }

  /** The closing double quote is not read, unless the character before it escapes it. */
  lemma {:induction false} ClosedReads(s: Scan, text: string)
    ensures var end := Run(s, text + "\"");
            end.quote.None? ==> Read(end) <= Read(s) + |text| + if s.escaped then 1 else 0
    ensures !Run(s, text + "\"").escaped
    decreases |text|
  {
    if text == "" {
      assert text + "\"" == "\"";
      RunOne(s, '\"');
    } else {
      assert (text + "\"")[1..] == text[1..] + "\"";
      FeedReads(s, text[0]);
      ClosedReads(Feed(s, text[0]), text[1..]);
    }
  }

  lemma TotalSnoc(args: seq<string>, last: string)
    ensures Total(args + [last]) == Total(args) + |last|
  {
    assert (args + [last])[..|args|] == args;
  }

  lemma FinishReads(s: Scan, path: string)
    requires !s.escaped && (s.quote.None? ==> Read(s) < |path|)
    ensures Finish(s) != Arguments([path])
  {
    TotalSnoc(s.args, s.current);
    TotalSnoc([], path);
    assert [] + [path] == [path];
  }

  predicate IsPlain(path: string) {
    '\"' !in path && '\\' !in path
  }

  /** Double quotes around a path, with its plain part up to `i` read. */
  lemma PathPrefix(path: string, i: nat)
    requires i <= |path| && IsPlain(path[..i])
    ensures Run(START, "\"" + path + "\"") == Run(Scan([], path[..i], Some('\"'), false, true), path[i..] + "\"")
  {
    var begun := Feed(START, '\"');
    var rest := path[i..] + "\"";
    assert "\"" + path + "\"" == "\"" + (path[..i] + rest);
    assert ("\"" + (path[..i] + rest))[1..] == path[..i] + rest;
    RunAppend(begun, path[..i], rest);
    QuotedKept(begun, path[..i], '\"');
    assert begun.current + path[..i] == path[..i];
  }

  lemma PathRead(path: string)
    requires path != "" && IsPlain(path)
    ensures SplitCommandLine(QuotePath(path)) == Arguments([path])
  {
    assert path[..|path|] == path && path[|path|..] + "\"" == "\"";
    PathPrefix(path, |path|);
    RunOne(Scan([], path, Some('\"'), false, true), '\"');
    assert [] + [path] == [path];
  }

  lemma PathBreaks(path: string, i: nat)
    requires i < |path| && IsPlain(path[..i]) && (path[i] == '\"' || path[i] == '\\')
    ensures SplitCommandLine(QuotePath(path)) != Arguments([path])
  {
    var text := path[i + 1..];
    var read := Scan([], path[..i], Some('\"'), false, true);
    var next := Feed(read, path[i]);
    PathPrefix(path, i);
    assert (path[i..] + "\"")[1..] == text + "\"";
    assert Total([]) == 0 && Read(next) == i;
    if path[i] == '\"' {
      ClosedReads(next, text);
      FinishReads(Run(next, text + "\""), path);
    } else if text == "" {
      assert text + "\"" == "\"";
      RunOne(next, '\"');
    } else {
      assert (text + "\"")[1..] == text[1..] + "\"";
      FeedReads(next, text[0]);
      ClosedReads(Feed(next, text[0]), text[1..]);
      FinishReads(Run(next, text + "\""), path);
    }
  }

  lemma {:induction false} FirstSpecial(path: string) returns (i: nat)
    requires !IsPlain(path)
    ensures i < |path| && IsPlain(path[..i]) && (path[i] == '\"' || path[i] == '\\')
  {
    i := 0;
    while path[i] != '\"' && path[i] != '\\'
      decreases |path| - i
      invariant i < |path| && IsPlain(path[..i]) && !IsPlain(path[i..])
    {
      i := i + 1;
    }
  }

  /** A quoted path is one argument exactly when it is not empty and has no double quote and no backslash. */
  lemma QuotedPathExactly(path: string)
    ensures SplitCommandLine(QuotePath(path)) == Arguments([path]) <==> path != "" && IsPlain(path)
  {
    if path != "" && !IsPlain(path) {
      var i := FirstSpecial(path);
      PathBreaks(path, i);
    } else if path != "" {
      PathRead(path);
    }
  }
}
