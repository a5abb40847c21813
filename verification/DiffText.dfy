/** What a reader finds in the printed diff: both sides, the fewest changes, and the cut. */
module DiffText {
  import opened LineDiff

  /** The lines of a text that starts with `c`, from the lines of the rest. */
  function WithFirst(c: char, lines: seq<Line>): seq<Line> {
    if c == '\n' then [""] + lines
    else if lines == [] then [[c]]
    else [[c] + lines[0]] + lines[1..]
  }

  /** The text cut behind its line feeds. */
  function ReadLines(text: string): (lines: seq<Line>)
    ensures lines == [] <==> text == ""
  {
    if text == "" then [] else WithFirst(text[0], ReadLines(text[1..]))
  }

  /** What the lines that start with a blank or with `sign` say. */
  function Side(lines: seq<Line>, sign: char): seq<Line> {
    if lines == [] then []
    else (if lines[0] != "" && (lines[0][0] == ' ' || lines[0][0] == sign) then [lines[0][1..]] else []) + Side(lines[1..], sign)
  }

  function Changed(lines: seq<Line>): nat {
    if lines == [] then 0
    else (if lines[0] != "" && lines[0][0] == ' ' then 0 else 1) + Changed(lines[1..])
  }

  /** The first `n` lines are the same, and no more. */
  predicate IsCommonStart(n: nat, a: seq<Line>, b: seq<Line>) {
    && n <= |a| && n <= |b| && a[..n] == b[..n]
    && (n < |a| && n < |b| ==> a[n] != b[n])
  }

  /** The lines give both sides back and mark as few of them as possible. */
  ghost predicate TellsApart(lines: seq<Line>, a: seq<Line>, b: seq<Line>) {
    && (forall line :: line in lines ==> line != "" && line[0] in {' ', '+', '-'})
    && Side(lines, '-') == a
    && Side(lines, '+') == b
    && (forall c :: IsCommon(c, a, b) ==> Changed(lines) + 2 * |c| <= |a| + |b|)
    && exists c :: IsCommon(c, a, b) && Changed(lines) + 2 * |c| == |a| + |b|
  }

  /** The text is `header` and these lines, each with a line feed. */
  ghost predicate Holds(text: string, header: string, lines: seq<Line>) {
    exists body: string :: IsBody(body, lines) && text == header + body
  }

  predicate IsBody(body: string, lines: seq<Line>) {
    ReadLines(body) == lines && (body != "" ==> body[|body| - 1] == '\n')
  }

  ghost predicate ShowsBehind(n: nat, lines: seq<Line>, text: string, header: string, notice: Line, a: seq<Line>,
                              b: seq<Line>)
  {
    && IsCommonStart(n, a, b)
    && TellsApart(lines, a[n..], b[n..])
    && Holds(text, header, if |lines| < 240 then lines else lines[..240] + [notice])
  }

  ghost predicate Shows(text: string, header: string, notice: Line, a: seq<Line>, b: seq<Line>) {
    exists n: nat, lines :: ShowsBehind(n, lines, text, header, notice, a, b)
  }

  /**
   * The text shows the difference behind the lines that both sides start with: all of it
   * if that takes fewer than 240 lines, otherwise its first 240 lines and a notice.
   */
  ghost predicate ShowsDifference(text: string, expected: seq<Line>, actual: seq<Line>) {
    Shows(text, "--- expected\n+++ actual\n", "... diff truncated after 240 lines", expected, actual)
  }

  // ---------------------------------------------------------------------- reading back

  predicate OneLine(line: Line) {
    '\n' !in line
  }

  lemma Associates(a: string, b: string, c: string)
    ensures a + b + c == a + (b + c)
  {
  }

  lemma {:induction false} ReadLine(line: Line, rest: string)
    requires OneLine(line)
    ensures ReadLines(line + ("\n" + rest)) == [line] + ReadLines(rest)
  {
    var text := line + ("\n" + rest);
    if line == "" {
      assert text[1..] == rest;
    } else {
      ReadLine(line[1..], rest);
      assert text[0] == line[0] && text[1..] == line[1..] + ("\n" + rest);
      assert [line[0]] + line[1..] == line;
    }
  }

  lemma WithFirstAppend(c: char, lines: seq<Line>, line: Line)
    requires c == '\n' || lines != []
    ensures WithFirst(c, lines + [line]) == WithFirst(c, lines) + [line]
  {
  }

  lemma {:induction false} ReadAppend(text: string, line: Line)
    requires OneLine(line) && (text != "" ==> text[|text| - 1] == '\n')
    ensures ReadLines(text + (line + "\n")) == ReadLines(text) + [line]
  {
    var whole := text + (line + "\n");
    if text == "" {
      ReadLine(line, "");
      assert "\n" + "" == "\n" && whole == line + "\n";
    } else {
      ReadAppend(text[1..], line);
      assert whole[0] == text[0] && whole[1..] == text[1..] + (line + "\n");
      WithFirstAppend(text[0], ReadLines(text[1..]), line);
    }
  }

  /** The lines of the printed edits. */
  function LinesOf(edits: seq<Edit>): (lines: seq<Line>)
    ensures |lines| == |edits|
    ensures forall i :: 0 <= i < |lines| ==> lines[i] == [Sign(edits[i])] + edits[i].line
  {
    seq(|edits|, i requires 0 <= i < |edits| => [Sign(edits[i])] + edits[i].line)
  }

  ghost predicate OneLines(edits: seq<Edit>) {
    forall e :: e in edits ==> OneLine(e.line)
  }

  lemma Joined(a: string, b: string, c: string, d: string)
    ensures a + b + c + d == a + (b + c + d)
  {
  }

  lemma LastLine(edits: seq<Edit>, before: seq<Edit>, last: Edit, text: string)
    requires edits == before + [last] && OneLine(last.line)
    requires ReadLines(text) == LinesOf(before) && (text != "" ==> text[|text| - 1] == '\n')
    ensures ReadLines(text + [Sign(last)] + last.line + "\n") == LinesOf(edits)
  {
    var line := [Sign(last)] + last.line;
    ReadAppend(text, line);
    Joined(text, [Sign(last)], last.line, "\n");
    assert LinesOf(edits) == LinesOf(before) + [line];
  }

  lemma {:induction false} PrintReads(edits: seq<Edit>)
    requires OneLines(edits)
    ensures IsBody(Print(edits), LinesOf(edits))
  {
    if edits != [] {
      var before, last := edits[..|edits| - 1], edits[|edits| - 1];
      PrintReads(before);
      assert last in edits;
      LastLine(edits, before, last, Print(before));
    }
  }

  lemma {:induction false} SidesOf(edits: seq<Edit>)
    ensures Side(LinesOf(edits), '-') == Before(edits)
    ensures Side(LinesOf(edits), '+') == After(edits)
    ensures Changed(LinesOf(edits)) == Changes(edits)
  {
    if edits != [] {
      SidesOf(edits[1..]);
      assert LinesOf(edits)[1..] == LinesOf(edits[1..]);
      assert LinesOf(edits)[0][1..] == edits[0].line;
    }
  }

  /** What is left out in front is what both sides start with. */
  lemma {:induction false} LeadingKeeps(a: seq<Line>, b: seq<Line>) returns (n: nat)
    ensures IsCommonStart(n, a, b) && DropLeadingKeeps(Script(a, b)) == Script(a[n..], b[n..])
    decreases |a|
  {
    if a != [] && b != [] && a[0] == b[0] {
      var m := LeadingKeeps(a[1..], b[1..]);
      n := m + 1;
      assert a[..n] == [a[0]] + a[1..][..m] && b[..n] == [b[0]] + b[1..][..m];
      assert a[n..] == a[1..][m..] && b[n..] == b[1..][m..];
      assert Script(a, b)[1..] == Script(a[1..], b[1..]);
    } else {
      n := 0;
      assert a[0..] == a && b[0..] == b;
    }
  }

  lemma {:induction false} EditLines(edits: seq<Edit>, a: seq<Line>, b: seq<Line>)
    requires Before(edits) == a && After(edits) == b
    requires forall line :: line in a || line in b ==> OneLine(line)
    ensures OneLines(edits)
  {
    if edits != [] {
      EditLines(edits[1..], Before(edits[1..]), After(edits[1..]));
    }
  }

  lemma ScriptTellsApart(a: seq<Line>, b: seq<Line>)
    ensures TellsApart(LinesOf(Script(a, b)), a, b)
  {
    var edits := Script(a, b);
    ScriptRebuilds(a, b);
    SidesOf(edits);
    LcsIsLongest(a, b);
    forall line | line in LinesOf(edits) ensures line != "" && line[0] in {' ', '+', '-'} {
      var i :| 0 <= i < |edits| && LinesOf(edits)[i] == line;
    }
  }

  lemma NoticeReads(printed: string, lines: seq<Line>, notice: Line)
    requires OneLine(notice) && IsBody(printed, lines)
    ensures IsBody(printed + (notice + "\n"), lines + [notice])
  {
    ReadAppend(printed, notice);
  }

  lemma EditsShow(edits: seq<Edit>, header: string, notice: Line) returns (text: string)
    requires OneLines(edits) && OneLine(notice)
    ensures text == if |edits| < 240 then header + Print(edits) else header + Print(edits[..240]) + (notice + "\n")
    ensures Holds(text, header, if |edits| < 240 then LinesOf(edits) else LinesOf(edits)[..240] + [notice])
  {
    if |edits| < 240 {
      PrintReads(edits);
      text := header + Print(edits);
    } else {
      var shown := edits[..240];
      PrintReads(shown);
      assert LinesOf(shown) == LinesOf(edits)[..240];
      NoticeReads(Print(shown), LinesOf(shown), notice);
      text := header + Print(shown) + (notice + "\n");
      Associates(header, Print(shown), notice + "\n");
    }
  }

  lemma RenderedShows(a: seq<Line>, b: seq<Line>, header: string, notice: Line, n: nat, all: seq<Edit>, edits: seq<Edit>)
    requires IsCommonStart(n, a, b) && TellsApart(LinesOf(edits), a[n..], b[n..])
    requires OneLines(edits) && OneLine(notice) && edits == DropLeadingKeeps(all)
    ensures Shows(Rendered(all, header, notice + "\n"), header, notice, a, b)
  {
    var text := EditsShow(edits, header, notice);
    assert ShowsBehind(n, LinesOf(edits), text, header, notice, a, b);
  }

  lemma ScriptShows(a: seq<Line>, b: seq<Line>, header: string, notice: Line)
    requires forall line :: line in a || line in b ==> OneLine(line)
    requires OneLine(notice)
    ensures Shows(Rendered(Script(a, b), header, notice + "\n"), header, notice, a, b)
  {
    var n := LeadingKeeps(a, b);
    var edits := Script(a[n..], b[n..]);
    ScriptTellsApart(a[n..], b[n..]);
    ScriptRebuilds(a[n..], b[n..]);
    EditLines(edits, a[n..], b[n..]);
    RenderedShows(a, b, header, notice, n, Script(a, b), edits);
  }

  /** The printed text, read back, shows the difference. */
  lemma PrintedShowsDifference(expected: seq<Line>, actual: seq<Line>)
    requires forall line :: line in expected || line in actual ==> OneLine(line)
    ensures ShowsDifference(Rendered(Script(expected, actual), HEADER, NOTICE), expected, actual)
  {
    var notice := "... diff truncated after 240 lines";
    assert NOTICE == notice + "\n";
    ScriptShows(expected, actual, HEADER, notice);
  }

  method UnifiedDiff(expected: seq<Line>, actual: seq<Line>) returns (rendered: string)
    ensures rendered == Rendered(Script(expected, actual), HEADER, NOTICE)
    ensures (forall line :: line in expected || line in actual ==> OneLine(line))
            ==> ShowsDifference(rendered, expected, actual)
  {
    var lcs := FillTable(expected, actual);
    rendered := WalkTable(lcs, expected, actual, HEADER, NOTICE);
    if forall line :: line in expected || line in actual ==> OneLine(line) {
      PrintedShowsDifference(expected, actual);
    }
  }

  // ------------------------------------------------------------------ which script it is

  lemma DeleteFirst(a: seq<Line>, b: seq<Line>, other: seq<Edit>)
    requires Before(other) == a && After(other) == b && Changes(other) == Changes(Script(a, b))
    requires other != [] && Script(a, b) != [] && Script(a, b)[0].Delete?
    ensures !other[0].Insert?
  {
    if other[0].Insert? {
      ScriptRebuilds(a, b);
      assert Before(other[1..]) == a && After(other[1..]) == b[1..];
      ScriptIsMinimal(a, b[1..], other[1..]);
      ScriptRebuilds(a, b[1..]);
      assert false;
    }
  }

  /**
   * Of all shortest scripts it is the one that keeps a line where it can and otherwise
   * inserts before it deletes: where another shortest script parts from it, this one keeps,
   * or it inserts and the other deletes.
   */
  lemma {:induction false} KeepsThenInserts(a: seq<Line>, b: seq<Line>, other: seq<Edit>, i: nat)
    requires Before(other) == a && After(other) == b && Changes(other) == Changes(Script(a, b))
    requires i < |other| && i < |Script(a, b)| && other[..i] == Script(a, b)[..i] && other[i] != Script(a, b)[i]
    ensures Script(a, b)[i].Keep? || (Script(a, b)[i].Insert? && other[i].Delete?)
    decreases i
  {
    if i == 0 {
      FirstEdits(a, b, other);
    } else {
      ScriptTail(a, b, other, i);
      var e := other[0];
      KeepsThenInserts(if e.Insert? then a else a[1..], if e.Delete? then b else b[1..], other[1..], i - 1);
    }
  }

  lemma FirstEdits(a: seq<Line>, b: seq<Line>, other: seq<Edit>)
    requires Before(other) == a && After(other) == b && Changes(other) == Changes(Script(a, b))
    requires other != [] && Script(a, b) != [] && other[0] != Script(a, b)[0]
    ensures Script(a, b)[0].Keep? || (Script(a, b)[0].Insert? && other[0].Delete?)
  {
    if Script(a, b)[0].Delete? {
      DeleteFirst(a, b, other);
    }
  }

  lemma ScriptTail(a: seq<Line>, b: seq<Line>, other: seq<Edit>, i: nat)
    requires Before(other) == a && After(other) == b && Changes(other) == Changes(Script(a, b))
    requires 0 < i < |other| && i < |Script(a, b)| && other[..i] == Script(a, b)[..i]
    ensures other[0] == Script(a, b)[0] && (!other[0].Insert? ==> a != []) && (!other[0].Delete? ==> b != [])
    ensures var e := other[0];
            var a', b' := if e.Insert? then a else a[1..], if e.Delete? then b else b[1..];
            && Script(a, b)[1..] == Script(a', b') && Before(other[1..]) == a' && After(other[1..]) == b'
            && Changes(other[1..]) == Changes(Script(a', b'))
            && other[1..][..i - 1] == Script(a', b')[..i - 1]
            && other[1..][i - 1] == other[i] && Script(a', b')[i - 1] == Script(a, b)[i]
  {
    var mine := Script(a, b);
    TailsAgree(mine, other, i);
  }

  lemma TailsAgree(s: seq<Edit>, t: seq<Edit>, i: nat)
    requires 0 < i < |s| && i < |t| && t[..i] == s[..i]
    ensures s[0] == t[0] && t[1..][..i - 1] == s[1..][..i - 1]
    ensures t[1..][i - 1] == t[i] && s[1..][i - 1] == s[i]
  {
    assert s[0] == s[..i][0] && t[0] == t[..i][0];
    assert t[1..][..i - 1] == t[..i][1..] && s[1..][..i - 1] == s[..i][1..];
  }
}
