/** The line diff of the golden harness: its table, its edit script and the walk that prints it. */
module LineDiff {

  type Line = string

  // ------------------------------------------------------ longest common subsequences

  predicate IsSubsequence(c: seq<Line>, a: seq<Line>) {
    c == [] || (a != [] && ((c[0] == a[0] && IsSubsequence(c[1..], a[1..])) || IsSubsequence(c, a[1..])))
  }

  function Max(x: nat, y: nat): nat {
    if x >= y then x else y
  }

  /** What the table holds for the suffixes `a` and `b`. */
  function Lcs(a: seq<Line>, b: seq<Line>): nat
    decreases |a| + |b|
  {
    if a == [] || b == [] then 0
    else if a[0] == b[0] then Lcs(a[1..], b[1..]) + 1
    else Max(Lcs(a[1..], b), Lcs(a, b[1..]))
  }

  lemma {:induction false} SubsequenceTail(c: seq<Line>, a: seq<Line>)
    requires IsSubsequence(c, a) && c != [] && a != []
    ensures IsSubsequence(c[1..], a[1..])
    decreases |a|
  {
    if !(c[0] == a[0] && IsSubsequence(c[1..], a[1..])) {
      if a[1..] != [] {
        SubsequenceTail(c, a[1..]);
        assert IsSubsequence(c[1..], a[1..][1..]);
      }
    }
  }

  lemma {:induction false} LcsIsUpperBound(c: seq<Line>, a: seq<Line>, b: seq<Line>)
    requires IsSubsequence(c, a) && IsSubsequence(c, b)
    ensures |c| <= Lcs(a, b)
    decreases |a| + |b|
  {
    if c != [] {
      if a[0] == b[0] {
        SubsequenceTail(c, a);
        SubsequenceTail(c, b);
        LcsIsUpperBound(c[1..], a[1..], b[1..]);
      } else if c[0] != a[0] {
        LcsIsUpperBound(c, a[1..], b);
      } else {
        LcsIsUpperBound(c, a, b[1..]);
      }
    }
  }

  lemma {:induction false} LcsIsAttained(a: seq<Line>, b: seq<Line>) returns (c: seq<Line>)
    ensures IsSubsequence(c, a) && IsSubsequence(c, b) && |c| == Lcs(a, b)
    decreases |a| + |b|
  {
    if a == [] || b == [] {
      c := [];
    } else if a[0] == b[0] {
      var rest := LcsIsAttained(a[1..], b[1..]);
      c := [a[0]] + rest;
      assert c[1..] == rest;
    } else if Lcs(a[1..], b) >= Lcs(a, b[1..]) {
      c := LcsIsAttained(a[1..], b);
    } else {
      c := LcsIsAttained(a, b[1..]);
    }
  }

  ghost predicate IsCommon(c: seq<Line>, a: seq<Line>, b: seq<Line>) {
    IsSubsequence(c, a) && IsSubsequence(c, b)
  }

  /** A table entry is the length of a common subsequence, and none is longer. */
  lemma LcsIsLongest(a: seq<Line>, b: seq<Line>)
    ensures exists c :: IsCommon(c, a, b) && |c| == Lcs(a, b)
    ensures forall c :: IsCommon(c, a, b) ==> |c| <= Lcs(a, b)
  {
    var c := LcsIsAttained(a, b);
    assert IsCommon(c, a, b);
    forall d | IsCommon(d, a, b) ensures |d| <= Lcs(a, b) {
      LcsIsUpperBound(d, a, b);
    }
  }

  // ----------------------------------------------------------------------- edit scripts

  datatype Edit = Keep(line: Line) | Insert(line: Line) | Delete(line: Line)

  function Before(edits: seq<Edit>): seq<Line> {
    if edits == [] then []
    else (if edits[0].Insert? then [] else [edits[0].line]) + Before(edits[1..])
  }

  function After(edits: seq<Edit>): seq<Line> {
    if edits == [] then []
    else (if edits[0].Delete? then [] else [edits[0].line]) + After(edits[1..])
  }

  function Kept(edits: seq<Edit>): seq<Line> {
    if edits == [] then []
    else (if edits[0].Keep? then [edits[0].line] else []) + Kept(edits[1..])
  }

  /** How many lines a script marks as changed. */
  function Changes(edits: seq<Edit>): nat {
    if edits == [] then 0
    else (if edits[0].Keep? then 0 else 1) + Changes(edits[1..])
  }

  /** The script that the walk over the table spells out. */
  function Script(a: seq<Line>, b: seq<Line>): seq<Edit>
    decreases |a| + |b|
  {
    if a != [] && b != [] && a[0] == b[0] then [Keep(a[0])] + Script(a[1..], b[1..])
    else if b != [] && (a == [] || Lcs(a, b[1..]) >= Lcs(a[1..], b)) then [Insert(b[0])] + Script(a, b[1..])
    else if a != [] then [Delete(a[0])] + Script(a[1..], b)
    else []
  }

  lemma FirstEdit(e: Edit, rest: seq<Edit>)
    ensures Before([e] + rest) == (if e.Insert? then [] else [e.line]) + Before(rest)
    ensures After([e] + rest) == (if e.Delete? then [] else [e.line]) + After(rest)
    ensures Changes([e] + rest) == (if e.Keep? then 0 else 1) + Changes(rest)
  {
    assert ([e] + rest)[1..] == rest;
  }

  lemma {:induction false} ScriptRebuilds(a: seq<Line>, b: seq<Line>)
    ensures Before(Script(a, b)) == a && After(Script(a, b)) == b
    ensures Changes(Script(a, b)) + 2 * Lcs(a, b) == |a| + |b|
    decreases |a| + |b|
  {
    if a != [] && b != [] && a[0] == b[0] {
      ScriptRebuilds(a[1..], b[1..]);
      FirstEdit(Keep(a[0]), Script(a[1..], b[1..]));
    } else if b != [] && (a == [] || Lcs(a, b[1..]) >= Lcs(a[1..], b)) {
      ScriptRebuilds(a, b[1..]);
      FirstEdit(Insert(b[0]), Script(a, b[1..]));
    } else if a != [] {
      ScriptRebuilds(a[1..], b);
      FirstEdit(Delete(a[0]), Script(a[1..], b));
    }
  }

  lemma {:induction false} KeptIsCommon(edits: seq<Edit>)
    ensures IsSubsequence(Kept(edits), Before(edits)) && IsSubsequence(Kept(edits), After(edits))
    ensures Changes(edits) + 2 * |Kept(edits)| == |Before(edits)| + |After(edits)|
  {
    if edits != [] {
      KeptIsCommon(edits[1..]);
      var kept, before, after := Kept(edits[1..]), Before(edits[1..]), After(edits[1..]);
      match edits[0]
      case Keep(line) =>
        assert ([line] + kept)[1..] == kept && ([line] + before)[1..] == before && ([line] + after)[1..] == after;
      case Insert(line) =>
        assert Kept(edits) == kept && Before(edits) == before && After(edits)[1..] == after;
      case Delete(line) =>
        assert Kept(edits) == kept && After(edits) == after && Before(edits)[1..] == before;
    }
  }

  /**
   * The script turns `expected` into `actual`, and no script that does so marks fewer
   * lines as changed.
   */
  lemma ScriptIsMinimal(expected: seq<Line>, actual: seq<Line>, other: seq<Edit>)
    requires Before(other) == expected && After(other) == actual
    ensures Before(Script(expected, actual)) == expected && After(Script(expected, actual)) == actual
    ensures Changes(Script(expected, actual)) <= Changes(other)
  {
    ScriptRebuilds(expected, actual);
    KeptIsCommon(other);
    LcsIsUpperBound(Kept(other), expected, actual);
  }

  // --------------------------------------------------------------------- the printed text

  const HEADER := "--- expected\n+++ actual\n"
  const NOTICE := "... diff truncated after 240 lines\n"
  const LIMIT: nat := 240

  function DropLeadingKeeps(edits: seq<Edit>): seq<Edit> {
    if edits != [] && edits[0].Keep? then DropLeadingKeeps(edits[1..]) else edits
  }

  function Sign(e: Edit): char {
    match e
    case Keep(_) => ' '
    case Insert(_) => '+'
    case Delete(_) => '-'
  }

  function Print(edits: seq<Edit>): string {
    if edits == [] then ""
    else Print(edits[..|edits| - 1]) + [Sign(edits[|edits| - 1])] + edits[|edits| - 1].line + "\n"
  }

  /** The script without its leading context, cut at the limit. */
  function Rendered(edits: seq<Edit>, header: string, notice: string): string {
    var shown := DropLeadingKeeps(edits);
    if |shown| < LIMIT then header + Print(shown)
    else header + Print(shown[..LIMIT]) + notice
  }

  /** The shown edits after one more: leading context is left out. */
  function Grow(shown: seq<Edit>, e: Edit): seq<Edit> {
    if e.Keep? && shown == [] then shown else shown + [e]
  }

  lemma PrintGrow(shown: seq<Edit>, e: Edit, line: string)
    requires line == [Sign(e)] + e.line + "\n"
    ensures Print(shown + [e]) == Print(shown) + line
  {
    assert (shown + [e])[..|shown|] == shown;
    assert Print(shown) + ([Sign(e)] + e.line + "\n") == Print(shown) + [Sign(e)] + e.line + "\n";
  }

  method PushDiffLine(rendered: string, e: Edit, emitted: nat, ghost header: string, ghost shown: seq<Edit>)
    returns (rendered': string, emitted': nat)
    requires rendered == header + Print(shown) && emitted == |shown|
    ensures rendered' == header + Print(Grow(shown, e)) && emitted' == |Grow(shown, e)|
  {
    rendered', emitted' := rendered, emitted;
    if Sign(e) != ' ' || emitted > 0 {
      var line := [Sign(e)] + e.line + "\n";
      PrintGrow(shown, e, line);
      assert header + Print(shown) + line == header + (Print(shown) + line);
      rendered' := rendered + line;
      emitted' := emitted + 1;
    }
  }

  /** Fills the table from the back; every cell holds the longest length of its suffixes. */
  method FillTable(expected: seq<Line>, actual: seq<Line>) returns (lcs: array2<nat>)
    ensures fresh(lcs) && lcs.Length0 == |expected| + 1 && lcs.Length1 == |actual| + 1
    ensures forall r, c :: 0 <= r <= |expected| && 0 <= c <= |actual| ==> lcs[r, c] == Lcs(expected[r..], actual[c..])
  {
    var rows, cols := |expected|, |actual|;
    lcs := new nat[rows + 1, cols + 1]((r, c) => 0);
    var row := rows;
    while row > 0
      invariant 0 <= row <= rows
      invariant forall r, c :: row <= r <= rows && 0 <= c <= cols ==> lcs[r, c] == Lcs(expected[r..], actual[c..])
      invariant forall r, c :: 0 <= r < row && 0 <= c <= cols ==> lcs[r, c] == 0
    {
      row := row - 1;
      var col := cols;
      assert Lcs(expected[row..], actual[cols..]) == 0;
      while col > 0
        invariant 0 <= col <= cols
        invariant forall r, c :: row < r <= rows && 0 <= c <= cols ==> lcs[r, c] == Lcs(expected[r..], actual[c..])
        invariant forall c :: col <= c <= cols ==> lcs[row, c] == Lcs(expected[row..], actual[c..])
        invariant forall r, c :: 0 <= r < row && 0 <= c <= cols ==> lcs[r, c] == 0
      {
        col := col - 1;
        assert expected[row..][1..] == expected[row + 1..] && actual[col..][1..] == actual[col + 1..];
        lcs[row, col] :=
          if expected[row] == actual[col] then lcs[row + 1, col + 1] + 1
          else Max(lcs[row + 1, col], lcs[row, col + 1]);
      }
    }
  }

  /** What is still to be shown once `n` edits have been. */
  function Remaining(rest: seq<Edit>, n: nat): seq<Edit> {
    if n == 0 then DropLeadingKeeps(rest) else rest
  }

  /** The first edit the script spells out for two suffixes, and the suffixes it leaves. */
  lemma ScriptStep(expected: seq<Line>, actual: seq<Line>, row: nat, col: nat)
    requires row <= |expected| && col <= |actual| && (row < |expected| || col < |actual|)
    ensures var a, b := expected[row..], actual[col..];
            if row < |expected| && col < |actual| && expected[row] == actual[col] then
              Script(a, b) == [Keep(expected[row])] + Script(expected[row + 1..], actual[col + 1..])
            else if col < |actual| && (row == |expected| || Lcs(a, actual[col + 1..]) >= Lcs(expected[row + 1..], b)) then
              Script(a, b) == [Insert(actual[col])] + Script(a, actual[col + 1..])
            else
              row < |expected| && Script(a, b) == [Delete(expected[row])] + Script(expected[row + 1..], b)
  {
    var a, b := expected[row..], actual[col..];
    assert row < |expected| ==> a[1..] == expected[row + 1..];
    assert col < |actual| ==> b[1..] == actual[col + 1..];
  }

  lemma RemainingStep(all: seq<Edit>, shown: seq<Edit>, rest: seq<Edit>, e: Edit, tail: seq<Edit>)
    requires rest == [e] + tail && all == shown + Remaining(rest, |shown|)
    ensures all == Grow(shown, e) + Remaining(tail, |Grow(shown, e)|)
  {
    assert rest[1..] == tail;
    assert shown + ([e] + tail) == shown + [e] + tail;
  }

  /** One step of the walk through the table. */
  method NextEdit(lcs: array2<nat>, expected: seq<Line>, actual: seq<Line>, row: nat, col: nat)
    returns (e: Edit, row': nat, col': nat)
    requires lcs.Length0 == |expected| + 1 && lcs.Length1 == |actual| + 1
    requires forall r, c :: 0 <= r <= |expected| && 0 <= c <= |actual| ==> lcs[r, c] == Lcs(expected[r..], actual[c..])
    requires row <= |expected| && col <= |actual| && (row < |expected| || col < |actual|)
    ensures row <= row' <= |expected| && col <= col' <= |actual| && row + col < row' + col'
    ensures Script(expected[row..], actual[col..]) == [e] + Script(expected[row'..], actual[col'..])
  {
    var rows, cols := |expected|, |actual|;
    row', col' := row, col;
    ScriptStep(expected, actual, row, col);
    if row < rows && col < cols && expected[row] == actual[col] {
      e := Keep(expected[row]);
      row', col' := row + 1, col + 1;
    } else if col < cols && (row == rows || lcs[row, col + 1] >= lcs[row + 1, col]) {
      e := Insert(actual[col]);
      col' := col + 1;
    } else {
      e := Delete(expected[row]);
      row' := row + 1;
    }
  }

  /** The walk through the table; `shown` are the edits printed so far. */
  method WalkTable(lcs: array2<nat>, expected: seq<Line>, actual: seq<Line>, header: string, notice: string)
    returns (rendered: string)
    requires lcs.Length0 == |expected| + 1 && lcs.Length1 == |actual| + 1
    requires forall r, c :: 0 <= r <= |expected| && 0 <= c <= |actual| ==> lcs[r, c] == Lcs(expected[r..], actual[c..])
    ensures rendered == Rendered(Script(expected, actual), header, notice)
  {
    rendered := header;
    var row, col, emitted := 0, 0, 0;
    ghost var all := DropLeadingKeeps(Script(expected, actual));
    ghost var shown: seq<Edit> := [];
    ghost var rest := Script(expected, actual);
    while row < |expected| || col < |actual|
      invariant 0 <= row <= |expected| && 0 <= col <= |actual|
      invariant rest == Script(expected[row..], actual[col..])
      invariant |shown| == emitted < LIMIT
      invariant rendered == header + Print(shown)
      invariant all == shown + Remaining(rest, emitted)
      decreases |expected| - row + |actual| - col
    {
      var e;
      e, row, col := NextEdit(lcs, expected, actual, row, col);
      RemainingStep(all, shown, rest, e, Script(expected[row..], actual[col..]));
      rendered, emitted := PushDiffLine(rendered, e, emitted, header, shown);
      rest, shown := Script(expected[row..], actual[col..]), Grow(shown, e);
      if emitted >= LIMIT {
        assert all[..LIMIT] == shown;
        rendered := rendered + notice;
        return;
      }
    }
    assert all == shown;
  }
}
