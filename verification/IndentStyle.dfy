/** Detecting the indentation style of a document by a vote over lines from its middle.
    The thresholds are exact percentages. */
module IndentStyle {

  const TAB := '\t'

  // ------------------------------------------------------------------ specification

  predicate Blank(c: char) { c == ' ' || c == TAB }

  /** The leading blanks of a line. */
  function Indent(s: string): (r: string)
    ensures r <= s && forall c :: c in r ==> c == ' ' || c == '\t'
    ensures |r| < |s| ==> s[|r|] != ' ' && s[|r|] != '\t'
  {
    if s != "" && Blank(s[0]) then [s[0]] + Indent(s[1..]) else ""
  }

  /** Counter 0 is for indents with a tab, counter 1 for indents of spaces only and counter
      i from 2 to 8 for those of them whose length i divides. */
  predicate CountsIn(indent: string, i: nat) {
    if i == 0 then TAB in indent
    else indent != "" && TAB !in indent && (i > 1 ==> |indent| % i == 0)
  }

  function Tally(lines: seq<string>, i: nat): nat {
    if lines == [] then 0
    else Tally(lines[..|lines| - 1], i) + if CountsIn(Indent(lines[|lines| - 1]), i) then 1 else 0
  }

  function SampleStart(n: nat): nat { if n / 2 > 500 then n / 2 - 500 else 0 }

  function SampleEnd(n: nat): nat { if n < n / 2 + 500 then n else n / 2 + 500 }

  function Sample(lines: seq<string>): seq<string> {
    lines[SampleStart(|lines|)..SampleEnd(|lines|)]
  }

  /** c holds the nine counters of the sample. */
  predicate Counted(lines: seq<string>, c: seq<nat>) {
    |c| == 9 && forall i :: 0 <= i < 9 ==> c[i] == Tally(lines, i)
  }

  /** The width with the most votes; of equals 8 goes first and then the smallest. */
  predicate Elected(c: seq<nat>, w: nat)
    requires |c| == 9
  {
    && 2 <= w <= 8
    && forall i :: 2 <= i <= 8 ==> c[i] < c[w] || (c[i] == c[w] && (w == 8 || (i != 8 && w <= i)))
  }

  /** a is less than p percent of b. */
  predicate Under(a: int, p: int, b: int) { 100 * a < p * b }

  /** Whether the votes decide before the widths are looked at. */
  function ByKind(c: seq<nat>): (r: int)
    requires |c| == 9
  {
    var total := c[0] + c[1];
    if c[0] > 0 && c[1] == 0 then 0
    else if total < 10 then -1
    else if 100 * c[0] > 75 * total then 0
    else if Under(c[1], 75, total) then -1
    else 1
  }

  /** The style for the elected width w, after the correction for its multiples. */
  function ByWidth(c: seq<nat>, w: nat): int
    requires |c| == 9 && w <= 8
  {
    var total, more: int := c[1], c[2] as int - c[6] as int;
    if Under(c[w], 65, total) then -1
    else if w == 2 then
      if Under(more, 10, total) then 6
      else if 10 * c[2] > 18 * c[4] || Under(c[4], 50, total) then 2
      else FourOrEight(c)
    else if w == 4 then FourOrEight(c)
    else if w == 8 then Eight(c)
    else if w == 3 then
      if 10 * c[3] > 18 * c[6] || Under(c[6], 50, total) then 3
      else if Under(c[6], 60, total) then -1 else 6
    else if Under(c[w], 70, total) then -1 else w
  }

  function FourOrEight(c: seq<nat>): int
    requires |c| == 9
  {
    if 10 * c[4] > 18 * c[8] || Under(c[8], 50, c[1]) then 4 else Eight(c)
  }

  function Eight(c: seq<nat>): int
    requires |c| == 9
  {
    if Under(c[8], 60, c[1]) then -1 else 8
  }

  /** r is the style of a document with these lines. */
  ghost predicate Detected(lines: seq<string>, r: int) {
    exists c, w | Counted(Sample(lines), c) && Elected(c, w) ::
      r == if ByKind(c) != 1 then ByKind(c) else ByWidth(c, w)
  }

  // ------------------------------------------------------------------------ methods

  lemma {:induction false} IndentIs(text: string, i: nat)
    requires i <= |text| && (forall k :: 0 <= k < i ==> Blank(text[k])) && (i < |text| ==> !Blank(text[i]))
    ensures Indent(text) == text[..i]
  {
    if i > 0 {
      assert forall k :: 0 <= k < i - 1 ==> text[1..][k] == text[k + 1];
      IndentIs(text[1..], i - 1);
      assert text[..i] == [text[0]] + text[1..][..i - 1];
    }
  }

  /** GetLineIndentString */
  method GetLineIndentString(text: string) returns (indent: string)
    ensures indent == Indent(text)
  {
    hide Indent;
    indent := "";
    var i := 0;
    while i < |text|
      invariant i <= |text| && indent == text[..i]
      invariant forall k :: 0 <= k < i ==> Blank(text[k])
    {
      if text[i] == ' ' || text[i] == TAB {
        indent := indent + [text[i]];
      } else {
        break;
      }
      i := i + 1;
    }
    IndentIs(text, i);
  }

  method CountLine(lineCount: array<nat>, indent: string)
    requires lineCount.Length == 9
    modifies lineCount
    ensures forall j :: 0 <= j < 9 ==> lineCount[j] == old(lineCount[j]) + if CountsIn(indent, j) then 1 else 0
  {
    if indent == "" { return; }
    if TAB in indent {
      lineCount[0] := lineCount[0] + 1;
    } else {
      lineCount[1] := lineCount[1] + 1;
      for i := 2 to 9
        invariant lineCount[0] == old(lineCount[0]) && lineCount[1] == old(lineCount[1]) + 1
        invariant forall j :: 2 <= j < i ==> lineCount[j] == old(lineCount[j]) + if |indent| % j == 0 then 1 else 0
        invariant forall j :: i <= j < 9 ==> lineCount[j] == old(lineCount[j])
      {
        if |indent| % i == 0 { lineCount[i] := lineCount[i] + 1; }
      }
    }
  }

  lemma TallyNone()
    ensures forall j :: Tally([], j) == 0
  {
  }

  lemma TallyNext(lines: seq<string>, l: string)
    ensures forall j :: Tally(lines + [l], j) == Tally(lines, j) + if CountsIn(Indent(l), j) then 1 else 0
  {
    assert (lines + [l])[..|lines|] == lines;
  }

  method CountLines(lines: seq<string>, lineCount: array<nat>)
    requires lineCount.Length == 9 && forall j :: 0 <= j < 9 ==> lineCount[j] == 0
    modifies lineCount
    ensures Counted(Sample(lines), lineCount[..])
  {
    hide Tally, CountsIn;
    TallyNone();
    var maxLine := if |lines| < |lines| / 2 + 500 then |lines| else |lines| / 2 + 500;
    var line := if 0 > |lines| / 2 - 500 then 0 else |lines| / 2 - 500;
    ghost var start := line;
    assert lines[start..start] == [];
    while line < maxLine
      invariant start <= line <= maxLine
      invariant forall j :: 0 <= j < 9 ==> lineCount[j] == Tally(lines[start..line], j)
    {
      var indent := GetLineIndentString(lines[line]);
      CountLine(lineCount, indent);
      TallyNext(lines[start..line], lines[line]);
      assert lines[start..line + 1] == lines[start..line] + [lines[line]];
      line := line + 1;
    }
  }

  method ElectWidth(lineCount: array<nat>) returns (tabSize: nat)
    requires lineCount.Length == 9
    ensures Elected(lineCount[..], tabSize)
  {
    tabSize := 8;
    for i := 2 to 8
      invariant tabSize == 8 || 2 <= tabSize < i
      invariant forall j :: 2 <= j < i ==> lineCount[j] <= lineCount[tabSize]
      invariant forall j :: 2 <= j < i && lineCount[j] == lineCount[tabSize] ==> tabSize == 8 || tabSize <= j
      invariant tabSize != 8 ==> lineCount[8] < lineCount[tabSize]
    {
      if lineCount[i] > lineCount[tabSize] { tabSize := i; }
    }
  }

  method DetectIndentStyle(lines: seq<string>) returns (style: int)
    ensures Detected(lines, style)
  {
    var lineCount := new nat[9](i => 0);
    CountLines(lines, lineCount);
    ghost var w := SomeElected(lineCount[..]);
    if lineCount[0] > 0 && lineCount[1] == 0 { return 0; }
    var total: int := lineCount[0] + lineCount[1];
    if total < 10 { return -1; }
    else if 100 * lineCount[0] > 75 * total { return 0; }
    else if 100 * lineCount[1] < 75 * total { return -1; }
    var tabSize := ElectWidth(lineCount);
    style := ChooseWidth(lineCount, tabSize);
  }

  lemma SomeElected(c: seq<nat>) returns (w: nat)
    requires |c| == 9
    ensures Elected(c, w)
  {
    w := 8;
    if c[2] > c[w] { w := 2; }
    if c[3] > c[w] { w := 3; }
    if c[4] > c[w] { w := 4; }
    if c[5] > c[w] { w := 5; }
    if c[6] > c[w] { w := 6; }
    if c[7] > c[w] { w := 7; }
  }

  /** The switch over the elected width; cases 2 and 4 fall through. */
  method ChooseWidth(lineCount: array<nat>, tabSize: nat) returns (style: int)
    requires lineCount.Length == 9 && 2 <= tabSize <= 8
    ensures style == ByWidth(lineCount[..], tabSize)
  {
    var total := lineCount[1];
    if 100 * lineCount[tabSize] < 65 * total { return -1; }
    if tabSize == 2 {
      var difference: int := lineCount[2] as int - lineCount[6] as int;
      if 100 * difference < 10 * total { return 6; }
      if 10 * lineCount[2] > 18 * lineCount[4] || 100 * lineCount[4] < 50 * total { return 2; }
    }
    if tabSize == 2 || tabSize == 4 {
      if 10 * lineCount[4] > 18 * lineCount[8] || 100 * lineCount[8] < 50 * total { return 4; }
    }
    if tabSize == 2 || tabSize == 4 || tabSize == 8 {
      if 100 * lineCount[8] < 60 * total { return -1; }
      return 8;
    }
    if tabSize == 3 {
      if 10 * lineCount[3] > 18 * lineCount[6] || 100 * lineCount[6] < 50 * total { return 3; }
      if 100 * lineCount[6] < 60 * total { return -1; }
      return 6;
    }
    if 100 * lineCount[tabSize] < 70 * total { return -1; }
    return tabSize;
  }

  // ----------------------------------------------------------------------- theorems

  lemma {:induction false} FewerDivisible(lines: seq<string>, i: nat, k: nat)
    requires i > 0 && k > 0 && i * k > 1
    ensures Tally(lines, i * k) <= Tally(lines, i)
  {
    if lines != [] {
      FewerDivisible(lines[..|lines| - 1], i, k);
      var indent := Indent(lines[|lines| - 1]);
      if |indent| % (i * k) == 0 { Divides(|indent|, i, k); }
      assert CountsIn(indent, i * k) ==> CountsIn(indent, i);
    }
  }

  lemma Divides(n: nat, i: nat, k: nat)
    requires i > 0 && k > 0 && i * k > 0 && n % (i * k) == 0
    ensures n % i == 0
  {
    var q := n / (i * k);
    assert n == (i * k) * q;
    assert n == i * (k * q);
    MultipleDivides(i, k * q);
  }

  lemma MultipleDivides(i: nat, m: nat)
    requires i > 0
    ensures (i * m) % i == 0
  {
    var x := i * m;
    var k := m - x / i;
    assert i * k == x % i by {
      assert x == i * (x / i) + x % i;
      assert i * m == i * (x / i) + i * k;
    }
    NoMultiple(i, k);
  }

  lemma NoMultiple(d: nat, k: int)
    requires 0 <= d * k < d
    ensures k == 0
  {
  }

  lemma Multiples(lines: seq<string>)
    ensures Tally(lines, 4) <= Tally(lines, 2) && Tally(lines, 6) <= Tally(lines, 2)
    ensures Tally(lines, 6) <= Tally(lines, 3) && Tally(lines, 8) <= Tally(lines, 4)
  {
    FewerDivisible(lines, 2, 2);
    FewerDivisible(lines, 2, 3);
    FewerDivisible(lines, 3, 2);
    FewerDivisible(lines, 4, 2);
  }

  /** Widths 4 and 6 are never elected: every multiple of them also votes for 2. */
  lemma ElectedWidths(lines: seq<string>, c: seq<nat>, w: nat)
    requires Counted(lines, c) && Elected(c, w)
    ensures w in {2, 3, 5, 7, 8}
  {
    Multiples(lines);
    assert c[2] < c[w] || (c[2] == c[w] && (w == 8 || w <= 2));
  }

  /** The sample is the whole document up to 1000 lines, else the 1000 lines in its middle. */
  lemma SampleExactly(lines: seq<string>) returns (before: seq<string>, after: seq<string>)
    ensures lines == before + Sample(lines) + after
    ensures |lines| <= 1000 ==> Sample(lines) == lines
    ensures |lines| > 1000 ==> |Sample(lines)| == 1000 && |before| <= |after| <= |before| + 1
  {
    before, after := lines[..SampleStart(|lines|)], lines[SampleEnd(|lines|)..];
  }

  /** A line votes for 0 when its indent has a tab, for 1 when it is of spaces only, and then
      for each width from 2 on that divides its length. */
  predicate Votes(line: string, i: nat) {
    var indent := Indent(line);
    if '\t' in indent then i == 0
    else |indent| > 0 && (i == 1 || (i >= 2 && |indent| % i == 0))
  }

  function Voters(lines: seq<string>, i: nat): set<nat> { set k: nat | k < |lines| && Votes(lines[k], i) }

  lemma VotersSplit(lines: seq<string>, i: nat)
    requires lines != []
    ensures var m := |lines| - 1;
      |Voters(lines, i)| == |Voters(lines[..m], i)| + if Votes(lines[m], i) then 1 else 0
  {
    hide Votes;
    var m := |lines| - 1;
    assert Voters(lines, i) == Voters(lines[..m], i) + if Votes(lines[m], i) then {m} else {};
  }

  lemma VotesCount(line: string, i: nat)
    ensures CountsIn(Indent(line), i) == Votes(line, i)
  {
    hide Indent;
  }

  /** The counters are the numbers of lines that vote. */
  lemma {:induction false} TallyExactly(lines: seq<string>, i: nat)
    ensures Tally(lines, i) == |Voters(lines, i)|
  {
    hide Voters, Votes, CountsIn, Indent;
    if lines != [] {
      TallyExactly(lines[..|lines| - 1], i);
      VotersSplit(lines, i);
      VotesCount(lines[|lines| - 1], i);
    } else {
      NoVoters(i);
    }
  }

  lemma NoVoters(i: nat)
    ensures Voters([], i) == {}
  {
  }

  /** Which width is elected: of equal votes 8 goes first and then the smallest. */
  lemma WhoLeads(lines: seq<string>, c: seq<nat>, w: nat)
    requires Counted(lines, c) && Elected(c, w)
    ensures c[4] <= c[2] && c[6] <= c[2] && c[6] <= c[3] && c[8] <= c[4]
    ensures w == 8 <==> c[8] >= c[2] && c[8] >= c[3] && c[8] >= c[5] && c[8] >= c[7]
    ensures w == 2 <==> c[2] > c[8] && c[2] >= c[3] && c[2] >= c[5] && c[2] >= c[7]
    ensures w == 3 <==> c[3] > c[8] && c[3] > c[2] && c[3] >= c[5] && c[3] >= c[7]
    ensures w == 5 <==> c[5] > c[8] && c[5] > c[2] && c[5] > c[3] && c[5] >= c[7]
    ensures w == 7 <==> c[7] > c[8] && c[7] > c[2] && c[7] > c[3] && c[7] > c[5]
  {
    Multiples(lines);
    ElectedWidths(lines, c, w);
    assert forall i :: 2 <= i <= 8 ==> c[i] <= c[w];
  }

  // The conditions on the nine counters that decide about the style.

  predicate Tabs(c: seq<nat>)
    requires |c| == 9
  {
    (c[0] > 0 && c[1] == 0) || (c[0] + c[1] >= 10 && 4 * c[0] > 3 * (c[0] + c[1]))
  }

  predicate MostlySpaces(c: seq<nat>)
    requires |c| == 9
  {
    c[0] + c[1] >= 10 && 4 * c[1] >= 3 * (c[0] + c[1])
  }

  predicate Lead2(c: seq<nat>)
    requires |c| == 9
  {
    c[2] > c[8] && c[2] >= c[3] && c[2] >= c[5] && c[2] >= c[7] && 100 * c[2] >= 65 * c[1]
  }

  predicate Lead3(c: seq<nat>)
    requires |c| == 9
  {
    c[3] > c[8] && c[3] > c[2] && c[3] >= c[5] && c[3] >= c[7] && 100 * c[3] >= 65 * c[1]
  }

  predicate Lead5(c: seq<nat>)
    requires |c| == 9
  {
    c[5] > c[8] && c[5] > c[2] && c[5] > c[3] && c[5] >= c[7] && 100 * c[5] >= 70 * c[1]
  }

  predicate Lead7(c: seq<nat>)
    requires |c| == 9
  {
    c[7] > c[8] && c[7] > c[2] && c[7] > c[3] && c[7] > c[5] && 100 * c[7] >= 70 * c[1]
  }

  predicate Lead8(c: seq<nat>)
    requires |c| == 9
  {
    c[8] >= c[2] && c[8] >= c[3] && c[8] >= c[5] && c[8] >= c[7] && 100 * c[8] >= 65 * c[1]
  }

  /** Width 2 leads by less than a tenth of the votes over 6. */
  predicate MostlySix(c: seq<nat>)
    requires |c| == 9
  {
    10 * c[2] < c[1] + 10 * c[6]
  }

  /** The multiple has half of the votes and at least five ninths of those of the width. */
  predicate Stands(c: seq<nat>, multiple: nat, width: nat)
    requires |c| == 9 && multiple < 9 && width < 9
  {
    10 * c[width] <= 18 * c[multiple] && 2 * c[multiple] >= c[1]
  }

  /** The style that belongs to the counters. */
  ghost predicate StyleOf(c: seq<nat>, r: int)
    requires |c| == 9
  {
    && -1 <= r <= 8 && r != 1
    && (r == 0 <==> Tabs(c))
    && (r == 2 <==> MostlySpaces(c) && Lead2(c) && !MostlySix(c) && !Stands(c, 4, 2))
    && (r == 3 <==> MostlySpaces(c) && Lead3(c) && !Stands(c, 6, 3))
    && (r == 4 <==> MostlySpaces(c) && Lead2(c) && !MostlySix(c) && Stands(c, 4, 2) && !Stands(c, 8, 4))
    && (r == 5 <==> MostlySpaces(c) && Lead5(c))
    && (r == 6 <==> MostlySpaces(c) && ((Lead2(c) && MostlySix(c))
                                        || (Lead3(c) && Stands(c, 6, 3) && 10 * c[6] >= 6 * c[1])))
    && (r == 7 <==> MostlySpaces(c) && Lead7(c))
    && (r == 8 <==> MostlySpaces(c) && (Lead8(c) || (Lead2(c) && !MostlySix(c) && Stands(c, 4, 2) && Stands(c, 8, 4)
                                                     && 10 * c[8] >= 6 * c[1])))
  }

  lemma ChosenStyle(c: seq<nat>, w: nat)
    requires |c| == 9 && w in {2, 3, 5, 7, 8} && Elected(c, w)
    requires c[4] <= c[2] && c[6] <= c[2] && c[6] <= c[3] && c[8] <= c[4]
    requires ByKind(c) == 1
    ensures StyleOf(c, ByWidth(c, w))
  {
    Leader(c, w);
    hide Elected;
    match w
    case 2 => ChosenTwo(c);
    case _ =>
  }

  lemma Leader(c: seq<nat>, w: nat)
    requires |c| == 9 && w in {2, 3, 5, 7, 8} && Elected(c, w)
    ensures Lead2(c) <==> w == 2 && 100 * c[2] >= 65 * c[1]
    ensures Lead3(c) <==> w == 3 && 100 * c[3] >= 65 * c[1]
    ensures Lead5(c) <==> w == 5 && 100 * c[5] >= 70 * c[1]
    ensures Lead7(c) <==> w == 7 && 100 * c[7] >= 70 * c[1]
    ensures Lead8(c) <==> w == 8 && 100 * c[8] >= 65 * c[1]
  {
    assert forall i :: 2 <= i <= 8 ==> c[i] <= c[w];
  }

  lemma ChosenTwo(c: seq<nat>)
    requires |c| == 9 && ByKind(c) == 1 && c[4] <= c[2] && c[6] <= c[2] && c[8] <= c[4]
    requires !Lead3(c) && !Lead5(c) && !Lead7(c) && !Lead8(c) && (Lead2(c) <==> 100 * c[2] >= 65 * c[1])
    ensures StyleOf(c, ByWidth(c, 2))
  {
    hide Lead2, Lead3, Lead5, Lead7, Lead8;
  }

  lemma KindStyle(c: seq<nat>)
    requires |c| == 9 && ByKind(c) != 1
    ensures StyleOf(c, ByKind(c))
  {
    hide Lead2, Lead3, Lead5, Lead7, Lead8, MostlySix, Stands;
  }

  /** The style of every document is the one that belongs to the votes of its sample. */
  lemma StyleExactly(lines: seq<string>, c: seq<nat>, r: int)
    requires Detected(lines, r) && Counted(Sample(lines), c)
    ensures StyleOf(c, r)
  {
    var s := Sample(lines);
    var d, w :| Counted(s, d) && Elected(d, w) && r == if ByKind(d) != 1 then ByKind(d) else ByWidth(d, w);
    assert d == c;
    WhoLeads(s, c, w);
    ElectedWidths(s, c, w);
    hide StyleOf, Tally, Sample, Elected, ByKind, ByWidth;
    if ByKind(c) == 1 { ChosenStyle(c, w); } else { KindStyle(c); }
  }

  /** The percentage of the space indents that a returned width divides, at least. */
  function LeastShare(width: int): nat {
    match width
    case 2 => 65
    case 3 => 65
    case 4 => 50
    case 5 => 70
    case 6 => 55
    case 7 => 70
    case 8 => 60
    case _ => 100
  }

  /** A width that is returned has the support of at least ten indented lines, three quarters
      of them indented with spaces only, and it divides at least its share of those indents,
      which is never less than half. */
  lemma WidthIsSupported(lines: seq<string>, r: int)
    requires Detected(lines, r) && r > 0
    ensures var s := Sample(lines);
      && 2 <= r <= 8
      && Tally(s, 0) + Tally(s, 1) >= 10
      && 4 * Tally(s, 1) >= 3 * (Tally(s, 0) + Tally(s, 1))
      && 100 * Tally(s, r) >= LeastShare(r) * Tally(s, 1)
  {
    var s := Sample(lines);
    var c, w :| Counted(s, c) && Elected(c, w) && r == if ByKind(c) != 1 then ByKind(c) else ByWidth(c, w);
    ElectedWidths(s, c, w);
    OutcomeSupported(c, w, r);
    assert c[0] == Tally(s, 0) && c[1] == Tally(s, 1) && c[r] == Tally(s, r);
  }

  lemma OutcomeSupported(c: seq<nat>, w: nat, r: int)
    requires |c| == 9 && w in {2, 3, 5, 7, 8} && r > 0
    requires r == if ByKind(c) != 1 then ByKind(c) else ByWidth(c, w)
    ensures 2 <= r <= 8 && c[0] + c[1] >= 10 && 4 * c[1] >= 3 * (c[0] + c[1])
    ensures 100 * c[r] >= LeastShare(r) * c[1]
  {
  }

  /** Tabs are returned exactly when no indented line is indented with spaces only and there
      is one with a tab, or more than three quarters of at least ten have tabs. */
  lemma TabsExactly(lines: seq<string>, r: int)
    requires Detected(lines, r)
    ensures var s := Sample(lines); var tabs, spaces := Tally(s, 0), Tally(s, 1);
      r == 0 <==> (tabs > 0 && spaces == 0) || (tabs + spaces >= 10 && 4 * tabs > 3 * (tabs + spaces))
  {
    var s := Sample(lines);
    var c, w :| Counted(s, c) && Elected(c, w) && r == if ByKind(c) != 1 then ByKind(c) else ByWidth(c, w);
    assert c[0] == Tally(s, 0) && c[1] == Tally(s, 1);
    ElectedWidths(s, c, w);
  }

  /** Mostly spaces, and still no width: the elected width has less than 65% (70% for 5 and
      7), or its multiple 6 or 8 has at least half, too many for the smaller width to win, but
      less than 60%, too few to win itself. */
  lemma UnsureExactly(lines: seq<string>, c: seq<nat>, w: nat)
    requires Counted(lines, c) && Elected(c, w) && ByKind(c) == 1
    ensures ByWidth(c, w) == -1
      <==> || Under(c[w], if w == 5 || w == 7 then 70 else 65, c[1])
           || (w == 3 && Between(c[6], c[1]) && 10 * c[3] <= 18 * c[6])
           || (w == 2 && Between(c[8], c[1]) && 10 * c[4] <= 18 * c[8] && 10 * c[2] <= 18 * c[4]
               && !Under(c[2] as int - c[6] as int, 10, c[1]))
  {
    ElectedWidths(lines, c, w);
    Multiples(lines);
    assert c[8] <= c[4];
  }

  predicate Between(n: nat, total: nat) { !Under(n, 50, total) && Under(n, 60, total) }

  lemma {:induction false} UniformTally(lines: seq<string>, w: nat, i: nat)
    requires forall k :: 0 <= k < |lines| ==>
      Indent(lines[k]) == "" || (|Indent(lines[k])| == w && TAB !in Indent(lines[k]))
    ensures Tally(lines, 0) == 0
    ensures i > 0 && w > 0 ==> Tally(lines, i) == if w % i == 0 then Tally(lines, 1) else 0
  {
    if lines != [] { UniformTally(lines[..|lines| - 1], w, i); }
  }

  /** When all the indented lines of the sample, at least ten, are indented with w spaces,
      w from 2 to 8, that is the style. */
  lemma UniformIsDetected(lines: seq<string>, w: nat, r: int)
    requires Detected(lines, r) && 2 <= w <= 8 && Tally(Sample(lines), 1) >= 10
    requires forall s :: s in Sample(lines) ==> Indent(s) == "" || (|Indent(s)| == w && TAB !in Indent(s))
    ensures r == w
  {
    var s := Sample(lines);
    var c, e :| Counted(s, c) && Elected(c, e) && r == if ByKind(c) != 1 then ByKind(c) else ByWidth(c, e);
    forall i | 0 <= i < 9 ensures c[i] == if i > 0 && w % i == 0 then c[1] else 0 {
      UniformTally(s, w, i);
    }
    UniformOutcome(c, w, e);
  }

  lemma UniformOutcome(c: seq<nat>, w: nat, e: nat)
    requires |c| == 9 && 2 <= w <= 8 && Elected(c, e) && c[1] >= 10
    requires forall i :: 0 <= i < 9 ==> c[i] == if i > 0 && w % i == 0 then c[1] else 0
    ensures ByKind(c) == 1 && ByWidth(c, e) == w
  {
    assert c[w] == c[1];
  }
}
