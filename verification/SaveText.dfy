/** What cbEditor::Save does to the text: strip trailing blanks, make line ends consistent,
    make sure the last line is ended. */
module SaveText {
  import opened Lines

  type EolMode = e: Eol | e != NoEol witness LF

  datatype Options = Options(strip: bool, consistent: bool, final: bool, diff: bool, mode: EolMode)

  predicate Blank(c: char) { c == ' ' || c == '\t' }

  predicate Blanks(s: string) { forall i :: 0 <= i < |s| ==> Blank(s[i]) }

  // ------------------------------------------------------------------- on the text

  /** The last position from i down to lineStart that is not blank, or lineStart - 1. */
  function ScanBack(t: string, i: int, lineStart: int): (r: int)
    requires -1 <= i < |t|
    ensures -1 <= r <= i
    decreases i + 1
  {
    if i >= lineStart && Blank(CharAt(t, i)) then ScanBack(t, i - 1, lineStart) else i
  }

  /** The text without the blanks before lineEnd that do not lie before lineStart. */
  function StripBefore(t: string, lineStart: int, lineEnd: nat): string
    requires lineEnd <= |t|
  {
    t[..ScanBack(t, lineEnd - 1, lineStart) + 1] + t[lineEnd..]
  }

  /** One round of the loop. */
  function StripLine(t: string, line: nat, diff: bool): string {
    EndBound(t, line);
    StripBefore(t, PositionFromLine(t, line) + (if diff then 1 else 0), LineEndPosition(t, line))
  }

  lemma EndBound(t: string, line: nat)
    ensures 0 <= LineEndPosition(t, line) <= |t|
  {
    if line < LineCount(t) { Around(t, line); }
  }

  function StripFrom(t: string, line: nat, maxLines: nat, diff: bool): string
    decreases maxLines - line
  {
    if line >= maxLines then t else StripFrom(StripLine(t, line, diff), line + 1, maxLines, diff)
  }

  /** StripTrailingSpaces: the number of lines is read once, before the loop. */
  function Strip(t: string, diff: bool): string {
    StripFrom(t, 0, LineCount(t), diff)
  }

  /** Scintilla's ConvertEOLs. */
  function ConvertEols(t: string, mode: EolMode): string {
    Join(ConvertedLines(LinesOf(t), mode))
  }

  function EnsureFinal(t: string, mode: EolMode): string {
    var maxLines := LineCount(t);
    if maxLines <= 1 || PositionFromLine(t, maxLines) > PositionFromLine(t, maxLines - 1)
    then t + EolText(mode) else t
  }

  function Save(t: string, o: Options): string {
    var t1 := if o.strip then Strip(t, o.diff) else t;
    var t2 := if o.consistent then ConvertEols(t1, o.mode) else t1;
    if o.final then EnsureFinal(t2, o.mode) else t2
  }

  // ------------------------------------------------------------------ on the lines

  /** A body without its trailing blanks, except that the first `keep` characters stay. */
  function TrimBody(s: string, keep: nat): (r: string)
    ensures r <= s && forall i :: |r| <= i < |s| ==> s[i] == ' ' || s[i] == '\t'
    ensures |r| > keep ==> r[|r| - 1] != ' ' && r[|r| - 1] != '\t'
    ensures |s| <= keep ==> r == s
    ensures |s| >= keep ==> |r| >= keep
  {
    if |s| > keep && Blank(s[|s| - 1]) then
      var r := TrimBody(s[..|s| - 1], keep);
      assert s[|r|..] == s[..|s| - 1][|r|..] + [s[|s| - 1]];
      r
    else s
  }

  function Trimmed(l: Line, diff: bool): Line {
    l.(body := TrimBody(l.body, if diff then 1 else 0))
  }

  function StrippedLines(ls: seq<Line>, diff: bool): (r: seq<Line>)
    ensures |r| == |ls| && forall i :: 0 <= i < |ls| ==> r[i] == Trimmed(ls[i], diff)
  {
    seq(|ls|, i requires 0 <= i < |ls| => Trimmed(ls[i], diff))
  }

  function ConvertedLines(ls: seq<Line>, mode: EolMode): (r: seq<Line>)
    ensures |r| == |ls|
    ensures forall i :: 0 <= i < |ls| ==> r[i] == Line(ls[i].body, if ls[i].eol == NoEol then NoEol else mode)
  {
    seq(|ls|, i requires 0 <= i < |ls| => Line(ls[i].body, if ls[i].eol == NoEol then NoEol else mode))
  }

  function FinishedLines(ls: seq<Line>, mode: EolMode): seq<Line>
    requires |ls| > 0
  {
    var n := |ls| - 1;
    if n == 0 || ls[n].body != "" then ls[..n] + [Line(ls[n].body, mode), Line("", NoEol)] else ls
  }

  /** Stripping all of the blanks that are line b would join its LF to the CR of line a. */
  predicate WouldFuse(a: Line, b: Line, diff: bool) {
    !diff && a.eol == CR && b.eol == LF && b.body != "" && Blanks(b.body)
  }

  predicate Safe(ls: seq<Line>, diff: bool) {
    forall i :: 0 < i < |ls| ==> !WouldFuse(ls[i - 1], ls[i], diff)
  }

  // ------------------------------------------------------------ stripping one line

  lemma {:induction false} ScanIsTrim(t: string, p: nat, e: nat, lineStart: nat)
    requires p <= e <= |t| && p <= lineStart <= p + 1
    ensures ScanBack(t, e - 1, lineStart) == p + |TrimBody(t[p..e], lineStart - p)| - 1
    decreases e
  {
    if e - 1 >= lineStart && Blank(t[e - 1]) {
      ScanIsTrim(t, p, e - 1, lineStart);
      Shorter(t, p, e);
    }
  }

  lemma Shorter(t: string, p: nat, e: nat)
    requires p < e <= |t|
    ensures |t[p..e]| == e - p && t[p..e][e - p - 1] == t[e - 1] && t[p..e][..e - p - 1] == t[p..e - 1]
  {
  }

  lemma JoinUpdate(ls: seq<Line>, k: nat, l: Line)
    requires k < |ls|
    ensures Join(ls[k := l]) == Join(ls[..k]) + (l.body + (EolText(l.eol) + Join(ls[k + 1..])))
  {
    SplitAt(ls[k := l], k);
    assert ls[k := l][..k] == ls[..k];
    assert ls[k := l][k + 1..] == ls[k + 1..];
  }

  /** Where line k of the text is. */
  lemma Bounds(t: string, k: nat)
    requires k < LineCount(t)
    ensures 0 <= PositionFromLine(t, k) <= LineEndPosition(t, k) <= |t|
    ensures t[PositionFromLine(t, k)..LineEndPosition(t, k)] == LinesOf(t)[k].body
  {
    Around(t, k);
  }

  lemma {:induction false} StripText(t: string, p: nat, e: nat, lineStart: nat)
    requires p <= e <= |t| && p <= lineStart <= p + 1
    ensures StripBefore(t, lineStart, e) == t[..p + |TrimBody(t[p..e], lineStart - p)|] + t[e..]
  {
    ScanIsTrim(t, p, e, lineStart);
  }

  /** Within the text the loop body trims one line. */
  lemma StripOne(t: string, k: nat, diff: bool)
    requires k < LineCount(t)
    ensures StripLine(t, k, diff) == Join(LinesOf(t)[k := Trimmed(LinesOf(t)[k], diff)])
  {
    hide Join, LinesOf, BodyLength, EolAt, WellFormed, Plain;
    var p, e := PositionFromLine(t, k), LineEndPosition(t, k);
    Bounds(t, k);
    StripText(t, p, e, p + if diff then 1 else 0);
    Replaced(t, k, TrimBody(t[p..e], if diff then 1 else 0), p, e);
  }

  lemma Replaced(t: string, k: nat, b: string, p: nat, e: nat)
    requires k < LineCount(t) && p == PositionFromLine(t, k) && e == LineEndPosition(t, k)
    requires p <= e <= |t| && b <= t[p..e]
    ensures t[..p + |b|] + t[e..] == Join(LinesOf(t)[k := LinesOf(t)[k].(body := b)])
  {
    Around(t, k);
    JoinUpdate(LinesOf(t), k, LinesOf(t)[k].(body := b));
    Cut(t, p, e, b);
  }

  lemma Cut(t: string, p: nat, e: nat, b: string)
    requires p <= e <= |t| && b <= t[p..e]
    ensures t[..p + |b|] + t[e..] == t[..p] + (b + t[e..])
  {
    assert t[..p + |b|] == t[..p] + b;
  }

  lemma LastLine(ls: seq<Line>, l: Line)
    requires WellFormed(ls) && Plain(l.body) && l.eol == NoEol
    ensures var r := ls[|ls| - 1 := l]; WellFormed(r) && Join(r) == Join(ls[..|ls| - 1]) + l.body
  {
    var n := |ls| - 1;
    var r := ls[n := l];
    JoinUpdate(ls, n, l);
    assert ls[n + 1..] == [];
    assert l.body + (EolText(NoEol) + Join([])) == l.body;
    forall i | 0 < i < |r| ensures !Fuses(r[i - 1], r[i]) {
      assert !Fuses(ls[i - 1], ls[i]);
    }
  }

  lemma TrimmedFuses(a: Line, b: Line, diff: bool)
    ensures Fuses(Trimmed(a, diff), Trimmed(b, diff)) <==> WouldFuse(a, b, diff) || Fuses(a, b)
  {
    var r := TrimBody(b.body, if diff then 1 else 0);
    if r == "" { assert b.body[|r|..] == b.body; }
    if r != "" && !diff { assert r[|r| - 1] == b.body[|r| - 1]; }
  }

  lemma TrimmedPlain(l: Line, diff: bool)
    requires Plain(l.body)
    ensures Plain(Trimmed(l, diff).body)
  {
  }

  /** The lines once the CR of line k - 1 and the LF that is line k have become one. */
  function Fused(ls: seq<Line>, k: nat): (r: seq<Line>)
    requires 0 < k < |ls|
    ensures |r| == |ls| - 1
    ensures forall i :: 0 <= i < |r| ==>
      r[i] == if i < k - 1 then ls[i] else if i == k - 1 then Line(ls[k - 1].body, CRLF) else ls[i + 1]
  {
    ls[..k - 1] + [Line(ls[k - 1].body, CRLF)] + ls[k + 1..]
  }

  lemma FusedWellFormed(ls: seq<Line>, k: nat)
    requires 0 < k < |ls| - 1
    requires forall i :: 0 <= i < |ls| ==> Plain(ls[i].body) && (ls[i].eol == NoEol <==> i == |ls| - 1)
    requires forall i :: 0 < i < |ls| && i != k ==> !Fuses(ls[i - 1], ls[i])
    ensures WellFormed(Fused(ls, k))
  {
    var m := Fused(ls, k);
    forall i | 0 < i < |m| ensures !Fuses(m[i - 1], m[i]) {
      if i < k - 1 {
        assert !Fuses(ls[i - 1], ls[i]);
      } else if i > k {
        assert !Fuses(ls[i], ls[i + 1]);
      }
    }
  }

  lemma FusedText(ls: seq<Line>, k: nat, m: seq<Line>)
    requires 0 < k < |ls| && Fuses(ls[k - 1], ls[k])
    requires m == ls[..k - 1] + [Line(ls[k - 1].body, CRLF)] + ls[k + 1..]
    ensures Join(m) == Join(ls)
  {
    hide Join;
    FusedJoin(ls[..k - 1], ls[k - 1], ls[k], ls[k + 1..]);
    assert ls == ls[..k - 1] + [ls[k - 1], ls[k]] + ls[k + 1..];
  }

  lemma FusedJoin(front: seq<Line>, a: Line, b: Line, rest: seq<Line>)
    requires Fuses(a, b)
    ensures Join(front + [Line(a.body, CRLF)] + rest) == Join(front + [a, b] + rest)
  {
    var l := Line(a.body, CRLF);
    JoinTwo(a, b);
    JoinOne(l);
    assert Text(a) + Text(b) == Text(l);
    hide Join, Text;
    JoinAppend(front + [l], rest);
    JoinAppend(front, [l]);
    JoinAppend(front + [a, b], rest);
    JoinAppend(front, [a, b]);
  }

  lemma JoinOne(a: Line)
    ensures Join([a]) == Text(a)
  {
    assert [a][1..] == [];
    assert Join([a]) == Text(a) + Join([]);
  }

  lemma JoinTwo(a: Line, b: Line)
    ensures Join([a, b]) == Text(a) + Text(b)
  {
    JoinOne(b);
    assert [a, b][1..] == [b];
  }

  // ----------------------------------------------------------- converting and finishing

  lemma ConvertLines(t: string, mode: EolMode)
    ensures LinesOf(ConvertEols(t, mode)) == ConvertedLines(LinesOf(t), mode)
  {
    var ls := LinesOf(t);
    hide Join, LinesOf;
    LinesWellFormed(t);
    var r := ConvertedLines(ls, mode);
    forall i | 0 < i < |r| ensures !Fuses(r[i - 1], r[i]) {
      assert r[i - 1].eol == mode;
    }
    LinesJoin(r);
  }

  lemma FinishLines(t: string, mode: EolMode)
    ensures LinesOf(EnsureFinal(t, mode)) == FinishedLines(LinesOf(t), mode)
  {
    hide LinesOf, WellFormed;
    var ls := LinesOf(t);
    var n := |ls| - 1;
    LinesWellFormed(t);
    JoinLines(t);
    LastLine(ls, ls[n]);
    assert ls[n := ls[n]] == ls && ls[..n + 1] == ls;
    if n == 0 || ls[n].body != "" {
      EndedLines(ls, mode);
      LinesJoin(FinishedLines(ls, mode));
    }
  }

  lemma EndedLines(ls: seq<Line>, mode: EolMode)
    requires WellFormed(ls) && (|ls| == 1 || ls[|ls| - 1].body != "")
    ensures WellFormed(FinishedLines(ls, mode))
    ensures Join(FinishedLines(ls, mode)) == Join(ls) + EolText(mode)
  {
    var n := |ls| - 1;
    hide LinesOf, Join, EolText;
    EndedWellFormed(ls, Line(ls[n].body, mode), FinishedLines(ls, mode));
    assert ls[n].eol == NoEol;
    hide WellFormed;
    assert ls == ls[..n] + [ls[n]];
    assert FinishedLines(ls, mode) == ls[..n] + [Line(ls[n].body, mode), Line("", NoEol)];
    hide FinishedLines;
    EndedJoin(ls, ls[..n], ls[n], mode);
  }

  lemma EndedJoin(ls: seq<Line>, front: seq<Line>, last: Line, mode: EolMode)
    requires ls == front + [last] && last.eol == NoEol
    ensures Join(front + [Line(last.body, mode), Line("", NoEol)]) == Join(ls) + EolText(mode)
  {
    EndedText(front, last, mode);
  }

  lemma EndedWellFormed(ls: seq<Line>, l: Line, r: seq<Line>)
    requires WellFormed(ls) && (|ls| == 1 || ls[|ls| - 1].body != "")
    requires l.body == ls[|ls| - 1].body && l.eol != NoEol
    requires r == ls[..|ls| - 1] + [l, Line("", NoEol)]
    ensures WellFormed(r)
  {
    var n := |ls| - 1;
    assert forall i :: 0 <= i < n ==> r[i] == ls[i];
    assert r[n] == l && r[n + 1] == Line("", NoEol);
    forall i | 0 < i < |r| ensures !Fuses(r[i - 1], r[i]) {
      if i < n { assert !Fuses(ls[i - 1], ls[i]); }
    }
  }

  lemma EndedText(ls: seq<Line>, l: Line, mode: EolMode)
    requires l.eol == NoEol
    ensures Join(ls + [Line(l.body, mode), Line("", NoEol)]) == Join(ls + [l]) + EolText(mode)
  {
    var last := [Line(l.body, mode), Line("", NoEol)];
    JoinAppend(ls, last);
    JoinAppend(ls, [l]);
    JoinTwo(Line(l.body, mode), Line("", NoEol));
    assert [l][1..] == [];
    assert Join([l]) == l.body;
    assert Join(last) == l.body + EolText(mode);
  }

  /** Where the second line starts. */
  function SecondLine(t: string): (m: nat)
    requires BodyLength(t) < |t|
    ensures 0 < m <= |t|
  {
    BodyLength(t) + |EolText(EolAt(t, BodyLength(t)))|
  }

  lemma LinesAfterFirst(t: string)
    requires BodyLength(t) < |t|
    ensures LinesOf(t)[1..] == LinesOf(t[SecondLine(t)..])
  {
  }

  lemma EndAfterFirst(t: string)
    requires BodyLength(t) < |t|
    ensures !Plain(t)
    ensures SecondLine(t) == |t| ==> IsEol(t[|t| - 1])
    ensures SecondLine(t) < |t| ==> t[SecondLine(t)..][|t| - SecondLine(t) - 1] == t[|t| - 1]
  {
    assert IsEol(t[BodyLength(t)]);
  }

  /** What follows the first line end, and how the text ends. */
  lemma AfterFirstLine(t: string) returns (l: Line, rest: string)
    requires BodyLength(t) < |t|
    ensures LinesOf(t) == [l] + LinesOf(rest) && |rest| < |t| && !Plain(t)
    ensures if rest == "" then IsEol(t[|t| - 1]) else t[|t| - 1] == rest[|rest| - 1]
  {
    hide LinesOf, Plain, BodyLength, SecondLine;
    l, rest := LinesOf(t)[0], t[SecondLine(t)..];
    LinesAfterFirst(t);
    EndAfterFirst(t);
  }

  lemma {:induction false} LastBody(t: string)
    ensures var ls := LinesOf(t);
      && (|ls| == 1 <==> Plain(t))
      && (|ls| > 1 ==> t != "" && (ls[|ls| - 1].body == "" <==> IsEol(t[|t| - 1])))
    decreases |t|
  {
    if BodyLength(t) < |t| {
      var l, rest := AfterFirstLine(t);
      LastBody(rest);
      if Plain(rest) { PlainLine(rest); }
      assert rest != "" && Plain(rest) ==> !IsEol(rest[|rest| - 1]);
      hide LinesOf, Plain, BodyLength;
    } else {
      assert t[..|t|] == t;
    }
  }

  lemma PlainLine(t: string)
    requires Plain(t)
    ensures LinesOf(t) == [Line(t, NoEol)]
  {
    BodyLengthIs(t, "");
    assert t + "" == t;
  }

  /** A text gets a final line end exactly when it does not end in CR or LF. */
  lemma FinalExactly(t: string, mode: EolMode)
    ensures EnsureFinal(t, mode) == if t != "" && (t[|t| - 1] == '\r' || t[|t| - 1] == '\n') then t
                                    else t + if mode == LF then "\n" else if mode == CR then "\r" else "\r\n"
  {
    var ls := LinesOf(t);
    LastBody(t);
    EndsPlain(t);
    LinesWellFormed(t);
    JoinLines(t);
    hide LinesOf, Plain;
    LastStarts(ls);
    assert ls == ls[..|ls|];
  }

  lemma EndsPlain(t: string)
    ensures Plain(t) && t != "" ==> !IsEol(t[|t| - 1])
  {
  }

  lemma LastStarts(ls: seq<Line>)
    requires WellFormed(ls)
    ensures |Join(ls)| == |Join(ls[..|ls| - 1])| + |ls[|ls| - 1].body|
  {
    var n := |ls| - 1;
    LastLine(ls, ls[n]);
    assert ls[n := ls[n]] == ls;
  }

  /** A trimmed line keeps its end and loses the spaces and tabs at the end of its body; in
      diff mode the first character stays whatever it is. */
  lemma TrimmedExactly(l: Line, diff: bool)
    ensures var b := Trimmed(l, diff).body;
      && Trimmed(l, diff).eol == l.eol
      && b <= l.body && (forall i :: |b| <= i < |l.body| ==> l.body[i] == ' ' || l.body[i] == '\t')
      && (|b| > 1 || (|b| == 1 && !diff) ==> b[|b| - 1] != ' ' && b[|b| - 1] != '\t')
      && (diff && l.body != "" ==> b != "")
  {
  }
}
