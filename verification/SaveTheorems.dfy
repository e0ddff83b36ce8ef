/** What a whole save does to the lines of any text, and when a second save changes
    nothing. */
module SaveTheorems {
  import opened Lines
  import opened SaveText

  // ------------------------------------------------------ the strip loop, line by line

  /** `done` with a CR at its end that has taken up an LF. */
  function TakeLf(done: seq<Line>): seq<Line>
    requires done != []
  {
    done[..|done| - 1] + [Line(done[|done| - 1].body, CRLF)]
  }

  /** The loop has reached line j of ls and left the lines `done` behind. When line j is
      blanks ended by LF after a CR, its LF joins that CR, and the line after it moves to
      where line j was, behind the loop. */
  function Walk(ls: seq<Line>, j: nat, done: seq<Line>, diff: bool): seq<Line>
    requires j <= |ls|
    decreases |ls| - j
  {
    if j == |ls| then done
    else if done != [] && j > 0 && WouldFuse(ls[j - 1], ls[j], diff) then
      if j + 1 == |ls| then TakeLf(done) else Walk(ls, j + 2, TakeLf(done) + [ls[j + 1]], diff)
    else Walk(ls, j + 1, done + [Trimmed(ls[j], diff)], diff)
  }

  /** How often lines fuse, from line j on. */
  function Fusions(ls: seq<Line>, j: nat, diff: bool): nat
    decreases |ls| - j
  {
    if j >= |ls| then 0
    else (if j > 0 && WouldFuse(ls[j - 1], ls[j], diff) then 1 else 0) + Fusions(ls, j + 1, diff)
  }

  /** When m lines have been lost, m rounds are left over at the end of the text. All but
      the first of them trim its last line. */
  function LeftOver(ls: seq<Line>, m: nat): seq<Line> {
    if m < 2 || ls == [] then ls else ls[|ls| - 1 := Trimmed(ls[|ls| - 1], false)]
  }

  /** What stripping leaves of the lines of a text. */
  function StripResult(ls: seq<Line>, diff: bool): seq<Line> {
    LeftOver(Walk(ls, 0, [], diff), Fusions(ls, 0, diff))
  }

  /** What is behind the loop fits to what is ahead of it. */
  ghost predicate Reached(ls: seq<Line>, j: nat, done: seq<Line>) {
    && j <= |ls| && WellFormed(ls) && WellFormed(done + ls[j..])
    && (j == 0 <==> done == [])
    && (j > 0 ==> done[|done| - 1].eol == ls[j - 1].eol)
  }

  lemma WellFormedUpdate(ls: seq<Line>, k: nat, l: Line)
    requires WellFormed(ls) && k < |ls| && Plain(l.body) && l.eol == ls[k].eol
    requires k > 0 ==> !Fuses(ls[k - 1], l)
    ensures WellFormed(ls[k := l])
  {
    var r := ls[k := l];
    forall i | 0 < i < |r| ensures !Fuses(r[i - 1], r[i]) {
      assert !Fuses(ls[i - 1], ls[i]);
    }
  }

  lemma AtFront(done: seq<Line>, ls: seq<Line>, j: nat, l: Line)
    requires j < |ls|
    ensures (done + ls[j..])[|done|] == ls[j]
    ensures (done + ls[j..])[|done| := l] == (done + [l]) + ls[j + 1..]
  {
  }

  lemma FusesAhead(ls: seq<Line>, j: nat, done: seq<Line>, diff: bool)
    requires Reached(ls, j, done) && 0 < j < |ls|
    ensures Fuses(done[|done| - 1], Trimmed(ls[j], diff)) <==> WouldFuse(ls[j - 1], ls[j], diff)
  {
    TrimmedFuses(ls[j - 1], ls[j], diff);
    assert !Fuses(ls[j - 1], ls[j]);
  }

  lemma PlainAhead(ls: seq<Line>, j: nat, done: seq<Line>, diff: bool)
    requires Reached(ls, j, done) && j < |ls| && (j > 0 ==> !WouldFuse(ls[j - 1], ls[j], diff))
    ensures WellFormed((done + [Trimmed(ls[j], diff)]) + ls[j + 1..])
  {
    var now, l := done + ls[j..], Trimmed(ls[j], diff);
    TrimmedPlain(ls[j], diff);
    AtFront(done, ls, j, l);
    if j > 0 {
      FusesAhead(ls, j, done, diff);
      assert now[|done| - 1] == done[|done| - 1];
    }
    WellFormedUpdate(now, |done|, l);
  }

  lemma PlainStep(ls: seq<Line>, j: nat, done: seq<Line>, diff: bool)
    requires Reached(ls, j, done) && j < |ls| && (j > 0 ==> !WouldFuse(ls[j - 1], ls[j], diff))
    ensures var next := done + [Trimmed(ls[j], diff)];
      Reached(ls, j + 1, next) && StripLine(Join(done + ls[j..]), |done|, diff) == Join(next + ls[j + 1..])
  {
    hide Join, LinesOf, WellFormed, TrimBody, WouldFuse, StripLine;
    var now, l := done + ls[j..], Trimmed(ls[j], diff);
    PlainAhead(ls, j, done, diff);
    AtFront(done, ls, j, l);
    LinesJoin(now);
    StripOne(Join(now), |done|, diff);
  }

  lemma FusedAhead(done: seq<Line>, ls: seq<Line>, j: nat)
    requires done != [] && j + 1 < |ls|
    ensures Fused((done + [Line("", LF)]) + ls[j + 1..], |done|) == (TakeLf(done) + [ls[j + 1]]) + ls[j + 2..]
  {
  }

  lemma FuseStep(ls: seq<Line>, j: nat, done: seq<Line>, diff: bool)
    requires Reached(ls, j, done) && 0 < j < |ls| && WouldFuse(ls[j - 1], ls[j], diff)
    ensures j + 1 < |ls|
    ensures var next := TakeLf(done) + [ls[j + 1]];
      Reached(ls, j + 2, next) && StripLine(Join(done + ls[j..]), |done|, diff) == Join(next + ls[j + 2..])
  {
    var now, k := done + ls[j..], |done|;
    FusesAhead(ls, j, done, diff);
    assert Trimmed(ls[j], diff) == Line("", LF);
    assert j + 1 < |ls|;
    AtFront(done, ls, j, Line("", LF));
    var cut := now[k := Line("", LF)];
    FusedAhead(done, ls, j);
    CutFuses(now, k);
    FusedWellFormed(cut, k);
    hide Join, LinesOf, WellFormed, TrimBody;
    LinesJoin(now);
    StripOne(Join(now), k, diff);
    FusedText(cut, k, Fused(cut, k));
  }

  lemma CutFuses(ls: seq<Line>, k: nat)
    requires WellFormed(ls) && 0 < k < |ls| - 1 && ls[k].eol == LF && ls[k - 1].eol == CR
    ensures var r := ls[k := Line("", LF)];
      && Fuses(r[k - 1], r[k])
      && (forall i :: 0 <= i < |r| ==> Plain(r[i].body) && (r[i].eol == NoEol <==> i == |r| - 1))
      && forall i :: 0 < i < |r| && i != k ==> !Fuses(r[i - 1], r[i])
  {
    var r := ls[k := Line("", LF)];
    forall i | 0 < i < |r| && i != k ensures !Fuses(r[i - 1], r[i]) {
      assert !Fuses(ls[i - 1], ls[i]);
    }
  }

  // ------------------------------------------------------------- rounds past the end

  lemma {:induction false} ScanToLine(t: string, i: int, lineStart: int, p: nat)
    requires -1 <= i < |t| && lineStart <= p <= i + 1 && (p > 0 ==> !Blank(t[p - 1]))
    ensures ScanBack(t, i, lineStart) == ScanBack(t, i, p)
    decreases i + 1
  {
    if i >= p && Blank(t[i]) { ScanToLine(t, i - 1, lineStart, p); }
  }

  lemma {:induction false} EndsInEol(ls: seq<Line>)
    requires ls != [] && forall i :: 0 <= i < |ls| ==> ls[i].eol != NoEol
    ensures Join(ls) != "" && IsEol(Join(ls)[|Join(ls)| - 1])
  {
    if |ls| > 1 { EndsInEol(ls[1..]); } else { assert Join(ls[1..]) == ""; }
  }

  lemma TrimEnd(t: string, p: nat)
    requires p <= |t| && (p > 0 ==> !Blank(t[p - 1]))
    ensures StripBefore(t, -1, |t|) == t[..p] + TrimBody(t[p..], 0)
  {
    hide TrimBody;
    ScanToLine(t, |t| - 1, -1, p);
    ScanIsTrim(t, p, |t|, p);
    assert t[p..|t|] == t[p..];
    var b := TrimBody(t[p..], 0);
    hide ScanBack;
    assert StripBefore(t, -1, |t|) == t[..p + |b|] + t[|t|..];
    hide StripBefore;
    Cut(t, p, |t|, b);
    assert b + t[|t|..] == b;
  }

  lemma LastSplit(ls: seq<Line>) returns (front: string, body: string)
    requires WellFormed(ls)
    ensures Join(ls) == front + body && Join(LeftOver(ls, 2)) == front + TrimBody(body, 0)
    ensures front != "" ==> IsEol(front[|front| - 1])
  {
    var n := |ls| - 1;
    front, body := Join(ls[..n]), ls[n].body;
    if n > 0 { EndsInEol(ls[..n]); }
    TrimmedPlain(ls[n], false);
    assert ls[n].eol == NoEol;
    hide Join, TrimBody;
    LastLine(ls, ls[n]);
    assert ls[n := ls[n]] == ls;
    LastLine(ls, Trimmed(ls[n], false));
  }

  lemma StripPast(ls: seq<Line>, k: nat)
    requires WellFormed(ls) && k > |ls|
    ensures StripLine(Join(ls), k, false) == Join(LeftOver(ls, 2))
  {
    hide Join, LinesOf, WellFormed, LeftOver, TrimBody, StripLine;
    var front, body := LastSplit(ls);
    LinesJoin(ls);
    PastText(Join(ls), k, front, body);
  }

  lemma PastText(t: string, k: nat, front: string, body: string)
    requires k > LineCount(t) && t == front + body && (front != "" ==> IsEol(front[|front| - 1]))
    ensures StripLine(t, k, false) == front + TrimBody(body, 0)
  {
    hide LinesOf, Join;
    TrimEnd(t, |front|);
    assert t[|front|..] == body && t[..|front|] == front;
  }

  lemma StripAtEnd(t: string, diff: bool)
    ensures StripLine(t, LineCount(t), diff) == t
  {
    hide LinesOf, Join;
    JoinLines(t);
    assert LinesOf(t)[..LineCount(t)] == LinesOf(t);
  }

  lemma LeftOverWellFormed(ls: seq<Line>, m: nat)
    requires WellFormed(ls)
    ensures WellFormed(LeftOver(ls, m))
  {
    var n := |ls| - 1;
    TrimmedPlain(ls[n], false);
    LastLine(ls, Trimmed(ls[n], false));
  }

  lemma LeftOverTwice(ls: seq<Line>)
    requires ls != []
    ensures LeftOver(LeftOver(ls, 2), 2) == LeftOver(ls, 2) && |LeftOver(ls, 2)| == |ls|
  {
    TrimTwice(ls[|ls| - 1].body, 0);
  }

  lemma NextRound(t: string, line: nat, maxLines: nat, diff: bool)
    ensures StripFrom(t, line, maxLines, diff)
      == if line < maxLines then StripFrom(StripLine(t, line, diff), line + 1, maxLines, diff) else t
  {
  }

  /** The rounds from k to maxLines, all past the end. */
  lemma {:induction false} RoundsPast(ls: seq<Line>, k: nat, maxLines: nat)
    requires WellFormed(ls) && ls != [] && |ls| < k
    ensures StripFrom(Join(ls), k, maxLines, false) == Join(if k < maxLines then LeftOver(ls, 2) else ls)
    decreases maxLines - k
  {
    hide Join, WellFormed, StripLine, StripFrom, LeftOver;
    NextRound(Join(ls), k, maxLines, false);
    if k < maxLines {
      StripPast(ls, k);
      LeftOverWellFormed(ls, 2);
      LeftOverTwice(ls);
      RoundsPast(LeftOver(ls, 2), k + 1, maxLines);
    }
  }

  lemma AtEnd(ls: seq<Line>)
    requires WellFormed(ls)
    ensures StripLine(Join(ls), |ls|, false) == Join(ls)
  {
    LinesJoin(ls);
    StripAtEnd(Join(ls), false);
  }

  lemma LeftOverOf(ls: seq<Line>, m: nat)
    ensures LeftOver(ls, m) == if m < 2 then ls else LeftOver(ls, 2)
  {
  }

  lemma RoundsLeft(ls: seq<Line>, m: nat, diff: bool)
    requires WellFormed(ls) && (diff ==> m == 0)
    ensures StripFrom(Join(ls), |ls|, |ls| + m, diff) == Join(LeftOver(ls, m))
  {
    assert ls != [];
    LeftOverOf(ls, m);
    NextRound(Join(ls), |ls|, |ls| + m, diff);
    if m > 0 { SomeRoundsLeft(ls, m); }
  }

  lemma SomeRoundsLeft(ls: seq<Line>, m: nat)
    requires WellFormed(ls) && ls != [] && m > 0
    ensures StripFrom(Join(ls), |ls|, |ls| + m, false) == Join(LeftOver(ls, m))
  {
    hide *;
    calc {
      StripFrom(Join(ls), |ls|, |ls| + m, false);
    ==  { NextRound(Join(ls), |ls|, |ls| + m, false); AtEnd(ls); }
      StripFrom(Join(ls), |ls| + 1, |ls| + m, false);
    ==  { RoundsPast(ls, |ls| + 1, |ls| + m); }
      Join(if m > 1 then LeftOver(ls, 2) else ls);
    ==  { LeftOverOf(ls, m); }
      Join(LeftOver(ls, m));
    }
  }

  // ------------------------------------------------------------------ the whole loop

  lemma {:induction false} NoFusionsInDiff(ls: seq<Line>, j: nat)
    ensures Fusions(ls, j, true) == 0
    decreases |ls| - j
  {
    if j < |ls| { NoFusionsInDiff(ls, j + 1); }
  }

  lemma WalkEnd(ls: seq<Line>, done: seq<Line>, diff: bool)
    ensures Walk(ls, |ls|, done, diff) == done && Fusions(ls, |ls|, diff) == 0
  {
  }

  lemma WalkPlain(ls: seq<Line>, j: nat, done: seq<Line>, diff: bool)
    requires j < |ls| && (j > 0 ==> !WouldFuse(ls[j - 1], ls[j], diff))
    ensures Walk(ls, j, done, diff) == Walk(ls, j + 1, done + [Trimmed(ls[j], diff)], diff)
    ensures Fusions(ls, j, diff) == Fusions(ls, j + 1, diff)
  {
  }

  lemma WalkFused(ls: seq<Line>, j: nat, done: seq<Line>, diff: bool)
    requires 0 < j < |ls| - 1 && done != [] && WouldFuse(ls[j - 1], ls[j], diff)
    ensures Walk(ls, j, done, diff) == Walk(ls, j + 2, TakeLf(done) + [ls[j + 1]], diff)
  {
  }

  /** The loop from line j on, after m fusions. */
  lemma {:induction false} Walked(ls: seq<Line>, j: nat, done: seq<Line>, m: nat, diff: bool)
    requires Reached(ls, j, done) && (diff ==> m == 0)
    ensures var r := Walk(ls, j, done, diff);
      && WellFormed(r) && |r| == |done| + |ls| - j - Fusions(ls, j, diff)
      && StripFrom(Join(done + ls[j..]), |done|, |done| + |ls| - j + m, diff)
          == Join(LeftOver(r, m + Fusions(ls, j, diff)))
    decreases |ls| - j
  {
    hide Join, WellFormed, StripLine, StripFrom, WouldFuse, Trimmed, LeftOver, Walk, Fusions;
    var t, k := Join(done + ls[j..]), |done|;
    var maxLines := k + |ls| - j + m;
    if j == |ls| {
      assert done + ls[j..] == done;
      WalkEnd(ls, done, diff);
      RoundsLeft(done, m, diff);
    } else if j > 0 && WouldFuse(ls[j - 1], ls[j], diff) {
      FuseStep(ls, j, done, diff);
      NotTwice(ls, j, diff);
      WalkFused(ls, j, done, diff);
      NextRound(t, k, maxLines, diff);
      Walked(ls, j + 2, TakeLf(done) + [ls[j + 1]], m + 1, diff);
    } else {
      PlainStep(ls, j, done, diff);
      WalkPlain(ls, j, done, diff);
      NextRound(t, k, maxLines, diff);
      Walked(ls, j + 1, done + [Trimmed(ls[j], diff)], m, diff);
    }
  }

  lemma NotTwice(ls: seq<Line>, j: nat, diff: bool)
    requires 0 < j < |ls| - 1 && WouldFuse(ls[j - 1], ls[j], diff)
    ensures !diff && !WouldFuse(ls[j], ls[j + 1], diff)
    ensures Fusions(ls, j, diff) == 1 + Fusions(ls, j + 2, diff)
  {
  }

  /** What stripping leaves of any text, line by line. */
  lemma StripExactly(t: string, diff: bool)
    ensures LinesOf(Strip(t, diff)) == StripResult(LinesOf(t), diff)
    ensures LineCount(Strip(t, diff)) == LineCount(t) - Fusions(LinesOf(t), 0, diff)
  {
    var ls := LinesOf(t);
    LinesWellFormed(t);
    JoinLines(t);
    assert [] + ls[0..] == ls;
    Walked(ls, 0, [], 0, diff);
    hide Join, LinesOf, WellFormed;
    LeftOverWellFormed(Walk(ls, 0, [], diff), Fusions(ls, 0, diff));
    LinesJoin(StripResult(ls, diff));
  }

  lemma {:induction false} SafeFusions(ls: seq<Line>, j: nat, diff: bool)
    ensures Fusions(ls, j, diff) == 0 <==> forall i :: j <= i && 0 < i < |ls| ==> !WouldFuse(ls[i - 1], ls[i], diff)
    decreases |ls| - j
  {
    if j < |ls| { SafeFusions(ls, j + 1, diff); }
  }

  lemma {:induction false} SafeWalk(ls: seq<Line>, j: nat, done: seq<Line>, diff: bool)
    requires j <= |ls| && Safe(ls, diff) && done == StrippedLines(ls, diff)[..j]
    ensures Walk(ls, j, done, diff) == StrippedLines(ls, diff)
    decreases |ls| - j
  {
    if j < |ls| { SafeWalk(ls, j + 1, done + [Trimmed(ls[j], diff)], diff); }
  }

  /** Stripping keeps the number of lines exactly when no line of nothing but blanks, ended
      by LF, follows a line ended by CR; and then it trims each line and nothing else. */
  lemma StripKeepsLines(t: string, diff: bool)
    ensures LineCount(Strip(t, diff)) == LineCount(t) <==> Safe(LinesOf(t), diff)
    ensures Safe(LinesOf(t), diff) ==> LinesOf(Strip(t, diff)) == StrippedLines(LinesOf(t), diff)
  {
    hide LinesOf;
    var ls := LinesOf(t);
    StripExactly(t, diff);
    SafeFusions(ls, 0, diff);
    if Safe(ls, diff) { SafeWalk(ls, 0, [], diff); }
  }

  /** With one style of line ends, and always in diff mode, no lines fuse. */
  lemma OneStyleIsSafe(ls: seq<Line>, diff: bool, style: EolMode)
    requires WellFormed(ls)
    requires diff || forall i :: 0 <= i < |ls| - 1 ==> ls[i].eol == style
    ensures Safe(ls, diff)
  {
    if !diff {
      forall i | 0 < i < |ls| ensures !WouldFuse(ls[i - 1], ls[i], diff) {
        if i < |ls| - 1 { assert ls[i].eol == ls[i - 1].eol; }
      }
    }
  }

  lemma TrimTwice(s: string, keep: nat)
    ensures TrimBody(TrimBody(s, keep), keep) == TrimBody(s, keep)
  {
  }

  predicate AllTrimmed(ls: seq<Line>, diff: bool) {
    forall i :: 0 <= i < |ls| ==> Trimmed(ls[i], diff) == ls[i]
  }

  predicate AllInMode(ls: seq<Line>, mode: EolMode) {
    forall i :: 0 <= i < |ls| ==> ls[i].eol == NoEol || ls[i].eol == mode
  }

  predicate Ended(ls: seq<Line>) { |ls| > 1 && ls[|ls| - 1].body == "" }

  lemma ConvertedInMode(ls: seq<Line>, mode: EolMode)
    ensures AllInMode(ConvertedLines(ls, mode), mode)
  {
  }

  lemma FinishedInMode(ls: seq<Line>, mode: EolMode)
    requires ls != []
    ensures AllInMode(ls, mode) ==> AllInMode(FinishedLines(ls, mode), mode)
    ensures Ended(FinishedLines(ls, mode))
  {
    var n, r := |ls| - 1, FinishedLines(ls, mode);
    assert forall i :: 0 <= i < n ==> r[i] == ls[i];
  }

  // --------------------------------------------------------------- which blanks stay

  /** Line i fuses with the one before, and the line after it, which the loop passes over,
      ends in blanks. */
  predicate PassedOver(ls: seq<Line>, i: nat, diff: bool) {
    0 < i && i + 1 < |ls| && WouldFuse(ls[i - 1], ls[i], diff) && Trimmed(ls[i + 1], diff) != ls[i + 1]
  }

  /** All lines, or all but the last. */
  function Part(ls: seq<Line>, all: bool): seq<Line> {
    if all || ls == [] then ls else ls[..|ls| - 1]
  }

  /** No blanks are passed over from line j on, or only those of the last line. */
  ghost predicate NonePassed(ls: seq<Line>, j: nat, all: bool, diff: bool) {
    forall i: nat :: j <= i && (all || i + 2 < |ls|) ==> !PassedOver(ls, i, diff)
  }

  lemma TrimmedTwice(l: Line, diff: bool)
    ensures Trimmed(Trimmed(l, diff), diff) == Trimmed(l, diff)
  {
    TrimTwice(l.body, if diff then 1 else 0);
  }

  lemma TrimmedAppend(a: seq<Line>, l: Line, diff: bool)
    ensures AllTrimmed(a + [l], diff) <==> AllTrimmed(a, diff) && Trimmed(l, diff) == l
  {
    assert (a + [l])[|a|] == l;
    assert forall i :: 0 <= i < |a| ==> (a + [l])[i] == a[i];
  }

  lemma TakeLfTrimmed(done: seq<Line>, diff: bool)
    requires done != []
    ensures AllTrimmed(TakeLf(done), diff) <==> AllTrimmed(done, diff)
  {
    var n := |done| - 1;
    assert done == done[..n] + [done[n]];
    TrimmedAppend(done[..n], done[n], diff);
    TrimmedAppend(done[..n], Line(done[n].body, CRLF), diff);
  }

  lemma {:induction false} WalkTrimmed(ls: seq<Line>, j: nat, done: seq<Line>, diff: bool, all: bool)
    requires WellFormed(ls) && j <= |ls| && (j > 0 ==> done != [])
    ensures AllTrimmed(Part(Walk(ls, j, done, diff), all), diff)
      <==> AllTrimmed(if j < |ls| then done else Part(done, all), diff) && NonePassed(ls, j, all, diff)
    decreases |ls| - j
  {
    hide WellFormed, AllTrimmed, Trimmed, WouldFuse;
    if j < |ls| {
      if j > 0 && WouldFuse(ls[j - 1], ls[j], diff) {
        FuseInside(ls, j, diff);
        var next := TakeLf(done) + [ls[j + 1]];
        WalkTrimmed(ls, j + 2, next, diff, all);
        TakeLfTrimmed(done, diff);
        TrimmedAppend(TakeLf(done), ls[j + 1], diff);
        assert Part(next, false) == TakeLf(done);
        assert NonePassed(ls, j, all, diff) <==>
          NonePassed(ls, j + 2, all, diff) && (all || j + 2 < |ls| ==> !PassedOver(ls, j, diff));
      } else {
        var next := done + [Trimmed(ls[j], diff)];
        WalkTrimmed(ls, j + 1, next, diff, all);
        TrimmedTwice(ls[j], diff);
        TrimmedAppend(done, Trimmed(ls[j], diff), diff);
        assert Part(next, false) == done;
        assert NonePassed(ls, j, all, diff) <==> NonePassed(ls, j + 1, all, diff);
      }
    }
  }

  lemma FuseInside(ls: seq<Line>, j: nat, diff: bool)
    requires WellFormed(ls) && 0 < j < |ls| && WouldFuse(ls[j - 1], ls[j], diff)
    ensures j + 1 < |ls| && !WouldFuse(ls[j], ls[j + 1], diff)
  {
  }

  /** The blanks that a first strip leaves for a second one. */
  ghost predicate NothingLeft(ls: seq<Line>, diff: bool) {
    NonePassed(ls, 0, Fusions(ls, 0, diff) < 2, diff)
  }

  lemma LastTrimmed(r: seq<Line>, diff: bool)
    ensures AllTrimmed(if r == [] then r else r[|r| - 1 := Trimmed(r[|r| - 1], diff)], diff)
      <==> AllTrimmed(Part(r, false), diff)
  {
    if r != [] {
      var n := |r| - 1;
      TrimmedTwice(r[n], diff);
      TrimmedAppend(r[..n], Trimmed(r[n], diff), diff);
      assert r[n := Trimmed(r[n], diff)] == r[..n] + [Trimmed(r[n], diff)];
    }
  }

  lemma ResultTrimmed(ls: seq<Line>, diff: bool)
    requires WellFormed(ls)
    ensures AllTrimmed(StripResult(ls, diff), diff) <==> NothingLeft(ls, diff)
  {
    hide WellFormed, AllTrimmed, Walk, Trimmed, NonePassed;
    var m, r := Fusions(ls, 0, diff), Walk(ls, 0, [], diff);
    WalkTrimmed(ls, 0, [], diff, m < 2);
    assert AllTrimmed([], diff) by { NoLines(diff); }
    if m >= 2 {
      if diff { NoFusionsInDiff(ls, 0); }
      LastTrimmed(r, diff);
    }
  }

  lemma NoLines(diff: bool)
    ensures AllTrimmed([], diff)
  {
  }

  // ------------------------------------------------------------------- no new fusions

  /** A line of nothing but blanks comes right after a CRLF. */
  predicate Guarded(ls: seq<Line>) {
    forall i :: 0 <= i < |ls| && ls[i].body != "" && Blanks(ls[i].body) ==> i > 0 && ls[i - 1].eol == CRLF
  }

  lemma GuardedIsSafe(ls: seq<Line>, diff: bool)
    requires Guarded(ls)
    ensures Safe(ls, diff)
  {
  }

  lemma TrimmedNotBlank(l: Line)
    ensures Trimmed(l, false).body == "" || !Blanks(Trimmed(l, false).body)
  {
    var b := Trimmed(l, false).body;
    if b != "" { assert !Blank(b[|b| - 1]); }
  }

  lemma GuardedAppend(a: seq<Line>, l: Line)
    requires Guarded(a) && (l.body == "" || !Blanks(l.body) || (a != [] && a[|a| - 1].eol == CRLF))
    ensures Guarded(a + [l])
  {
  }

  lemma {:induction false} WalkGuarded(ls: seq<Line>, j: nat, done: seq<Line>)
    requires j <= |ls| && Guarded(done)
    ensures Guarded(Walk(ls, j, done, false))
    decreases |ls| - j
  {
    if j < |ls| {
      if done != [] && j > 0 && WouldFuse(ls[j - 1], ls[j], false) {
        TakeLfGuarded(done);
        if j + 1 < |ls| {
          GuardedAppend(TakeLf(done), ls[j + 1]);
          hide Guarded;
          WalkGuarded(ls, j + 2, TakeLf(done) + [ls[j + 1]]);
        }
      } else {
        TrimmedNotBlank(ls[j]);
        GuardedAppend(done, Trimmed(ls[j], false));
        hide Guarded;
        WalkGuarded(ls, j + 1, done + [Trimmed(ls[j], false)]);
      }
    }
  }

  lemma TakeLfGuarded(done: seq<Line>)
    requires done != [] && Guarded(done)
    ensures Guarded(TakeLf(done))
  {
    var r := TakeLf(done);
    assert forall i :: 0 <= i < |r| ==> r[i].body == done[i].body && (i < |r| - 1 ==> r[i] == done[i]);
  }

  lemma ResultGuarded(ls: seq<Line>)
    ensures Guarded(StripResult(ls, false))
  {
    var r := Walk(ls, 0, [], false);
    WalkGuarded(ls, 0, []);
    if r != [] { TrimmedNotBlank(r[|r| - 1]); }
  }

  // ----------------------------------------------------------------- the whole save

  /** What a save makes of the lines of a text. */
  function SavedLines(ls: seq<Line>, o: Options): seq<Line> {
    var l1 := if o.strip then StripResult(ls, o.diff) else ls;
    var l2 := if o.consistent then ConvertedLines(l1, o.mode) else l1;
    if o.final && l2 != [] then FinishedLines(l2, o.mode) else l2
  }

  lemma SaveLines(t: string, o: Options)
    ensures LinesOf(Save(t, o)) == SavedLines(LinesOf(t), o)
  {
    hide LinesOf;
    StripExactly(t, o.diff);
    var t1 := if o.strip then Strip(t, o.diff) else t;
    ConvertLines(t1, o.mode);
    var t2 := if o.consistent then ConvertEols(t1, o.mode) else t1;
    FinishLines(t2, o.mode);
  }

  lemma FinishedAllTrimmed(ls: seq<Line>, diff: bool, mode: EolMode)
    requires ls != []
    ensures AllTrimmed(FinishedLines(ls, mode), diff) <==> AllTrimmed(ls, diff)
  {
    var n := |ls| - 1;
    assert ls == ls[..n] + [ls[n]];
    TrimmedAppend(ls[..n], ls[n], diff);
    TrimmedAppend(ls[..n], Line(ls[n].body, mode), diff);
    TrimmedAppend(ls[..n] + [Line(ls[n].body, mode)], Line("", NoEol), diff);
    assert ls[..n] + [Line(ls[n].body, mode)] + [Line("", NoEol)]
        == ls[..n] + [Line(ls[n].body, mode), Line("", NoEol)];
  }

  lemma ConvertedAllTrimmed(ls: seq<Line>, diff: bool, mode: EolMode)
    ensures AllTrimmed(ConvertedLines(ls, mode), diff) <==> AllTrimmed(ls, diff)
  {
    var r := ConvertedLines(ls, mode);
    forall i | 0 <= i < |ls| ensures Trimmed(r[i], diff) == r[i] <==> Trimmed(ls[i], diff) == ls[i] {}
  }

  lemma SavedTrimmed(ls: seq<Line>, o: Options)
    requires WellFormed(ls) && o.strip
    ensures AllTrimmed(SavedLines(ls, o), o.diff) <==> NothingLeft(ls, o.diff)
  {
    ResultTrimmed(ls, o.diff);
    var l1 := StripResult(ls, o.diff);
    hide StripResult, AllTrimmed, NothingLeft, WellFormed, FinishedLines, ConvertedLines;
    ConvertedAllTrimmed(l1, o.diff, o.mode);
    var l2 := if o.consistent then ConvertedLines(l1, o.mode) else l1;
    if l2 != [] { FinishedAllTrimmed(l2, o.diff, o.mode); }
  }

  lemma FinishedGuarded(ls: seq<Line>, mode: EolMode)
    requires Guarded(ls) && ls != []
    ensures Guarded(FinishedLines(ls, mode))
  {
    var n, r := |ls| - 1, FinishedLines(ls, mode);
    assert forall i :: 0 <= i < n ==> r[i] == ls[i];
    assert r[n].body == ls[n].body;
  }

  /** Saving leaves the lines in one mode if they are made consistent, and the last one
      empty if it is ended. */
  lemma SavedForm(ls: seq<Line>, o: Options)
    requires ls != [] && (o.strip ==> StripResult(ls, o.diff) != [])
    ensures o.consistent ==> AllInMode(SavedLines(ls, o), o.mode)
    ensures o.final ==> Ended(SavedLines(ls, o))
  {
    var l1 := if o.strip then StripResult(ls, o.diff) else ls;
    hide StripResult, AllInMode, Ended, FinishedLines;
    ConvertedInMode(l1, o.mode);
    var l2 := if o.consistent then ConvertedLines(l1, o.mode) else l1;
    FinishedInMode(l2, o.mode);
  }

  lemma SavedSafe(ls: seq<Line>, o: Options)
    requires ls != [] && o.strip && StripResult(ls, o.diff) != [] && WellFormed(SavedLines(ls, o))
    ensures Safe(SavedLines(ls, o), o.diff)
  {
    var r := SavedLines(ls, o);
    SavedForm(ls, o);
    if !o.diff && !o.consistent {
      ResultGuarded(ls);
      if o.final { FinishedGuarded(StripResult(ls, false), o.mode); }
      GuardedIsSafe(r, o.diff);
    } else {
      assert o.consistent ==> forall i :: 0 <= i < |r| - 1 ==> r[i].eol == o.mode;
      OneStyleIsSafe(r, o.diff, o.mode);
    }
  }

  lemma SafeResult(ls: seq<Line>, diff: bool)
    requires Safe(ls, diff)
    ensures StripResult(ls, diff) == StrippedLines(ls, diff) && NothingLeft(ls, diff)
  {
    SafeFusions(ls, 0, diff);
    SafeWalk(ls, 0, [], diff);
  }

  /** Lines in the form that a save gives them are not changed by it. */
  lemma FormStays(ls: seq<Line>, o: Options)
    requires o.strip ==> Safe(ls, o.diff) && AllTrimmed(ls, o.diff)
    requires o.consistent ==> AllInMode(ls, o.mode)
    requires o.final ==> Ended(ls)
    ensures SavedLines(ls, o) == ls
  {
    if o.strip {
      SafeResult(ls, o.diff);
      assert StrippedLines(ls, o.diff) == ls;
    }
    if o.consistent { assert ConvertedLines(ls, o.mode) == ls; }
  }

  lemma ResultNotEmpty(t: string, o: Options)
    ensures o.strip ==> StripResult(LinesOf(t), o.diff) != []
  {
    hide LinesOf;
    StripExactly(t, o.diff);
  }

  /** A second save changes nothing exactly when the strip step, if chosen, passes over no
      blanks: each line that follows two fused lines has none at its end, or is the last line
      and lines fuse more than once. */
  lemma SaveIdempotent(t: string, o: Options)
    ensures Save(Save(t, o), o) == Save(t, o) <==> (o.strip ==> NothingLeft(LinesOf(t), o.diff))
  {
    hide *;
    var saved := Save(t, o);
    var ls, once, twice := LinesOf(t), LinesOf(saved), LinesOf(Save(saved, o));
    LinesWellFormed(t);
    LinesWellFormed(saved);
    ResultNotEmpty(t, o);
    SaveLines(t, o);
    SaveLines(saved, o);
    SavedForm(ls, o);
    if o.strip {
      SavedSafe(ls, o);
      SavedTrimmed(ls, o);
      SafeResult(once, o.diff);
      SavedTrimmed(once, o);
    }
    if o.strip ==> NothingLeft(ls, o.diff) {
      FormStays(once, o);
      JoinLines(saved);
      JoinLines(Save(saved, o));
    }
  }

  /** So it changes nothing in a text with one style of line ends, in diff mode, and when
      blanks are not stripped. */
  lemma OneStyleSavesOnce(t: string, ls: seq<Line>, o: Options, style: EolMode)
    requires ls == LinesOf(t)
    requires !o.strip || o.diff || forall i :: 0 <= i < |ls| - 1 ==> ls[i].eol == style
    ensures Save(Save(t, o), o) == Save(t, o)
  {
    if o.strip {
      LinesWellFormed(t);
      OneStyleIsSafe(ls, o.diff, style);
      SafeResult(ls, o.diff);
    }
    SaveIdempotent(t, o);
  }

  // ------------------------------------------------------- a save that does not settle

  const FOUR: seq<Line> := [Line("a", CR), Line(" ", LF), Line("b  ", LF), Line("c", NoEol)]

  lemma FourText()
    ensures WellFormed(FOUR) && Join(FOUR) == "a\r \nb  \nc"
  {
    JoinTwo(FOUR[2], FOUR[3]);
    assert FOUR[1..][1..] == [FOUR[2], FOUR[3]];
  }

  lemma FourLeaves()
    ensures !NothingLeft(FOUR, false)
  {
    assert "b  "[..2] == "b " && "b "[..1] == "b";
    assert PassedOver(FOUR, 1, false);
    assert Fusions(FOUR, 4, false) == 0;
    assert Fusions(FOUR, 3, false) == 0;
    assert Fusions(FOUR, 2, false) == 0;
  }

  /** The LF of the blank second line joins the CR before it, the loop passes over the third
      line, and only the second save strips that. */
  lemma SaveTwiceCanDiffer()
    ensures var o := Options(true, false, false, false, LF);
      Save(Save("a\r \nb  \nc", o), o) != Save("a\r \nb  \nc", o)
  {
    hide *;
    var t, o := "a\r \nb  \nc", Options(true, false, false, false, LF);
    FourText();
    LinesJoin(FOUR);
    FourLeaves();
    SaveIdempotent(t, o);
  }
}
