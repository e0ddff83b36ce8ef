/** Lines by position: which line a position is on, and how an inserted piece of text moves
    the starts of the lines. */
module LinePositions {
  import opened Lines

  /** A line other than the first starts at x: right behind a line end. */
  predicate IsStart(t: string, x: nat) {
    0 < x <= |t| && IsEol(t[x - 1]) && !(t[x - 1] == '\r' && x < |t| && t[x] == '\n')
  }

  /** How many lines start in (lo, hi]. */
  function StartsIn(t: string, lo: nat, hi: nat): nat {
    if hi <= lo then 0 else StartsIn(t, lo, hi - 1) + if IsStart(t, hi) then 1 else 0
  }

  function LineFromPosition(t: string, p: nat): nat { StartsIn(t, 0, p) }

  lemma {:induction false} StartsSplit(t: string, lo: nat, mid: nat, hi: nat)
    requires lo <= mid <= hi
    ensures StartsIn(t, lo, hi) == StartsIn(t, lo, mid) + StartsIn(t, mid, hi)
  {
    if mid < hi { StartsSplit(t, lo, mid, hi - 1); }
  }

  lemma {:induction false} NoStarts(t: string, lo: nat, hi: nat)
    requires forall x :: lo < x <= hi ==> !IsStart(t, x)
    ensures StartsIn(t, lo, hi) == 0
  {
    if lo < hi { NoStarts(t, lo, hi - 1); }
  }

  // ------------------------------------------------------- positions and lists of lines

  /** The length of the first of several lines, with its end. */
  function FirstLength(t: string): (m: nat)
    requires BodyLength(t) < |t|
    ensures 0 < m <= |t|
  {
    BodyLength(t) + |EolText(EolAt(t, BodyLength(t)))|
  }

  /** The first line is over where the next one starts, and nowhere before. */
  lemma FirstLineStarts(t: string)
    requires BodyLength(t) < |t|
    ensures IsStart(t, FirstLength(t))
    ensures forall x :: 0 < x < FirstLength(t) ==> !IsStart(t, x)
  {
    var n := BodyLength(t);
    hide BodyLength;
    assert forall i :: 0 <= i < n ==> t[..n][i] == t[i];
    assert EolText(EolAt(t, n)) <= t[n..];
  }

  lemma LaterStart(t: string, m: nat, x: nat)
    requires 0 < x && m <= |t|
    ensures IsStart(t, m + x) == IsStart(t[m..], x)
  {
  }

  lemma {:induction false} LaterStarts(t: string, m: nat, x: nat)
    requires m <= |t| && IsStart(t, m) && (forall y :: 0 < y < m ==> !IsStart(t, y))
    ensures LineFromPosition(t, m + x) == 1 + LineFromPosition(t[m..], x)
    ensures x > 0 ==> IsStart(t, m + x) == IsStart(t[m..], x)
  {
    if x > 0 {
      LaterStarts(t, m, x - 1);
      LaterStart(t, m, x);
    } else {
      NoStarts(t, 0, m - 1);
    }
    hide IsStart;
  }

  lemma LinesUnfold(t: string)
    ensures BodyLength(t) == |t| ==> LineCount(t) == 1
    ensures BodyLength(t) < |t| ==>
      && LinesOf(t) == [LinesOf(t)[0]] + LinesOf(t[FirstLength(t)..])
      && |Text(LinesOf(t)[0])| == FirstLength(t)
      && LineCount(t) == 1 + LineCount(t[FirstLength(t)..])
  {
  }

  lemma JoinFirst(l: Line, rest: seq<Line>, n: nat)
    requires 0 < n <= |rest| + 1
    ensures Join(([l] + rest)[..n]) == Text(l) + Join(rest[..n - 1])
  {
    var upto := ([l] + rest)[..n];
    assert upto[0] == l && upto[1..] == rest[..n - 1];
  }

  lemma NextStart(t: string, line: nat)
    requires 0 < line < LineCount(t)
    ensures BodyLength(t) < |t| && line - 1 < LineCount(t[FirstLength(t)..])
    ensures PositionFromLine(t, line) == PositionFromLine(t[FirstLength(t)..], line - 1) + FirstLength(t)
  {
    hide LinesOf, Join, BodyLength, FirstLength, Text;
    LinesUnfold(t);
    JoinFirst(LinesOf(t)[0], LinesOf(t[FirstLength(t)..]), line);
  }

  /** Each line but the first begins where IsStart says, and positions are counted by these
      starts: the lines by position are those of the list of lines. */
  lemma {:induction false} LineStart(t: string, line: nat)
    requires line < LineCount(t)
    ensures var q := PositionFromLine(t, line);
      && 0 <= q <= |t| && LineFromPosition(t, q) == line
      && (if line == 0 then q == 0 else IsStart(t, q))
    decreases |t|
  {
    hide LinesOf, Join, IsStart, StartsIn, BodyLength, FirstLength;
    if line > 0 {
      NextStart(t, line);
      FirstLineStarts(t);
      LineStart(t[FirstLength(t)..], line - 1);
      LaterStarts(t, FirstLength(t), PositionFromLine(t[FirstLength(t)..], line - 1));
    } else {
      StartOfText(t);
    }
  }

  lemma StartOfText(t: string)
    ensures PositionFromLine(t, 0) == 0 == LineFromPosition(t, 0)
  {
  }

  lemma {:induction false} LineCountIs(t: string)
    ensures LineCount(t) == LineFromPosition(t, |t|) + 1
    decreases |t|
  {
    var n := BodyLength(t);
    if n < |t| {
      var m := FirstLength(t);
      FirstLineStarts(t);
      LineCountIs(t[m..]);
      hide IsStart, StartsIn;
      LaterStarts(t, m, |t| - m);
    } else {
      assert forall i :: 0 <= i < |t| ==> t[..n][i] == t[i];
      NoStarts(t, 0, |t|);
    }
  }

  /** Line `line` starts at or before x exactly when x is on it or on a later one. */
  lemma StartsBy(t: string, line: nat, x: nat)
    requires line < LineCount(t)
    ensures PositionFromLine(t, line) <= x <==> line <= LineFromPosition(t, x)
  {
    var q := PositionFromLine(t, line);
    LineStart(t, line);
    if q <= x {
      StartsSplit(t, 0, q, x);
    } else if line > 0 {
      StartsSplit(t, 0, x, q - 1);
    }
  }

  // ---------------------------------------------------------------- inserting text

  function Inserted(t: string, p: nat, ins: string): string
    requires p <= |t|
  {
    t[..p] + ins + t[p..]
  }

  /** The number of lines that the insertion adds. */
  function LinesAdded(t: string, p: nat, ins: string): int
    requires p <= |t|
  {
    LineCount(Inserted(t, p, ins)) - LineCount(t)
  }

  /** Before the place lines start as they did; behind it they start |ins| further on. */
  lemma StartBefore(t: string, p: nat, ins: string, x: nat)
    requires x < p <= |t|
    ensures IsStart(t, x) == IsStart(Inserted(t, p, ins), x)
  {
  }

  lemma StartBehind(t: string, p: nat, ins: string, x: nat)
    requires p < x && p <= |t|
    ensures IsStart(t, x) == IsStart(Inserted(t, p, ins), x + |ins|)
  {
    var u := Inserted(t, p, ins);
    if x <= |t| { assert u[x + |ins| - 1] == t[x - 1]; }
    if x < |t| { assert u[x + |ins|] == t[x]; }
  }

  lemma {:induction false} LineBefore(t: string, p: nat, ins: string, x: nat)
    requires x < p <= |t|
    ensures LineFromPosition(Inserted(t, p, ins), x) == LineFromPosition(t, x)
  {
    hide IsStart, Inserted;
    if x > 0 {
      LineBefore(t, p, ins, x - 1);
      StartBefore(t, p, ins, x);
    }
  }

  lemma {:induction false} StartsBehind(t: string, p: nat, ins: string, x: nat, y: nat)
    requires p <= x <= y && p <= |t|
    ensures StartsIn(t, x, y) == StartsIn(Inserted(t, p, ins), x + |ins|, y + |ins|)
  {
    hide IsStart, Inserted;
    if x < y {
      StartsBehind(t, p, ins, x, y - 1);
      StartBehind(t, p, ins, y);
    }
  }

  lemma LinesBehind(t: string, x: nat)
    requires x <= |t|
    ensures LineCount(t) == LineFromPosition(t, x) + StartsIn(t, x, |t|) + 1
  {
    LineCountIs(t);
    StartsSplit(t, 0, x, |t|);
    hide LineCount, StartsIn;
  }

  lemma InsertedLength(t: string, p: nat, ins: string)
    requires p <= |t|
    ensures |Inserted(t, p, ins)| == |t| + |ins|
  {
  }

  lemma LineBehind(t: string, p: nat, ins: string, x: nat)
    requires p <= x <= |t|
    ensures LineFromPosition(Inserted(t, p, ins), x + |ins|) == LineFromPosition(t, x) + LinesAdded(t, p, ins)
  {
    InsertedLength(t, p, ins);
    StartsBehind(t, p, ins, x, |t|);
    LinesBehind(t, x);
    LinesBehind(Inserted(t, p, ins), x + |ins|);
    hide LineCount, StartsIn, Inserted, LineFromPosition;
  }

  /** A start at the place itself is lost only when the text goes on with the LF of a CRLF. */
  lemma StartAt(t: string, p: nat, ins: string)
    requires p <= |t| && ins != ""
    ensures var u := Inserted(t, p, ins);
      && (IsStart(u, p) <==> p > 0 && IsEol(t[p - 1]) && !(t[p - 1] == '\r' && ins[0] == '\n'))
      && (ins[0] == '\n' ==> IsStart(u, p + 1))
  {
  }
}
