/** Counting the line ends of a text and electing its style. */
module LineEnds {
  import opened Lines
  import SaveText

  const MAX_LENGTH_DOC := 1000000

  // ------------------------------------------------------------------ specification

  /** How many of the lines are ended by e. */
  function Ends(ls: seq<Line>, e: Eol): nat {
    if ls == [] then 0 else (if ls[0].eol == e then 1 else 0) + Ends(ls[1..], e)
  }

  function EolChars(t: string): nat {
    if t == "" then 0 else (if IsEol(t[0]) then 1 else 0) + EolChars(t[1..])
  }

  /** Where the scan stops: at the end, or at an ordinary character past the limit. */
  function StopFrom(t: string, i: nat): (r: nat)
    requires i <= |t|
    ensures i <= r <= |t|
    ensures r < |t| ==> t[r] != '\r' && t[r] != '\n' && r > 1_000_000
    ensures forall j :: i <= j < r ==> t[j] == '\r' || t[j] == '\n' || j <= 1_000_000
    decreases |t| - i
  {
    if i == |t| || (!IsEol(t[i]) && i > MAX_LENGTH_DOC) then i else StopFrom(t, i + 1)
  }

  function Scanned(t: string): string { t[..StopFrom(t, 0)] }

  /** The style with strictly more line ends than each of the others, if there is one. */
  function Vote(cr: nat, lf: nat, crlf: nat, initial: Eol): Eol {
    if lf > cr && lf > crlf then LF
    else if cr > lf && cr > crlf then CR
    else if crlf > lf && crlf > cr then CRLF
    else initial
  }

  /** More lines are ended by e than by each other line end. */
  ghost predicate Most(ls: seq<Line>, e: Eol) {
    e != NoEol && forall d :: d != NoEol && d != e ==> Ends(ls, d) < Ends(ls, e)
  }

  /** The mode detected for a text. */
  function Detected(t: string, initial: Eol): Eol {
    var ls := LinesOf(Scanned(t));
    Vote(Ends(ls, CR), Ends(ls, LF), Ends(ls, CRLF), initial)
  }

  // ------------------------------------------------------------- character by character

  /** The line end that is counted at position i. */
  function EndAt(t: string, i: nat): Eol
    requires i < |t|
  {
    if t[i] == '\r' then (if i + 1 < |t| && t[i + 1] == '\n' then CRLF else CR)
    else if t[i] == '\n' && !(i > 0 && t[i - 1] == '\r') then LF
    else NoEol
  }

  function Tally(t: string, i: nat, e: Eol): nat
    requires i <= |t|
    decreases |t| - i
  {
    if i == |t| then 0 else (if EndAt(t, i) == e then 1 else 0) + Tally(t, i + 1, e)
  }

  lemma OrdinaryFirst(c: char, t: string, e: Eol)
    requires !IsEol(c) && e != NoEol
    ensures Ends(LinesOf([c] + t), e) == Ends(LinesOf(t), e)
  {
    hide LinesOf, Join;
    var ls := LinesOf(t);
    LinesWellFormed(t);
    JoinLines(t);
    var ls' := [Line([c] + ls[0].body, ls[0].eol)] + ls[1..];
    LongerWellFormed(c, ls, ls');
    LongerText(c, ls[0], ls[1..]);
    assert ls == [ls[0]] + ls[1..];
    LinesJoin(ls');
  }

  lemma LongerWellFormed(c: char, ls: seq<Line>, r: seq<Line>)
    requires !IsEol(c) && WellFormed(ls)
    requires r == [Line([c] + ls[0].body, ls[0].eol)] + ls[1..]
    ensures WellFormed(r)
  {
    assert forall i :: 0 < i < |r| ==> r[i] == ls[i];
    forall i | 0 < i < |r| ensures !Fuses(r[i - 1], r[i]) { assert !Fuses(ls[i - 1], ls[i]); }
  }

  lemma LongerText(c: char, l: Line, rest: seq<Line>)
    ensures Join([Line([c] + l.body, l.eol)] + rest) == [c] + Join([l] + rest)
  {
    assert ([Line([c] + l.body, l.eol)] + rest)[1..] == rest && ([l] + rest)[1..] == rest;
  }

  lemma EndFirst(t: string, e: Eol)
    requires t != "" && IsEol(t[0]) && e != NoEol
    ensures Ends(LinesOf(t), e) == (if EolAt(t, 0) == e then 1 else 0) + Ends(LinesOf(t[|EolText(EolAt(t, 0))|..]), e)
  {
    var rest := LinesOf(t[|EolText(EolAt(t, 0))|..]);
    assert LinesOf(t) == [Line("", EolAt(t, 0))] + rest;
    assert LinesOf(t)[1..] == rest;
  }

  /** Looking at each character and its neighbours counts the line ends. */
  lemma {:induction false} TallyIsEnds(t: string, i: nat, e: Eol)
    requires i <= |t| && e != NoEol
    requires !(0 < i < |t| && t[i - 1] == '\r' && t[i] == '\n')
    ensures Tally(t, i, e) == Ends(LinesOf(t[i..]), e)
    decreases |t| - i
  {
    if i == |t| {
      assert t[i..] == "";
    } else if !IsEol(t[i]) {
      hide LinesOf, Ends, Tally;
      TallyIsEnds(t, i + 1, e);
      OrdinaryStep(t, i, e);
    } else {
      hide LinesOf, Ends, Tally;
      var w := EndWidth(t, i);
      hide EndAt, EolText;
      TallyIsEnds(t, i + w, e);
      EndStep(t, i, w, e);
    }
  }

  lemma EndWidth(t: string, i: nat) returns (w: nat)
    requires i < |t| && IsEol(t[i]) && !(0 < i && t[i - 1] == '\r' && t[i] == '\n')
    ensures w == |EolText(EndAt(t, i))| > 0 && i + w <= |t|
    ensures !(i + w < |t| && t[i + w - 1] == '\r' && t[i + w] == '\n')
  {
    w := |EolText(EndAt(t, i))|;
  }

  lemma OrdinaryStep(t: string, i: nat, e: Eol)
    requires i < |t| && !IsEol(t[i]) && e != NoEol
    requires Tally(t, i + 1, e) == Ends(LinesOf(t[i + 1..]), e)
    ensures Tally(t, i, e) == Ends(LinesOf(t[i..]), e)
  {
    hide LinesOf, Ends;
    assert t[i..] == [t[i]] + t[i + 1..];
    OrdinaryFirst(t[i], t[i + 1..], e);
  }

  lemma EndStep(t: string, i: nat, w: nat, e: Eol)
    requires i < |t| && IsEol(t[i]) && !(0 < i && t[i - 1] == '\r' && t[i] == '\n') && e != NoEol
    requires w == |EolText(EndAt(t, i))| && i + w <= |t|
    requires Tally(t, i + w, e) == Ends(LinesOf(t[i + w..]), e)
    ensures Tally(t, i, e) == Ends(LinesOf(t[i..]), e)
  {
    hide LinesOf, Ends;
    EndsHere(t, i);
    EndFirst(t[i..], e);
    hide EolAt, EndAt;
    if w == 2 { assert Tally(t, i + 1, e) == Tally(t, i + 2, e); }
  }

  lemma EndsHere(t: string, i: nat)
    requires i < |t| && IsEol(t[i]) && !(0 < i && t[i - 1] == '\r' && t[i] == '\n')
    ensures var s := t[i..]; var w := |EolText(EolAt(s, 0))|;
      && EndAt(t, i) == EolAt(s, 0) && 0 < w <= 2 && i + w <= |t| && s[w..] == t[i + w..]
      && (w == 2 ==> EndAt(t, i + 1) == NoEol)
  {
  }

  /** What is scanned has the same line ends, position by position, as the text. */
  lemma ScannedEnds(t: string, i: nat)
    requires i < StopFrom(t, 0)
    ensures EndAt(Scanned(t), i) == EndAt(t, i)
  {
    var stop := StopFrom(t, 0);
    if i + 1 == stop < |t| { assert !IsEol(t[stop]); }
  }

  // ----------------------------------------------------------------------- methods

  /** CountLineEnds */
  method CountLineEnds(t: string) returns (linesCR: nat, linesLF: nat, linesCRLF: nat)
    ensures var ls := LinesOf(Scanned(t));
      linesCR == Ends(ls, CR) && linesLF == Ends(ls, LF) && linesCRLF == Ends(ls, CRLF)
  {
    hide LinesOf, Ends;
    linesCR, linesLF, linesCRLF := 0, 0, 0;
    ghost var u := Scanned(t);
    TallyWhole(u);
    hide StopFrom;
    var chPrev, chNext := ' ', CharAt(t, 0);
    var i := 0;
    while i < |t|
      invariant i <= |u| == StopFrom(t, 0)
      invariant chPrev == (if i == 0 then ' ' else t[i - 1]) && chNext == CharAt(t, i)
      invariant Counted(u, i, linesCR, linesLF, linesCRLF)
    {
      var ch := chNext;
      chNext := CharAt(t, i + 1);
      StopsHere(t, i);
      if i < |u| { ScannedEnds(t, i); }
      if ch == '\r' {
        if chNext == '\n' {
          linesCRLF := linesCRLF + 1;
        } else {
          linesCR := linesCR + 1;
        }
      } else if ch == '\n' {
        if chPrev != '\r' { linesLF := linesLF + 1; }
      } else if i > MAX_LENGTH_DOC {
        return;
      }
      chPrev := ch;
      i := i + 1;
    }
  }

  /** The counters hold the line ends of the first i characters. */
  ghost predicate Counted(u: string, i: nat, cr: nat, lf: nat, crlf: nat)
    requires i <= |u|
  {
    && cr + Tally(u, i, CR) == Tally(u, 0, CR)
    && lf + Tally(u, i, LF) == Tally(u, 0, LF)
    && crlf + Tally(u, i, CRLF) == Tally(u, 0, CRLF)
  }

  lemma TallyWhole(u: string)
    ensures forall e :: e != NoEol ==> Tally(u, 0, e) == Ends(LinesOf(u), e)
  {
    assert u[0..] == u;
    forall e | e != NoEol ensures Tally(u, 0, e) == Ends(LinesOf(u), e) { TallyIsEnds(u, 0, e); }
  }

  lemma {:induction false} StopsAt(t: string, k: nat, i: nat)
    requires k <= i < |t| && i <= StopFrom(t, k)
    ensures StopFrom(t, k) == i <==> !IsEol(t[i]) && i > MAX_LENGTH_DOC
    decreases i - k
  {
    if k < i { StopsAt(t, k + 1, i); }
  }

  lemma StopsHere(t: string, i: nat)
    requires i < |t| && i <= StopFrom(t, 0)
    ensures StopFrom(t, 0) == i <==> !IsEol(t[i]) && i > MAX_LENGTH_DOC
  {
    StopsAt(t, 0, i);
  }

  lemma VoteForMost(ls: seq<Line>, initial: Eol)
    ensures var r := Vote(Ends(ls, CR), Ends(ls, LF), Ends(ls, CRLF), initial);
      && (forall e | Most(ls, e) :: r == e)
      && ((forall e :: !Most(ls, e)) ==> r == initial)
  {
    hide Ends;
    var r := Vote(Ends(ls, CR), Ends(ls, LF), Ends(ls, CRLF), initial);
    forall e | Most(ls, e) ensures r == e {
      assert forall d :: d in {CR, LF, CRLF} && d != e ==> Ends(ls, d) < Ends(ls, e);
    }
    if r != initial { assert Most(ls, r); }
  }

  /** DetectLineEnds; mixed tells whether the user is warned. */
  method DetectLineEnds(t: string, initial: Eol) returns (eolMode: Eol, mixed: bool)
    ensures eolMode == Detected(t, initial)
    ensures forall e | Most(LinesOf(Scanned(t)), e) :: eolMode == e
    ensures (forall e :: !Most(LinesOf(Scanned(t)), e)) ==> eolMode == initial
    ensures var ls := LinesOf(Scanned(t));
      mixed <==> exists d, e :: d != e && d != NoEol && e != NoEol && Ends(ls, d) > 0 && Ends(ls, e) > 0
  {
    hide LinesOf, Scanned, Ends, Most;
    eolMode := initial;
    var linesCR, linesLF, linesCRLF := CountLineEnds(t);
    if linesLF > linesCR && linesLF > linesCRLF {
      eolMode := LF;
    } else if linesCR > linesLF && linesCR > linesCRLF {
      eolMode := CR;
    } else if linesCRLF > linesLF && linesCRLF > linesCR {
      eolMode := CRLF;
    }
    VoteForMost(LinesOf(Scanned(t)), initial);
    mixed := (linesCR > 0 && linesCRLF > 0) || (linesLF > 0 && linesCRLF > 0) || (linesCR > 0 && linesLF > 0);
  }

  // ---------------------------------------------------------------------- theorems

  lemma {:induction false} EolCharsAppend(a: string, b: string)
    ensures EolChars(a + b) == EolChars(a) + EolChars(b)
  {
    if a == "" {
      assert a + b == b;
    } else {
      assert (a + b)[1..] == a[1..] + b;
      EolCharsAppend(a[1..], b);
    }
  }

  lemma {:induction false} PlainHasNone(t: string)
    ensures EolChars(t) == 0 <==> Plain(t)
  {
    if t != "" {
      PlainHasNone(t[1..]);
      assert Plain(t) <==> !IsEol(t[0]) && Plain(t[1..]) by {
        if !IsEol(t[0]) && Plain(t[1..]) {
          assert forall i :: 1 <= i < |t| ==> t[i] == t[1..][i - 1];
        }
        if Plain(t) { assert forall i :: 0 <= i < |t| - 1 ==> t[1..][i] == t[i + 1]; }
      }
    }
  }

  /** Every CR or LF of a text belongs to exactly one line end. */
  lemma {:induction false} LineEndsConserved(t: string)
    ensures var ls := LinesOf(t); Ends(ls, CR) + Ends(ls, LF) + 2 * Ends(ls, CRLF) == EolChars(t)
    decreases |t|
  {
    if BodyLength(t) == |t| {
      PlainHasNone(t);
      assert t[..|t|] == t && LinesOf(t)[1..] == [];
    } else {
      var l, rest := FirstOf(t);
      hide LinesOf, BodyLength;
      LineEndsConserved(rest);
      EolCharsOfEnd(l.body, l.eol, rest);
      assert LinesOf(t)[1..] == LinesOf(rest);
    }
  }

  lemma FirstOf(t: string) returns (l: Line, rest: string)
    requires BodyLength(t) < |t|
    ensures LinesOf(t) == [l] + LinesOf(rest) && |rest| < |t|
    ensures t == (l.body + EolText(l.eol)) + rest && Plain(l.body) && l.eol != NoEol
  {
    var n := BodyLength(t);
    var e := EolAt(t, n);
    l, rest := Line(t[..n], e), t[n + |EolText(e)|..];
    Remainder(t, n, EolText(e));
  }

  lemma EolCharsOfEnd(body: string, e: Eol, rest: string)
    requires Plain(body)
    ensures EolChars((body + EolText(e)) + rest) == |EolText(e)| + EolChars(rest)
  {
    EolCharsAppend(body + EolText(e), rest);
    EolCharsAppend(body, EolText(e));
    PlainHasNone(body);
    assert "\r\n"[1..] == "\n" && "\n"[1..] == "" && "\r"[1..] == "";
  }

  lemma {:induction false} ConvertedEnds(ls: seq<Line>, mode: SaveText.EolMode, e: Eol)
    requires e != NoEol && e != mode
    requires forall i :: 0 <= i < |ls| ==> ls[i].eol == NoEol || ls[i].eol == mode
    ensures Ends(ls, e) == 0
  {
    if ls != [] { ConvertedEnds(ls[1..], mode, e); }
  }

  lemma {:induction false} TallyBelow(t: string, u: string, i: nat, e: Eol)
    requires i <= |u| <= |t|
    requires forall j :: i <= j < |u| ==> EndAt(u, j) == EndAt(t, j)
    ensures Tally(u, i, e) <= Tally(t, i, e)
    decreases |u| - i
  {
    if i < |u| { TallyBelow(t, u, i + 1, e); }
  }

  lemma ScannedBelow(t: string, e: Eol)
    requires e != NoEol
    ensures Ends(LinesOf(Scanned(t)), e) <= Ends(LinesOf(t), e)
  {
    var u := Scanned(t);
    forall j | 0 <= j < |u| ensures EndAt(u, j) == EndAt(t, j) { ScannedEnds(t, j); }
    TallyBelow(t, u, 0, e);
    assert u[0..] == u && t[0..] == t;
    TallyIsEnds(u, 0, e);
    TallyIsEnds(t, 0, e);
  }

  /** After a conversion the detected mode is the one converted to, exactly when that is the
      initial mode anyway or some line end lies in what is scanned. */
  lemma DetectConverted(t: string, mode: SaveText.EolMode, initial: SaveText.EolMode)
    ensures var c := SaveText.ConvertEols(t, mode);
      Detected(c, initial) == mode <==> mode == initial || !Plain(Scanned(c))
  {
    var c := SaveText.ConvertEols(t, mode);
    var u := Scanned(c);
    hide LinesOf, StopFrom, SaveText.ConvertEols;
    SaveText.ConvertLines(t, mode);
    forall e | e != NoEol && e != mode ensures Ends(LinesOf(u), e) == 0 {
      ConvertedEnds(LinesOf(c), mode, e);
      ScannedBelow(c, e);
    }
    LineEndsConserved(u);
    PlainHasNone(u);
  }

  /** In a text of up to 1000001 characters everything is scanned, so any line end will do. */
  lemma DetectConvertedShort(t: string, mode: SaveText.EolMode, initial: SaveText.EolMode)
    requires |SaveText.ConvertEols(t, mode)| <= MAX_LENGTH_DOC + 1
    ensures Detected(SaveText.ConvertEols(t, mode), initial) == mode <==> mode == initial || LineCount(t) > 1
  {
    var c := SaveText.ConvertEols(t, mode);
    assert Scanned(c) == c by { assert StopFrom(c, 0) == |c|; }
    DetectConverted(t, mode, initial);
    SaveText.ConvertLines(t, mode);
    OneLine(c);
  }

  lemma OneLine(t: string)
    ensures Plain(t) <==> LineCount(t) == 1
  {
    assert t[..|t|] == t;
  }
}
