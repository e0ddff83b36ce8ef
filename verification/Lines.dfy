/** A text as its lines: what the text control reports about line starts and line ends.
    Lines are ended by CR, LF or CRLF; the last line has no end. */
module Lines {

  datatype Eol = NoEol | CR | LF | CRLF

  datatype Line = Line(body: string, eol: Eol)

  function EolText(e: Eol): string {
    match e
    case NoEol => ""
    case CR => "\r"
    case LF => "\n"
    case CRLF => "\r\n"
  }

  predicate IsEol(c: char) { c == '\r' || c == '\n' }

  predicate Plain(s: string) { forall i :: 0 <= i < |s| ==> !IsEol(s[i]) }

  /** The number of characters before the first line end. */
  function BodyLength(t: string): (n: nat)
    ensures n <= |t| && Plain(t[..n])
    ensures n < |t| ==> IsEol(t[n])
  {
    if t == "" || IsEol(t[0]) then 0
    else
      var n := BodyLength(t[1..]);
      assert t[..n + 1] == [t[0]] + t[1..][..n];
      n + 1
  }

  function EolAt(t: string, p: nat): (e: Eol)
    requires p < |t| && IsEol(t[p])
    ensures e != NoEol && EolText(e) <= t[p..]
  {
    if t[p] == '\n' then LF
    else if p + 1 < |t| && t[p + 1] == '\n' then CRLF else CR
  }

  function LinesOf(t: string): (ls: seq<Line>)
    ensures |ls| > 0
    decreases |t|
  {
    var n := BodyLength(t);
    if n == |t| then [Line(t, NoEol)]
    else
      var e := EolAt(t, n);
      [Line(t[..n], e)] + LinesOf(t[n + |EolText(e)|..])
  }

  function Text(l: Line): string { l.body + EolText(l.eol) }

  function Join(ls: seq<Line>): string {
    if ls == [] then "" else Text(ls[0]) + Join(ls[1..])
  }

  /** A CR that ends one line would fuse with an LF that is all of the next. */
  predicate Fuses(a: Line, b: Line) { a.eol == CR && b == Line("", LF) }

  /** The lists that are the lines of some text. */
  predicate WellFormed(ls: seq<Line>) {
    && |ls| > 0
    && (forall i :: 0 <= i < |ls| ==> Plain(ls[i].body))
    && (forall i :: 0 <= i < |ls| ==> (ls[i].eol == NoEol <==> i == |ls| - 1))
    && (forall i :: 0 < i < |ls| ==> !Fuses(ls[i - 1], ls[i]))
  }

  // ------------------------------------------------------------- text and lines

  lemma {:induction false} JoinAppend(a: seq<Line>, b: seq<Line>)
    ensures Join(a + b) == Join(a) + Join(b)
  {
    if a == [] {
      assert a + b == b;
    } else {
      assert (a + b)[1..] == a[1..] + b;
      JoinAppend(a[1..], b);
    }
  }

  lemma {:induction false} BodyLengthIs(s: string, rest: string)
    requires Plain(s) && (rest == "" || IsEol(rest[0]))
    ensures BodyLength(s + rest) == |s|
  {
    if s == "" {
      assert s + rest == rest;
    } else {
      assert (s + rest)[1..] == s[1..] + rest;
      BodyLengthIs(s[1..], rest);
    }
  }

  /** Reading the lines of a text and joining them gives the text. */
  lemma {:induction false} JoinLines(t: string)
    ensures Join(LinesOf(t)) == t
    decreases |t|
  {
    var n := BodyLength(t);
    if n < |t| {
      var e := EolAt(t, n);
      var m := n + |EolText(e)|;
      JoinLines(t[m..]);
      assert LinesOf(t)[1..] == LinesOf(t[m..]);
      Remainder(t, n, EolText(e));
    } else {
      assert LinesOf(t)[1..] == [];
    }
  }

  lemma Remainder(t: string, n: nat, e: string)
    requires n <= |t| && e <= t[n..]
    ensures t == (t[..n] + e) + t[n + |e|..]
  {
    assert t[n..][..|e|] == e;
  }

  lemma {:induction false} LinesWellFormed(t: string)
    ensures WellFormed(LinesOf(t))
    decreases |t|
  {
    var n := BodyLength(t);
    if n < |t| {
      var e := EolAt(t, n);
      var m := n + |EolText(e)|;
      LinesWellFormed(t[m..]);
      FirstLine(t[m..]);
      assert e == CR && m < |t| ==> t[m] != '\n';
      ConsWellFormed(Line(t[..n], e), LinesOf(t[m..]));
    } else {
      assert t == t[..n];
    }
  }

  lemma ConsWellFormed(l: Line, rest: seq<Line>)
    requires WellFormed(rest) && Plain(l.body) && l.eol != NoEol && !Fuses(l, rest[0])
    ensures WellFormed([l] + rest)
  {
    var ls := [l] + rest;
    assert forall i :: 1 <= i < |ls| ==> ls[i] == rest[i - 1];
  }

  lemma FirstLine(t: string)
    ensures LinesOf(t)[0] == Line("", LF) ==> |t| > 0 && t[0] == '\n'
  {
  }

  lemma {:induction false} NextText(ls: seq<Line>)
    requires WellFormed(ls)
    ensures Join(ls) != "" && Join(ls)[0] == '\n' ==> ls[0] == Line("", LF)
  {
    assert Join(ls) == Text(ls[0]) + Join(ls[1..]);
    if |ls| == 1 { assert Join(ls[1..]) == ""; }
    if ls[0].body != "" { assert Join(ls)[0] == ls[0].body[0]; }
  }

  lemma TailWellFormed(ls: seq<Line>)
    requires WellFormed(ls) && |ls| > 1
    ensures WellFormed(ls[1..])
  {
    var t := ls[1..];
    assert forall i :: 0 <= i < |t| ==> t[i] == ls[i + 1];
  }

  /** Every well-formed list of lines is what its text is read back as. */
  lemma {:induction false} LinesJoin(ls: seq<Line>)
    requires WellFormed(ls)
    ensures LinesOf(Join(ls)) == ls
  {
    var l, t := ls[0], Join(ls);
    if |ls| == 1 {
      assert Join(ls[1..]) == "" && t == l.body;
      BodyLengthIs(l.body, "");
      assert l.body + "" == l.body;
    } else {
      var rest := Join(ls[1..]);
      TailWellFormed(ls);
      LinesJoin(ls[1..]);
      NextText(ls[1..]);
      FirstEol(l, rest);
      assert t == l.body + EolText(l.eol) + rest;
      assert ls == [l] + ls[1..];
    }
  }

  lemma FirstEol(l: Line, rest: string)
    requires Plain(l.body) && l.eol != NoEol
    requires l.eol == CR ==> rest == "" || rest[0] != '\n'
    ensures var t := l.body + EolText(l.eol) + rest;
      && LinesOf(t) == [l] + LinesOf(rest)
  {
    var t := l.body + EolText(l.eol) + rest;
    var n := |l.body|;
    assert t == l.body + (EolText(l.eol) + rest);
    BodyLengthIs(l.body, EolText(l.eol) + rest);
    hide BodyLength, Plain;
    assert t[n..] == EolText(l.eol) + rest;
    assert t[n] == EolText(l.eol)[0];
    assert n + 1 < |t| ==> t[n + 1] == (EolText(l.eol) + rest)[1];
    assert EolAt(t, n) == l.eol;
    hide EolAt;
    assert t[..n] == l.body;
    assert t[n + |EolText(l.eol)|..] == rest;
  }

  // -------------------------------------------------- what the text control reports

  function LineCount(t: string): nat { |LinesOf(t)| }

  /** PositionFromLine: one past the last line is the end of the text, beyond it is -1. */
  function PositionFromLine(t: string, line: nat): int {
    if line > LineCount(t) then -1 else |Join(LinesOf(t)[..line])|
  }

  /** GetLineEndPosition: the end of the line without its line end. */
  function LineEndPosition(t: string, line: nat): int {
    if line >= LineCount(t) then |t|
    else |Join(LinesOf(t)[..line])| + |LinesOf(t)[line].body|
  }

  /** GetCharAt: zero outside the text. */
  function CharAt(t: string, i: int): char {
    if 0 <= i < |t| then t[i] else '\0'
  }

  lemma SplitAt(ls: seq<Line>, k: nat)
    requires k < |ls|
    ensures Join(ls) == Join(ls[..k]) + (ls[k].body + (EolText(ls[k].eol) + Join(ls[k + 1..])))
  {
    JoinAppend(ls[..k], ls[k..]);
    assert ls == ls[..k] + ls[k..];
    assert ls[k..][1..] == ls[k + 1..];
    Regroup(ls[k].body, EolText(ls[k].eol), Join(ls[k + 1..]));
  }

  lemma Regroup(a: string, b: string, c: string)
    ensures (a + b) + c == a + (b + c)
  {
  }

  lemma Pieces(a: string, b: string, c: string)
    ensures var t := a + (b + c);
      t[..|a|] == a && t[|a|..|a| + |b|] == b && t[|a| + |b|..] == c
  {
  }

  /** The text around line k. */
  lemma Around(t: string, k: nat)
    requires k < LineCount(t)
    ensures var ls := LinesOf(t); var p := |Join(ls[..k])|; var e := LineEndPosition(t, k);
      && e == p + |ls[k].body| <= |t|
      && t[..p] == Join(ls[..k]) && t[p..e] == ls[k].body
      && t[e..] == EolText(ls[k].eol) + Join(ls[k + 1..])
  {
    hide LinesOf, Join;
    var ls := LinesOf(t);
    JoinLines(t);
    SplitAt(ls, k);
    Pieces(Join(ls[..k]), ls[k].body, EolText(ls[k].eol) + Join(ls[k + 1..]));
  }
}
