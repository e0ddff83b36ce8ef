/** How breakpoints follow an edit: cbEditor::OnEditorModified reports the line of the place of
    the edit, in the text after it, and the number of lines by which the text has grown; every
    debugger then shifts its breakpoints (Breakpoints.dfy). Lines of breakpoints count from 1. */
module BreakpointEdits {
  import opened Basics
  import opened Lines
  import opened LinePositions
  import opened Breakpoints

  /** The start line that is reported for an edit at p which has left the text `now`. */
  function Reported(now: string, p: nat): int { LineFromPosition(now, p) + 1 }

  /** The breakpoints of one debugger after that edit; it is told only of edits that change
      the number of lines. */
  function OnEditorModified(ms: seq<Mark>, file: string, now: string, p: nat, linesAdded: int): seq<Mark> {
    if linesAdded == 0 then ms else After(ms, file, Reported(now, p), linesAdded)
  }

  // ---------------------------------------------------------------- the place of the edit

  predicate StartsAt(t: string, p: nat) { p > 0 && IsStart(t, p) }

  lemma PlaceLine(t: string, p: nat, ins: string)
    requires p <= |t|
    ensures var u := Inserted(t, p, ins);
      LineFromPosition(u, p) - (if StartsAt(u, p) then 1 else 0)
          == LineFromPosition(t, p) - (if StartsAt(t, p) then 1 else 0)
  {
    if p > 0 { LineBefore(t, p, ins, p - 1); }
    hide IsStart, Inserted;
  }

  /** Adding text never takes lines away. */
  lemma InsertionAdds(t: string, p: nat, ins: string)
    requires p <= |t| && ins != ""
    ensures LinesAdded(t, p, ins) >= 0
  {
    hide Inserted, LinesAdded;
    var u := Inserted(t, p, ins);
    PlaceLine(t, p, ins);
    LineBehind(t, p, ins, p);
    StartAt(t, p, ins);
    StartsSplit(u, 0, p, p + |ins|);
    StartsSplit(u, p, p + 1, p + |ins|);
  }

  /** The text goes on with an LF right behind the CR that ended a line. */
  predicate Joins(t: string, p: nat, ins: string)
    requires p <= |t|
  {
    p > 0 && ins != "" && t[p - 1] == '\r' && ins[0] == '\n'
  }

  /** The text comes between the CR and the LF of a line end. */
  predicate Splits(t: string, p: nat, ins: string)
    requires p <= |t|
  {
    0 < p < |t| && ins != "" && t[p - 1] == '\r' && t[p] == '\n' && ins[0] != '\n'
  }

  /** Of the lines that start at the place or behind it, those not below its new line. */
  lemma NotBelow(t: string, p: nat, ins: string, line: nat)
    requires p <= |t| && ins != "" && line < LineCount(t) && p <= PositionFromLine(t, line)
    ensures var q := PositionFromLine(t, line);
      line <= LineFromPosition(Inserted(t, p, ins), p) <==>
      (q == p && !Joins(t, p, ins)) || (q == p + 1 && Splits(t, p, ins))
  {
    var q := PositionFromLine(t, line);
    PlaceLine(t, p, ins);
    StartAt(t, p, ins);
    LineStart(t, line);
    StartsSplit(t, 0, p, q);
    hide Inserted, PositionFromLine, LineCount;
    if q > p + 1 { StartsSplit(t, p, p + 1, q); }
  }

  // --------------------------------------------------------------------- inserted text

  /** Where the text of a line is after the insertion. */
  function LineAfterInsertion(t: string, p: nat, ins: string, line: int): int
    requires p <= |t| && 1 <= line <= LineCount(t)
  {
    var q := PositionFromLine(t, line - 1);
    LineFromPosition(Inserted(t, p, ins), if q < p then q else q + |ins|) + 1
  }

  /** Lines are added right in front of this line (and not by completing a CRLF), or in the
      line end before it. */
  predicate LeftBehind(t: string, p: nat, ins: string, line: int)
    requires p <= |t| && 1 <= line <= LineCount(t)
  {
    var q := PositionFromLine(t, line - 1);
    LinesAdded(t, p, ins) > 0 && ((q == p && !Joins(t, p, ins)) || (q == p + 1 && Splits(t, p, ins)))
  }

  /** A breakpoint follows the text of its line unless lines are added in front of that line
      at its very start. */
  lemma LineFollowsInsertion(t: string, p: nat, ins: string, line: int)
    requires p <= |t| && ins != "" && 1 <= line <= LineCount(t)
    ensures var to := Moved(line, Reported(Inserted(t, p, ins), p), LinesAdded(t, p, ins));
      && to.Some?
      && (to == Some(LineAfterInsertion(t, p, ins, line)) <==> !LeftBehind(t, p, ins, line))
      && (LeftBehind(t, p, ins, line) ==> to == Some(line))
  {
    hide Inserted, LinesAdded, LineCount, PositionFromLine, LineFromPosition, Joins, Splits, LineAfterInsertion;
    InsertionAdds(t, p, ins);
    PlaceAfterInsertion(t, p, ins, line);
    if p <= PositionFromLine(t, line - 1) { NotBelow(t, p, ins, line - 1); }
  }

  lemma PlaceAfterInsertion(t: string, p: nat, ins: string, line: int)
    requires p <= |t| && 1 <= line <= LineCount(t)
    ensures var q := PositionFromLine(t, line - 1);
      && LineAfterInsertion(t, p, ins, line) == line + (if q < p then 0 else LinesAdded(t, p, ins))
      && (q < p ==> line - 1 <= LineFromPosition(Inserted(t, p, ins), p))
  {
    var u, q := Inserted(t, p, ins), PositionFromLine(t, line - 1);
    LineStart(t, line - 1);
    hide Inserted, LinesAdded, LineCount, PositionFromLine, StartsIn;
    if q < p {
      LineBefore(t, p, ins, q);
      StartsSplit(u, 0, q, p);
    } else {
      LineBehind(t, p, ins, q);
    }
  }

  predicate InText(ms: seq<Mark>, file: string, t: string) {
    forall m :: m in ms && m.file == file ==> 1 <= m.line <= LineCount(t)
  }

  /** The breakpoints, each with the text of its line. */
  function CarriedByInsertion(ms: seq<Mark>, file: string, t: string, p: nat, ins: string): seq<Mark>
    requires p <= |t| && InText(ms, file, t)
  {
    if ms == [] then []
    else [if ms[0].file == file then ms[0].(line := LineAfterInsertion(t, p, ins, ms[0].line)) else ms[0]]
         + CarriedByInsertion(ms[1..], file, t, p, ins)
  }

  /** All breakpoints follow their text exactly when none of them is left behind. */
  lemma {:induction false} BreakpointsFollowInsertion(ms: seq<Mark>, file: string, t: string, p: nat, ins: string)
    requires p <= |t| && ins != "" && InText(ms, file, t)
    ensures OnEditorModified(ms, file, Inserted(t, p, ins), p, LinesAdded(t, p, ins))
              == CarriedByInsertion(ms, file, t, p, ins)
            <==> forall m :: m in ms && m.file == file ==> !LeftBehind(t, p, ins, m.line)
  {
    if ms != [] {
      var start, k := Reported(Inserted(t, p, ins), p), LinesAdded(t, p, ins);
      BreakpointsFollowInsertion(ms[1..], file, t, p, ins);
      if ms[0].file == file { LineFollowsInsertion(t, p, ins, ms[0].line); }
      hide Inserted, LinesAdded, LineCount, Reported, LeftBehind, LineAfterInsertion, Moved;
      var carried := CarriedByInsertion(ms, file, t, p, ins)[0];
      UntouchedAfter(ms, file, start);
      UntouchedAfter(ms[1..], file, start);
      assert Followed(ms[0], file, start, k).Some?;
      ConsEqual(Followed(ms[0], file, start, k).value, After(ms[1..], file, start, k),
                carried, CarriedByInsertion(ms[1..], file, t, p, ins));
      assert forall m :: m in ms <==> m == ms[0] || m in ms[1..];
    }
  }

  lemma ConsEqual<T>(x: T, xs: seq<T>, y: T, ys: seq<T>)
    ensures [x] + xs == [y] + ys <==> x == y && xs == ys
  {
    if [x] + xs == [y] + ys {
      assert ([x] + xs)[0] == ([y] + ys)[0] && ([x] + xs)[1..] == ([y] + ys)[1..];
    }
  }

  // ---------------------------------------------------------------------- deleted text

  function Deleted(t: string, p: nat, d: nat): string
    requires p + d <= |t|
  {
    t[..p] + t[p + d..]
  }

  function LinesRemoved(t: string, p: nat, d: nat): int
    requires p + d <= |t|
  {
    LineCount(t) - LineCount(Deleted(t, p, d))
  }

  /** A text is its remainder with the deleted text inserted. */
  lemma DeletedInserted(t: string, p: nat, d: nat)
    requires p + d <= |t|
    ensures p <= |Deleted(t, p, d)| == |t| - d && |t[p..p + d]| == d && Inserted(Deleted(t, p, d), p, t[p..p + d]) == t
    ensures LinesRemoved(t, p, d) == LinesAdded(Deleted(t, p, d), p, t[p..p + d])
  {
    var now := Deleted(t, p, d);
    assert t == t[..p] + t[p..p + d] + t[p + d..];
    assert now[..p] == t[..p] && now[p..] == t[p + d..];
  }

  /** The deleted text holds the whole line with its end. */
  predicate WhollyDeleted(t: string, p: nat, d: nat, line: int)
    requires p + d <= |t| && 1 <= line <= LineCount(t)
  {
    p <= PositionFromLine(t, line - 1) && line < LineCount(t) && PositionFromLine(t, line) <= p + d
  }

  /** Where what is left of a line is after the deletion. */
  function LineAfterDeletion(t: string, p: nat, d: nat, line: int): int
    requires p + d <= |t| && 1 <= line <= LineCount(t)
  {
    var q := PositionFromLine(t, line - 1);
    LineFromPosition(Deleted(t, p, d), if q < p then q else if q < p + d then p else q - d) + 1
  }

  /** Lines go, and this line keeps its start but not its end. */
  predicate CutShort(t: string, p: nat, d: nat, line: int)
    requires p + d <= |t| && 1 <= line <= LineCount(t)
  {
    && LinesRemoved(t, p, d) > 0
    && PositionFromLine(t, line - 1) < p
    && line == Reported(Deleted(t, p, d), p)
  }

  /** The line of the deleted text's end, and the new line of its place. */
  lemma EndOfDeletion(t: string, p: nat, d: nat)
    requires p + d <= |t| && 0 < d
    ensures LinesRemoved(t, p, d) >= 0
    ensures LineFromPosition(t, p + d) == LineFromPosition(Deleted(t, p, d), p) + LinesRemoved(t, p, d)
  {
    hide Deleted, Inserted, LinesRemoved, LinesAdded;
    DeletedInserted(t, p, d);
    InsertionAdds(Deleted(t, p, d), p, t[p..p + d]);
    LineBehind(Deleted(t, p, d), p, t[p..p + d], p);
  }

  lemma LineInFront(t: string, p: nat, d: nat, q: nat)
    requires q < p && p + d <= |t| && 0 < d
    ensures LineFromPosition(Deleted(t, p, d), q) == LineFromPosition(t, q) <= LineFromPosition(Deleted(t, p, d), p)
  {
    hide Deleted, Inserted, StartsIn;
    DeletedInserted(t, p, d);
    LineBefore(Deleted(t, p, d), p, t[p..p + d], q);
    StartsSplit(Deleted(t, p, d), 0, q, p);
  }

  lemma LineFurtherOn(t: string, p: nat, d: nat, q: nat)
    requires p + d <= q <= |t| && 0 < d
    ensures LineFromPosition(Deleted(t, p, d), q - d) == LineFromPosition(t, q) - LinesRemoved(t, p, d)
    ensures LineFromPosition(t, p + d) <= LineFromPosition(t, q)
  {
    hide Deleted, Inserted, StartsIn, LinesRemoved, LinesAdded;
    DeletedInserted(t, p, d);
    LineBehind(Deleted(t, p, d), p, t[p..p + d], q - d);
    StartsSplit(t, 0, p + d, q);
  }

  lemma LineWithin(t: string, p: nat, d: nat, q: nat)
    requires p <= q && p + d <= |t| && 0 < d && (q == 0 || IsStart(t, q))
    ensures LineFromPosition(Deleted(t, p, d), p) <= LineFromPosition(t, q)
    ensures q <= p + d ==> LineFromPosition(t, q) <= LineFromPosition(t, p + d)
  {
    hide Deleted, Inserted, StartsIn, IsStart;
    DeletedInserted(t, p, d);
    NotAbove(Deleted(t, p, d), p, t[p..p + d], q);
    if q <= p + d { StartsSplit(t, 0, q, p + d); }
  }

  /** Lines before the place, on it and behind it, and what becomes of them. */
  lemma PlaceAfterDeletion(t: string, p: nat, d: nat, line: int)
    requires p + d <= |t| && 0 < d && 1 <= line <= LineCount(t)
    ensures var q, k, e := PositionFromLine(t, line - 1), LinesRemoved(t, p, d), LineFromPosition(Deleted(t, p, d), p);
      && (q < p ==> line - 1 <= e && LineAfterDeletion(t, p, d, line) == line)
      && (p <= q ==> e <= line - 1)
      && (p <= q < p + d ==> line - 1 <= e + k && LineAfterDeletion(t, p, d, line) == e + 1)
      && (p + d <= q ==> e + k <= line - 1 && LineAfterDeletion(t, p, d, line) == line - k)
  {
    hide Deleted, LinesRemoved, LineCount, PositionFromLine, LineFromPosition, IsStart;
    LineStart(t, line - 1);
    var q: nat := PositionFromLine(t, line - 1);
    EndOfDeletion(t, p, d);
    if q < p { LineInFront(t, p, d, q); } else { LineWithin(t, p, d, q); }
    if p + d <= q { LineFurtherOn(t, p, d, q); }
  }

  /** A line that starts at the place or behind it is not above the place's new line. */
  lemma NotAbove(now: string, p: nat, del: string, q: nat)
    requires p <= q && p <= |now| && (q == 0 || IsStart(Inserted(now, p, del), q))
    ensures LineFromPosition(now, p) <= LineFromPosition(Inserted(now, p, del), q)
  {
    var t := Inserted(now, p, del);
    PlaceLine(now, p, del);
    StartsSplit(t, 0, p, q);
    hide Inserted, IsStart;
  }

  lemma WhollyIs(t: string, p: nat, d: nat, line: int)
    requires p + d <= |t| && 1 <= line <= LineCount(t)
    ensures WhollyDeleted(t, p, d, line)
        <==> p <= PositionFromLine(t, line - 1) && line <= LineFromPosition(t, p + d)
  {
    if line < LineCount(t) {
      StartsBy(t, line, p + d);
    } else {
      LinesBehind(t, p + d);
    }
    hide LineCount, PositionFromLine, LineFromPosition;
  }

  /** A breakpoint goes with its line when that is wholly deleted; otherwise it follows what
      is left of its line unless that line is cut short, when it is lost. */
  lemma LineFollowsDeletion(t: string, p: nat, d: nat, line: int)
    requires p + d <= |t| && 0 < d && 1 <= line <= LineCount(t)
    ensures var to := Moved(line, Reported(Deleted(t, p, d), p), -LinesRemoved(t, p, d));
      && (to == None <==> WhollyDeleted(t, p, d, line) || CutShort(t, p, d, line))
      && (to.Some? ==> to == Some(LineAfterDeletion(t, p, d, line)))
  {
    hide LinesRemoved, Deleted, LineAfterDeletion, LineCount, PositionFromLine, LineFromPosition, WhollyDeleted;
    PlaceAfterDeletion(t, p, d, line);
    EndOfDeletion(t, p, d);
    WhollyIs(t, p, d, line);
  }

  /** The breakpoints that keep some of their line, each with what is left of it. */
  function CarriedByDeletion(ms: seq<Mark>, file: string, t: string, p: nat, d: nat): seq<Mark>
    requires p + d <= |t| && InText(ms, file, t)
  {
    if ms == [] then []
    else
      var rest := CarriedByDeletion(ms[1..], file, t, p, d);
      if ms[0].file != file then [ms[0]] + rest
      else if WhollyDeleted(t, p, d, ms[0].line) then rest
      else [ms[0].(line := LineAfterDeletion(t, p, d, ms[0].line))] + rest
  }

  /** All breakpoints on lines that are not wholly deleted follow them exactly when none of
      these lines is cut short. */
  lemma {:induction false} BreakpointsFollowDeletion(ms: seq<Mark>, file: string, t: string, p: nat, d: nat)
    requires p + d <= |t| && 0 < d && InText(ms, file, t)
    ensures var after := OnEditorModified(ms, file, Deleted(t, p, d), p, -LinesRemoved(t, p, d));
      && (after == CarriedByDeletion(ms, file, t, p, d)
          <==> forall m :: m in ms && m.file == file ==> !CutShort(t, p, d, m.line))
      && |after| <= |CarriedByDeletion(ms, file, t, p, d)|
  {
    if ms != [] {
      var start, k := Reported(Deleted(t, p, d), p), -LinesRemoved(t, p, d);
      BreakpointsFollowDeletion(ms[1..], file, t, p, d);
      if ms[0].file == file { LineFollowsDeletion(t, p, d, ms[0].line); CutNotWhole(t, p, d, ms[0].line); }
      UntouchedAfter(ms, file, start);
      UntouchedAfter(ms[1..], file, start);
      hide Deleted, LinesRemoved, LineCount, Reported, CutShort, WhollyDeleted, LineAfterDeletion, Moved;
      assert forall m :: m in ms <==> m == ms[0] || m in ms[1..];
      match Followed(ms[0], file, start, k)
      case None =>
      case Some(m) =>
        ConsEqual(m, After(ms[1..], file, start, k), m, CarriedByDeletion(ms[1..], file, t, p, d));
    }
  }

  lemma CutNotWhole(t: string, p: nat, d: nat, line: int)
    requires p + d <= |t| && 0 < d && 1 <= line <= LineCount(t)
    ensures !(CutShort(t, p, d, line) && WhollyDeleted(t, p, d, line))
    ensures LinesRemoved(t, p, d) == 0 ==> !CutShort(t, p, d, line)
  {
  }

  // ------------------------------------------------------------------------------ undo

  /** Both moves of a line, there and back. */
  function MovedBack(line: int, start: int, lines: int, start2: int): Option<int> {
    match Moved(line, start, lines)
    case None => None
    case Some(to) => Moved(to, start2, -lines)
  }

  /** Two opposite shifts give the list back exactly when they give every line back. */
  lemma {:induction false} ThereAndBack(ms: seq<Mark>, file: string, start: int, lines: int, start2: int)
    requires lines != 0
    ensures var back := After(After(ms, file, start, lines), file, start2, -lines);
      && (back == ms
          <==> forall m :: m in ms && m.file == file ==> MovedBack(m.line, start, lines, start2) == Some(m.line))
      && |back| <= |ms|
  {
    if ms != [] {
      ThereAndBack(ms[1..], file, start, lines, start2);
      hide Moved;
      assert forall m :: m in ms <==> m == ms[0] || m in ms[1..];
      var rest := After(ms[1..], file, start, lines);
      match Followed(ms[0], file, start, lines)
      case None =>
      case Some(m) =>
        assert ([m] + rest)[0] == m && ([m] + rest)[1..] == rest;
        match Followed(m, file, start2, -lines)
        case None =>
        case Some(w) =>
          ConsEqual(w, After(rest, file, start2, -lines), ms[0], ms[1..]);
          assert ms == [ms[0]] + ms[1..];
    }
  }

  /** The breakpoints of one debugger after an insertion and its undo. */
  function InsertedAndUndone(ms: seq<Mark>, file: string, t: string, p: nat, ins: string): seq<Mark>
    requires p <= |t|
  {
    var k := LinesAdded(t, p, ins);
    OnEditorModified(OnEditorModified(ms, file, Inserted(t, p, ins), p, k), file, t, p, -k)
  }

  /** How far the line that is reported for the undo is from the one reported before. */
  lemma PlaceShift(t: string, p: nat, ins: string)
    requires p <= |t| && ins != ""
    ensures Reported(t, p) - Reported(Inserted(t, p, ins), p)
         == if StartsAt(t, p) && Joins(t, p, ins) then 1 else if Splits(t, p, ins) then -1 else 0
  {
    PlaceLine(t, p, ins);
    StartAt(t, p, ins);
    hide Inserted, LineFromPosition;
  }

  lemma BackAfterAdding(line: int, start: int, lines: int, start2: int)
    requires lines > 0 && -1 <= start2 - start <= 1
    ensures MovedBack(line, start, lines, start2) == Some(line) <==> !(start2 <= line <= start)
  {
  }

  lemma BackAfterRemoving(line: int, start: int, lines: int, start2: int)
    requires lines > 0 && -1 <= start2 - start <= 1
    ensures MovedBack(line, start, -lines, start2) == Some(line) <==> !(start <= line <= start2 + lines)
  {
  }

  lemma BackOnListAdded(ms: seq<Mark>, file: string, start: int, lines: int, start2: int)
    requires lines > 0 && -1 <= start2 - start <= 1
    ensures After(After(ms, file, start, lines), file, start2, -lines) == ms
        <==> forall m :: m in ms && m.file == file ==> !(start2 <= m.line <= start)
  {
    ThereAndBack(ms, file, start, lines, start2);
    hide After, MovedBack;
    forall line ensures MovedBack(line, start, lines, start2) == Some(line) <==> !(start2 <= line <= start) {
      BackAfterAdding(line, start, lines, start2);
    }
  }

  lemma BackOnListRemoved(ms: seq<Mark>, file: string, start: int, lines: int, start2: int)
    requires lines > 0 && -1 <= start2 - start <= 1
    ensures After(After(ms, file, start, -lines), file, start2, lines) == ms
        <==> forall m :: m in ms && m.file == file ==> !(start <= m.line <= start2 + lines)
  {
    ThereAndBack(ms, file, start, -lines, start2);
    assert -(-lines) == lines;
    hide After, MovedBack;
    forall line ensures MovedBack(line, start, -lines, start2) == Some(line) <==> !(start <= line <= start2 + lines) {
      BackAfterRemoving(line, start, lines, start2);
    }
  }

  /** Undoing an insertion restores the breakpoints exactly when none is on the line of the
      place: by PlaceShift that is one line, except that it is none when the LF of a CRLF had
      been added and two when a CRLF had been split. */
  lemma UndoneInsertion(ms: seq<Mark>, file: string, t: string, p: nat, ins: string)
    requires p <= |t| && ins != ""
    ensures var u := Inserted(t, p, ins);
      InsertedAndUndone(ms, file, t, p, ins) == ms
      <==> (LinesAdded(t, p, ins) == 0
            || forall m :: m in ms && m.file == file ==> !(Reported(t, p) <= m.line <= Reported(u, p)))
  {
    hide Inserted, LinesAdded, Reported, After, Joins, Splits, StartsAt;
    InsertionAdds(t, p, ins);
    PlaceShift(t, p, ins);
    if LinesAdded(t, p, ins) != 0 {
      BackOnListAdded(ms, file, Reported(Inserted(t, p, ins), p), LinesAdded(t, p, ins), Reported(t, p));
    }
  }

  /** Otherwise, unless a CRLF had been split, exactly the breakpoints on that line are lost. */
  lemma LostByUndo(ms: seq<Mark>, file: string, t: string, p: nat, ins: string)
    requires p <= |t| && ins != "" && !Splits(t, p, ins) && LinesAdded(t, p, ins) > 0
    ensures InsertedAndUndone(ms, file, t, p, ins)
         == OutsideOf(ms, file, Reported(t, p), Reported(Inserted(t, p, ins), p))
  {
    hide Inserted, LinesAdded, Reported, After, OutsideOf, Joins, Splits, StartsAt;
    PlaceShift(t, p, ins);
    AddAndTakeBack(ms, file, Reported(Inserted(t, p, ins), p), LinesAdded(t, p, ins), Reported(t, p));
  }

  lemma {:induction false} AddAndTakeBack(ms: seq<Mark>, file: string, start: int, lines: int, start2: int)
    requires lines > 0 && start <= start2 <= start + 1
    ensures After(After(ms, file, start, lines), file, start2, -lines) == OutsideOf(ms, file, start2, start)
  {
    if ms != [] {
      AddAndTakeBack(ms[1..], file, start, lines, start2);
      var rest := After(ms[1..], file, start, lines);
      var m := Followed(ms[0], file, start, lines).value;
      assert ([m] + rest)[1..] == rest;
    }
  }

  /** The breakpoints of one debugger after a deletion and its undo. */
  function DeletedAndUndone(ms: seq<Mark>, file: string, t: string, p: nat, d: nat): seq<Mark>
    requires p + d <= |t|
  {
    var k := LinesRemoved(t, p, d);
    OnEditorModified(OnEditorModified(ms, file, Deleted(t, p, d), p, -k), file, t, p, k)
  }

  /** Undoing a deletion restores the breakpoints exactly when none is on the lines from that
      of the place to that of the end of the deleted text. */
  lemma UndoneDeletion(ms: seq<Mark>, file: string, t: string, p: nat, d: nat)
    requires p + d <= |t| && 0 < d
    ensures var now, k := Deleted(t, p, d), LinesRemoved(t, p, d);
      DeletedAndUndone(ms, file, t, p, d) == ms
      <==> (k == 0 || forall m :: m in ms && m.file == file ==> !(Reported(now, p) <= m.line <= Reported(t, p) + k))
  {
    hide Inserted, Deleted, LinesAdded, LinesRemoved, Reported, LineFromPosition, After, Joins, Splits, StartsAt;
    DeletedInserted(t, p, d);
    EndOfDeletion(t, p, d);
    PlaceShift(Deleted(t, p, d), p, t[p..p + d]);
    if LinesRemoved(t, p, d) != 0 {
      BackOnListRemoved(ms, file, Reported(Deleted(t, p, d), p), LinesRemoved(t, p, d), Reported(t, p));
    }
  }
}
