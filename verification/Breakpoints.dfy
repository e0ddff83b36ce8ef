/** How the breakpoints of a debugger follow the lines of an edited file. */
module Breakpoints {
  import opened Basics

  datatype Mark = Mark(file: string, line: int, enabled: bool)

  // ------------------------------------------------------------------ specification

  /** Where a line goes when `lines` lines are added after line start, or -lines lines are
      removed from line start on. */
  function Moved(line: int, start: int, lines: int): Option<int> {
    if lines >= 0 then Some(if line > start then line + lines else line)
    else if line >= start - lines then Some(line + lines)
    else if line >= start then None
    else Some(line)
  }

  function Followed(m: Mark, file: string, start: int, lines: int): Option<Mark> {
    if m.file != file || lines == 0 then Some(m)
    else match Moved(m.line, start, lines)
         case Some(line) => Some(m.(line := line))
         case None => None
  }

  /** All the breakpoints after the edit. */
  function After(ms: seq<Mark>, file: string, start: int, lines: int): seq<Mark> {
    if ms == [] then []
    else
      var rest := After(ms[1..], file, start, lines);
      match Followed(ms[0], file, start, lines)
      case Some(m) => [m] + rest
      case None => rest
  }

  // ------------------------------------------------------------------------ classes

  class Breakpoint {
    const file: string
    var line: int
    var enabled: bool

    constructor (file: string, line: int, enabled: bool)
      ensures Value() == Mark(file, line, enabled)
    {
      this.file, this.line, this.enabled := file, line, enabled;
    }

    function Value(): Mark
      reads this
    {
      Mark(file, line, enabled)
    }
  }

  ghost function Values(bs: seq<Breakpoint>): (ms: seq<Mark>)
    reads bs
    ensures |ms| == |bs| && forall i :: 0 <= i < |bs| ==> ms[i] == bs[i].Value()
  {
    if bs == [] then [] else [bs[0].Value()] + Values(bs[1..])
  }

  function SetOf(bs: seq<Breakpoint>): set<Breakpoint> { set b | b in bs }

  predicate Distinct(bs: seq<Breakpoint>) {
    forall i, j :: 0 <= i < j < |bs| ==> bs[i] != bs[j]
  }

  /** bs without the members of gone. */
  ghost function Without(bs: seq<Breakpoint>, gone: set<Breakpoint>): (r: seq<Breakpoint>) {
    if bs == [] then []
    else (if bs[0] in gone then [] else [bs[0]]) + Without(bs[1..], gone)
  }

  lemma {:induction false} WithoutDistinct(bs: seq<Breakpoint>, gone: set<Breakpoint>)
    requires Distinct(bs)
    ensures Distinct(Without(bs, gone))
    ensures forall b :: b in Without(bs, gone) ==> b in bs
  {
    if bs != [] {
      WithoutDistinct(bs[1..], gone);
      forall b | b in bs[1..] ensures b in bs && b != bs[0] {
        var i :| 0 <= i < |bs| - 1 && bs[1..][i] == b;
        assert b == bs[i + 1];
      }
      var rest, r := Without(bs[1..], gone), Without(bs, gone);
      assert r == if bs[0] in gone then rest else [bs[0]] + rest;
      if bs[0] !in gone { assert forall i :: 1 <= i < |r| ==> r[i] == rest[i - 1] && r[i] in rest; }
    }
  }

  lemma {:induction false} WithoutTwice(bs: seq<Breakpoint>, a: set<Breakpoint>, b: set<Breakpoint>)
    ensures Without(Without(bs, a), b) == Without(bs, a + b)
  {
    if bs != [] {
      WithoutTwice(bs[1..], a, b);
      var rest := Without(bs[1..], a);
      assert Without(bs, a) == if bs[0] in a then rest else [bs[0]] + rest;
      assert ([bs[0]] + rest)[1..] == rest;
    }
  }

  lemma {:induction false} WithoutNone(bs: seq<Breakpoint>)
    ensures Without(bs, {}) == bs
  {
    if bs != [] { WithoutNone(bs[1..]); }
  }

  lemma {:induction false} WithoutOne(bs: seq<Breakpoint>, b: Breakpoint, i: nat)
    requires Distinct(bs) && i <= |bs| && b !in bs[..i] && (i < |bs| ==> bs[i] == b)
    ensures Without(bs, {b}) == if i < |bs| then bs[..i] + bs[i + 1..] else bs
  {
    if i > 0 {
      assert bs[0] in bs[..i];
      assert forall c :: c in bs[1..][..i - 1] ==> c in bs[..i];
      WithoutOne(bs[1..], b, i - 1);
      if i < |bs| { assert bs[..i] + bs[i + 1..] == [bs[0]] + (bs[1..][..i - 1] + bs[1..][i..]); }
    } else if bs != [] {
      NotIn(bs[1..], b);
    }
  }

  lemma {:induction false} NotIn(bs: seq<Breakpoint>, b: Breakpoint)
    requires b !in bs
    ensures Without(bs, {b}) == bs
  {
    if bs != [] { NotIn(bs[1..], b); }
  }

  /** The values of what is left, when each breakpoint has moved as it should and those that
      should go are gone. */
  lemma {:induction false} ValuesLeft(bs: seq<Breakpoint>, gone: set<Breakpoint>, was: seq<Mark>,
                                      file: string, start: int, lines: int)
    requires |was| == |bs|
    requires forall i :: 0 <= i < |bs| ==> Stands(bs[i], gone, Followed(was[i], file, start, lines))
    ensures Values(Without(bs, gone)) == After(was, file, start, lines)
  {
    if bs != [] {
      forall i | 0 <= i < |bs| - 1 ensures Stands(bs[1..][i], gone, Followed(was[1..][i], file, start, lines)) {
        assert Stands(bs[i + 1], gone, Followed(was[i + 1], file, start, lines));
      }
      ValuesLeft(bs[1..], gone, was[1..], file, start, lines);
      assert Stands(bs[0], gone, Followed(was[0], file, start, lines));
      var rest := Without(bs[1..], gone);
      assert ([bs[0]] + rest)[1..] == rest;
    }
  }

  predicate Stands(b: Breakpoint, gone: set<Breakpoint>, m: Option<Mark>)
    reads b
  {
    match m
    case None => b in gone
    case Some(value) => b !in gone && b.Value() == value
  }

  class DebuggerPlugin {
    var breakpoints: seq<Breakpoint>

    constructor ()
      ensures breakpoints == []
    {
      breakpoints := [];
    }

    /** ShiftBreakpoint changes the line of that breakpoint and nothing else. */
    method ShiftBreakpoint(index: nat, lines: int)
      requires index < |breakpoints|
      modifies breakpoints[index]
      ensures var b := breakpoints[index]; b.Value() == old(b.Value()).(line := old(b.line) + lines)
    {
      var b := breakpoints[index];
      b.line := b.line + lines;
    }

    /** DeleteBreakpoint removes that breakpoint and keeps the others in their order. */
    method DeleteBreakpoint(b: Breakpoint)
      requires Distinct(breakpoints)
      modifies this`breakpoints
      ensures breakpoints == Without(old(breakpoints), {b})
    {
      var i := 0;
      while i < |breakpoints| && breakpoints[i] != b
        invariant i <= |breakpoints| && b !in breakpoints[..i]
      {
        i := i + 1;
      }
      WithoutOne(breakpoints, b, i);
      if i < |breakpoints| { breakpoints := breakpoints[..i] + breakpoints[i + 1..]; }
    }

    ghost predicate IndicesFor(filename: string, indices: seq<nat>)
      reads this
    {
      && (forall k, l :: 0 <= k < l < |indices| ==> indices[k] < indices[l])
      && (forall k :: 0 <= k < |indices| ==> indices[k] < |breakpoints|)
      && (forall i: nat :: i < |breakpoints| ==> (breakpoints[i].file == filename <==> i in indices))
    }

    method EditorLinesAddedOrRemoved(editor: Option<string>, startline: int, lines: int)
      requires Distinct(breakpoints)
      modifies this`breakpoints, breakpoints
      ensures Values(breakpoints) == match editor
                case None => old(Values(breakpoints))
                case Some(filename) => After(old(Values(breakpoints)), filename, startline, lines)
    {
      if editor == None || lines == 0 {
        if editor != None { UntouchedAfter(Values(breakpoints), editor.value, startline); }
        return;
      }
      var filename := editor.value;
      var indices := BreakpointsForFile(filename);
      if lines < 0 {
        RemoveLines(filename, indices, startline, -lines);
      } else {
        AddLines(filename, indices, startline, lines);
      }
    }

    method BreakpointsForFile(filename: string) returns (indices: seq<nat>)
      ensures IndicesFor(filename, indices)
    {
      indices := [];
      for ii := 0 to |breakpoints|
        invariant forall k, l :: 0 <= k < l < |indices| ==> indices[k] < indices[l]
        invariant forall k :: 0 <= k < |indices| ==> indices[k] < ii
        invariant forall i: nat :: i < ii ==> (breakpoints[i].file == filename <==> i in indices)
      {
        if breakpoints[ii].file == filename { indices := indices + [ii]; }
      }
    }

    method AddLines(filename: string, indices: seq<nat>, startline: int, lines: int)
      requires Distinct(breakpoints) && IndicesFor(filename, indices) && lines > 0
      modifies breakpoints
      ensures Values(breakpoints) == After(old(Values(breakpoints)), filename, startline, lines)
    {
      ghost var was := Values(breakpoints);
      for k := 0 to |indices|
        invariant forall i: nat :: i < |breakpoints| ==>
          breakpoints[i].Value() ==
          if i in indices[..k] then was[i].(line := Moved(was[i].line, startline, lines).value) else was[i]
      {
        var it := indices[k];
        assert it !in indices[..k];
        if breakpoints[it].line > startline { ShiftBreakpoint(it, lines); }
      }
      assert indices[..|indices|] == indices;
      WithoutNone(breakpoints);
      ValuesLeft(breakpoints, {}, was, filename, startline, lines);
    }

    method RemoveLines(filename: string, indices: seq<nat>, startline: int, lines: int)
      requires Distinct(breakpoints) && IndicesFor(filename, indices) && lines > 0
      modifies this`breakpoints, breakpoints
      ensures Values(breakpoints) == After(old(Values(breakpoints)), filename, startline, -lines)
    {
      hide Without, After, Followed, Values, IndicesFor, Distinct, SetOf;
      ghost var was, bs := Values(breakpoints), breakpoints;
      var toRemove := ShiftOrCollect(filename, indices, startline, lines);
      DeleteAll(toRemove);
      ValuesLeft(bs, SetOf(toRemove), was, filename, startline, -lines);
    }

    method DeleteAll(toRemove: seq<Breakpoint>)
      requires Distinct(breakpoints)
      modifies this`breakpoints
      ensures breakpoints == Without(old(breakpoints), SetOf(toRemove))
    {
      ghost var bs := breakpoints;
      WithoutNone(bs);
      assert SetOf(toRemove[..0]) == {};
      for k := 0 to |toRemove|
        invariant breakpoints == Without(bs, SetOf(toRemove[..k]))
      {
        WithoutDistinct(bs, SetOf(toRemove[..k]));
        DeleteBreakpoint(toRemove[k]);
        WithoutTwice(bs, SetOf(toRemove[..k]), {toRemove[k]});
        assert toRemove[..k + 1] == toRemove[..k] + [toRemove[k]];
        assert SetOf(toRemove[..k + 1]) == SetOf(toRemove[..k]) + {toRemove[k]};
      }
      assert toRemove[..|toRemove|] == toRemove;
    }

    method ShiftOrCollect(filename: string, indices: seq<nat>, startline: int, lines: int)
      returns (toRemove: seq<Breakpoint>)
      requires Distinct(breakpoints) && IndicesFor(filename, indices) && lines > 0
      modifies breakpoints
      ensures forall i :: 0 <= i < |breakpoints| ==>
        Stands(breakpoints[i], SetOf(toRemove), Followed(old(Values(breakpoints))[i], filename, startline, -lines))
    {
      ghost var was := Values(breakpoints);
      var endline := startline + lines - 1;
      toRemove := [];
      for k := 0 to |indices|
        invariant forall i: nat :: i < |breakpoints| ==>
          if i in indices[..k]
          then Stands(breakpoints[i], SetOf(toRemove), Followed(was[i], filename, startline, -lines))
          else breakpoints[i].Value() == was[i] && breakpoints[i] !in toRemove
      {
        var it := indices[k];
        assert it !in indices[..k];
        var b := breakpoints[it];
        if b.line > endline {
          ShiftBreakpoint(it, -lines);
        } else if b.line >= startline && b.line <= endline {
          toRemove := toRemove + [b];
        }
      }
      assert indices[..|indices|] == indices;
    }
  }

  lemma {:induction false} UntouchedAfter(ms: seq<Mark>, file: string, start: int)
    ensures After(ms, file, start, 0) == ms
  {
    if ms != [] { UntouchedAfter(ms[1..], file, start); }
  }

  // ----------------------------------------------------------------------- theorems

  function OfOtherFiles(ms: seq<Mark>, file: string): seq<Mark> {
    if ms == [] then []
    else (if ms[0].file == file then [] else [ms[0]]) + OfOtherFiles(ms[1..], file)
  }

  function OfFile(ms: seq<Mark>, file: string): seq<Mark> {
    if ms == [] then []
    else (if ms[0].file == file then [ms[0]] else []) + OfFile(ms[1..], file)
  }

  /** The breakpoints of other files stay as they are and in their order. */
  lemma {:induction false} OtherFilesUntouched(ms: seq<Mark>, file: string, start: int, lines: int)
    ensures OfOtherFiles(After(ms, file, start, lines), file) == OfOtherFiles(ms, file)
  {
    if ms != [] {
      OtherFilesUntouched(ms[1..], file, start, lines);
      var rest := After(ms[1..], file, start, lines);
      match Followed(ms[0], file, start, lines)
      case Some(m) => assert ([m] + rest)[1..] == rest;
      case None =>
    }
  }

  /** No two breakpoints of a file on the same line. */
  predicate OnDistinctLines(ms: seq<Mark>) {
    forall i, j :: 0 <= i < j < |ms| ==> ms[i].file != ms[j].file || ms[i].line != ms[j].line
  }

  lemma {:induction false} AfterComesFrom(ms: seq<Mark>, file: string, start: int, lines: int, m: Mark)
    requires m in After(ms, file, start, lines)
    ensures exists w :: w in ms && Followed(w, file, start, lines) == Some(m)
  {
    var rest := After(ms[1..], file, start, lines);
    if Followed(ms[0], file, start, lines) == Some(m) {
      assert ms[0] in ms;
    } else {
      AfterComesFrom(ms[1..], file, start, lines, m);
      var w :| w in ms[1..] && Followed(w, file, start, lines) == Some(m);
      assert w in ms;
    }
  }

  /** An edit never brings two breakpoints together on one line. */
  lemma {:induction false} NeverMerged(ms: seq<Mark>, file: string, start: int, lines: int)
    requires OnDistinctLines(ms)
    ensures OnDistinctLines(After(ms, file, start, lines))
  {
    if ms != [] {
      NeverMerged(ms[1..], file, start, lines);
      var rest := After(ms[1..], file, start, lines);
      match Followed(ms[0], file, start, lines)
      case None =>
      case Some(m) =>
        forall r | r in rest ensures r.file != m.file || r.line != m.line {
          AfterComesFrom(ms[1..], file, start, lines, r);
          var w :| w in ms[1..] && Followed(w, file, start, lines) == Some(r);
          var i :| 0 <= i < |ms| - 1 && ms[1..][i] == w;
          assert ms[i + 1] == w;
        }
    }
  }

  /** As shifts of line numbers, adding lines after start and removing them from start + 1 on
      restores every breakpoint. The reported start lines of a real edit and of its undo are
      often equal instead (BreakpointEdits.dfy). */
  lemma {:induction false} AddThenRemove(ms: seq<Mark>, file: string, start: int, lines: int)
    requires lines > 0
    ensures After(After(ms, file, start, lines), file, start + 1, -lines) == ms
  {
    if ms != [] {
      AddThenRemove(ms[1..], file, start, lines);
      var rest := After(ms[1..], file, start, lines);
      var m := Followed(ms[0], file, start, lines).value;
      assert ([m] + rest)[1..] == rest;
    }
  }

  /** Likewise, removing lines and adding as many again loses exactly the breakpoints on them. */
  lemma {:induction false} RemoveThenAdd(ms: seq<Mark>, file: string, start: int, lines: int)
    requires lines > 0
    ensures After(After(ms, file, start + 1, -lines), file, start, lines)
        == OutsideOf(ms, file, start + 1, start + lines)
  {
    if ms != [] {
      RemoveThenAdd(ms[1..], file, start, lines);
      var rest := After(ms[1..], file, start + 1, -lines);
      match Followed(ms[0], file, start + 1, -lines)
      case Some(m) => assert ([m] + rest)[1..] == rest;
      case None =>
    }
  }

  function OutsideOf(ms: seq<Mark>, file: string, first: int, last: int): seq<Mark> {
    if ms == [] then []
    else (if ms[0].file == file && first <= ms[0].line <= last then [] else [ms[0]])
         + OutsideOf(ms[1..], file, first, last)
  }

  /** On lists of whole lines: lines added at the end of line start leave each breakpoint with
      its line. For text inserted at any place see BreakpointEdits.LineFollowsInsertion. */
  lemma LineFollowsText<T>(text: seq<T>, added: seq<T>, start: nat, line: nat)
    requires 1 <= line <= |text| && start <= |text|
    ensures var to := Moved(line, start, |added|);
      to.Some? && (text[..start] + added + text[start..])[to.value - 1] == text[line - 1]
  {
  }

  /** Whole lines removed from the beginning of line start on take exactly their breakpoints
      with them. For text deleted at any place see BreakpointEdits.LineFollowsDeletion. */
  lemma LineFollowsRemoval<T>(text: seq<T>, start: nat, lines: int, line: nat)
    requires 1 <= line <= |text| && 1 <= start && lines > 0 && start - 1 + lines <= |text|
    ensures match Moved(line, start, -lines)
      case None => start <= line < start + lines
      case Some(to) =>
        && !(start <= line < start + lines)
        && (text[..start - 1] + text[start - 1 + lines..])[to - 1] == text[line - 1]
  {
  }
}
