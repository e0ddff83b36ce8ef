/** Redrawing the breakpoint markers of an editor by toggling. A line of the text control
    holds any number of handles of each marker; deleting removes one of them. */
module Markers {

  const BREAKPOINT_OTHER_MARKER: nat := 1
  const BREAKPOINT_DISABLED_MARKER: nat := 2
  const BREAKPOINT_MARKER: nat := 3

  predicate BreakpointKind(k: nat) { 1 <= k <= 3 }

  datatype Breakpoint = Breakpoint(location: string, line: int, enabled: bool)

  type Debugger = seq<Breakpoint>

  type Marks = seq<multiset<nat>>

  // ------------------------------------------------------------------ specification

  datatype Toggle = Toggle(kind: nat, line: int)

  /** How often a marker is toggled on a line. */
  function Count(ts: seq<Toggle>, kind: nat, line: int): nat {
    if ts == [] then 0
    else Count(ts[..|ts| - 1], kind, line) + if ts[|ts| - 1] == Toggle(kind, line) then 1 else 0
  }

  function KindOf(b: Breakpoint, active: bool): nat {
    if !active then BREAKPOINT_OTHER_MARKER
    else if b.enabled then BREAKPOINT_MARKER else BREAKPOINT_DISABLED_MARKER
  }

  /** Markers are on lines counted from 0; line -1 stands for the line of the caret. */
  function EffectiveLine(line: int, current: int): int { if line == -1 then current else line }

  function TogglesOf(bs: Debugger, active: bool, filename: string, current: int): seq<Toggle> {
    if bs == [] then []
    else
      var b := bs[|bs| - 1];
      TogglesOf(bs[..|bs| - 1], active, filename, current)
      + if b.location == filename then [Toggle(KindOf(b, active), EffectiveLine(b.line - 1, current))] else []
  }

  /** The toggles for all debuggers; the one with index active is the active one. */
  function AllToggles(ds: seq<Debugger>, active: int, filename: string, current: int): seq<Toggle> {
    if ds == [] then []
    else AllToggles(ds[..|ds| - 1], active, filename, current)
         + TogglesOf(ds[|ds| - 1], active == |ds| - 1, filename, current)
  }

  /** The number of handles after a toggle, if it was this marker on this line. */
  function Flipped(n: nat, toggled: bool): nat {
    if !toggled then n else if n > 0 then n - 1 else 1
  }

  /** Marks shows each breakpoint marker on the lines where it is toggled an odd number of
      times, and the other markers as they were. */
  ghost predicate Shows(marks: Marks, was: Marks, ts: seq<Toggle>) {
    && |marks| == |was|
    && forall i, k :: 0 <= i < |marks| ==>
         marks[i][k] == if BreakpointKind(k) then Count(ts, k, i) % 2 else was[i][k]
  }

  function Handles(marks: Marks, kind: nat): nat {
    if marks == [] then 0 else Handles(marks[..|marks| - 1], kind) + marks[|marks| - 1][kind]
  }

  /** The lines before n have none of the marker; elsewhere only that marker got fewer. */
  ghost predicate Clearing(marks: Marks, was: Marks, kind: nat, n: int) {
    && |marks| == |was|
    && (forall i, k :: 0 <= i < |marks| && k != kind ==> marks[i][k] == was[i][k])
    && (forall i :: 0 <= i < |marks| && i < n ==> marks[i][kind] == 0)
  }

  // -------------------------------------------------------------------------- class

  class Editor {
    const filename: string
    var marks: Marks
    var currentLine: int

    constructor (filename: string, lines: nat)
      requires lines > 0
      ensures Valid() && this.filename == filename && marks == seq(lines, i => multiset{})
    {
      this.filename, marks, currentLine := filename, seq(lines, i => multiset{}), 0;
    }

    /** The caret is on one of the lines. */
    ghost predicate Valid()
      reads this
    {
      0 <= currentLine < |marks|
    }

    // The text control.

    method MarkerAdd(line: int, marker: nat)
      modifies this`marks
      ensures |marks| == |old(marks)|
      ensures forall i, k :: 0 <= i < |marks| ==>
        marks[i][k] == old(marks)[i][k] + if i == line && k == marker then 1 else 0
    {
      if 0 <= line < |marks| { marks := marks[line := marks[line] + multiset{marker}]; }
    }

    method MarkerDelete(line: int, marker: nat)
      modifies this`marks
      ensures |marks| == |old(marks)|
      ensures forall i, k :: 0 <= i < |marks| ==>
        marks[i][k] == old(marks)[i][k] - if i == line && k == marker && old(marks)[i][k] > 0 then 1 else 0
    {
      if 0 <= line < |marks| { marks := marks[line := marks[line] - multiset{marker}]; }
    }

    /** The first line from `line` on that has the marker, or -1. */
    method MarkerNext(line: nat, marker: nat) returns (r: int)
      ensures r == -1 || (line <= r < |marks| && marker in marks[r])
      ensures forall i :: line <= i < (if r == -1 then |marks| else r) ==> marker !in marks[i]
    {
      r := line;
      while r < |marks|
        invariant line <= r
        invariant forall i :: line <= i < r && i < |marks| ==> marker !in marks[i]
      {
        if marker in marks[r] { return; }
        r := r + 1;
      }
      r := -1;
    }

    // The editor.

    predicate LineHasMarker(marker: nat, line: int)
      reads this
    {
      var l := EffectiveLine(line, currentLine);
      0 <= l < |marks| && marker in marks[l]
    }

    method MarkerToggle(marker: nat, line: int)
      modifies this`marks
      ensures |marks| == |old(marks)|
      ensures var l := EffectiveLine(line, currentLine);
        forall i, k :: 0 <= i < |marks| ==> marks[i][k] == Flipped(old(marks)[i][k], i == l && k == marker)
    {
      var l := if line == -1 then currentLine else line;
      if LineHasMarker(marker, l) {
        MarkerDelete(l, marker);
      } else {
        MarkerAdd(l, marker);
      }
    }

    /** One of the clearing loops. */
    method ClearMarker(marker: nat)
      modifies this`marks
      ensures Clearing(marks, old(marks), marker, |marks|)
    {
      var line := MarkerNext(0, marker);
      while line != -1
        invariant line == -1 || (0 <= line < |marks| && marker in marks[line])
        invariant Clearing(marks, old(marks), marker, if line == -1 then |marks| else line)
        decreases Handles(marks, marker)
      {
        ghost var before := marks;
        MarkerToggle(marker, line);
        FewerHandles(before, marks, marker, line);
        line := MarkerNext(line, marker);
      }
    }

    method RefreshBreakpointMarkers(debuggers: seq<Debugger>, active: int)
      requires Valid()
      modifies this`marks
      ensures Valid() && Shows(marks, old(marks), AllToggles(debuggers, active, filename, currentLine))
    {
      ghost var was := marks;
      ClearMarker(BREAKPOINT_MARKER);
      ClearMarker(BREAKPOINT_DISABLED_MARKER);
      ClearMarker(BREAKPOINT_OTHER_MARKER);
      for it := 0 to |debuggers|
        invariant Shows(marks, was, AllToggles(debuggers[..it], active, filename, currentLine))
      {
        ShowDebugger(debuggers[it], it == active, was, AllToggles(debuggers[..it], active, filename, currentLine));
        assert debuggers[..it + 1][..it] == debuggers[..it];
      }
      assert debuggers[..|debuggers|] == debuggers;
    }

    /** The markers of the breakpoints that one debugger has in this file. */
    method ShowDebugger(bs: Debugger, active: bool, ghost was: Marks, ghost before: seq<Toggle>)
      requires Shows(marks, was, before)
      modifies this`marks
      ensures Shows(marks, was, before + TogglesOf(bs, active, filename, currentLine))
    {
      assert before + [] == before;
      for ii := 0 to |bs|
        invariant Shows(marks, was, before + TogglesOf(bs[..ii], active, filename, currentLine))
      {
        var bp := bs[ii];
        ghost var ts, now := before + TogglesOf(bs[..ii], active, filename, currentLine), marks;
        assert bs[..ii + 1][..ii] == bs[..ii];
        if bp.location == filename {
          var kind := if !active then BREAKPOINT_OTHER_MARKER
                      else if bp.enabled then BREAKPOINT_MARKER else BREAKPOINT_DISABLED_MARKER;
          MarkerToggle(kind, bp.line - 1);
          ghost var t := Toggle(kind, EffectiveLine(bp.line - 1, currentLine));
          ToggleShows(now, marks, was, ts, t);
          assert before + TogglesOf(bs[..ii + 1], active, filename, currentLine) == ts + [t];
        } else {
          assert before + TogglesOf(bs[..ii + 1], active, filename, currentLine) == ts;
        }
      }
      assert bs[..|bs|] == bs;
    }
  }

  lemma {:induction false} FewerHandles(a: Marks, b: Marks, kind: nat, line: nat)
    requires |a| == |b| && line < |a| && a[line][kind] > 0 && b[line][kind] == a[line][kind] - 1
    requires forall i :: 0 <= i < |a| && i != line ==> b[i][kind] == a[i][kind]
    ensures Handles(b, kind) == Handles(a, kind) - 1
  {
    var n := |a| - 1;
    if line < n { FewerHandles(a[..n], b[..n], kind, line); } else { SameHandles(a[..n], b[..n], kind); }
  }

  lemma {:induction false} SameHandles(a: Marks, b: Marks, kind: nat)
    requires |a| == |b| && forall i :: 0 <= i < |a| ==> b[i][kind] == a[i][kind]
    ensures Handles(b, kind) == Handles(a, kind)
  {
    if a != [] { SameHandles(a[..|a| - 1], b[..|a| - 1], kind); }
  }

  lemma ToggleShows(now: Marks, next: Marks, was: Marks, ts: seq<Toggle>, t: Toggle)
    requires Shows(now, was, ts) && |next| == |now| && BreakpointKind(t.kind)
    requires forall i, k :: 0 <= i < |now| ==> next[i][k] == Flipped(now[i][k], i == t.line && k == t.kind)
    ensures Shows(next, was, ts + [t])
  {
    forall i, k | 0 <= i < |now|
      ensures next[i][k] == if BreakpointKind(k) then Count(ts + [t], k, i) % 2 else was[i][k]
    {
      assert (ts + [t])[..|ts|] == ts;
      assert now[i][k] == if BreakpointKind(k) then Count(ts, k, i) % 2 else was[i][k];
    }
  }

  // ----------------------------------------------------------------------- theorems

  /** A breakpoint of this file wants marker 1 on its line when its debugger is not active,
      else marker 3 when it is enabled and 2 when not. Breakpoints count lines from 1; line 0
      stands for the line of the caret. */
  predicate Hits(b: Breakpoint, active: bool, filename: string, current: int, kind: nat, i: int) {
    && b.location == filename
    && (if b.line == 0 then i == current else i == b.line - 1)
    && kind == if !active then 1 else if b.enabled then 3 else 2
  }

  lemma HitsToggle(b: Breakpoint, active: bool, filename: string, current: int, kind: nat, i: int)
    ensures Hits(b, active, filename, current, kind, i) <==>
      b.location == filename && Toggle(KindOf(b, active), EffectiveLine(b.line - 1, current)) == Toggle(kind, i)
  {
  }

  /** Breakpoint j of debugger d does. */
  predicate HitsAt(ds: seq<Debugger>, active: int, filename: string, current: int, kind: nat, i: int, d: nat, j: nat) {
    d < |ds| && j < |ds[d]| && Hits(ds[d][j], d == active, filename, current, kind, i)
  }

  lemma {:induction false} CountAppend(a: seq<Toggle>, b: seq<Toggle>, kind: nat, i: int)
    ensures Count(a + b, kind, i) == Count(a, kind, i) + Count(b, kind, i)
  {
    if b == [] {
      assert a + b == a;
    } else {
      CountAppend(a, b[..|b| - 1], kind, i);
      assert (a + b)[..|a + b| - 1] == a + b[..|b| - 1];
    }
  }

  /** The breakpoints, each as its debugger's index and its own, that want the marker there. */
  function Wanting(ds: seq<Debugger>, active: int, filename: string, current: int, kind: nat, i: int): set<(nat, nat)> {
    set d: nat, j: nat | d < |ds| && j < |ds[d]| && HitsAt(ds, active, filename, current, kind, i, d, j) :: (d, j)
  }

  function WantingOf(bs: Debugger, active: bool, filename: string, current: int, kind: nat, i: int): set<nat> {
    set j: nat | j < |bs| && Hits(bs[j], active, filename, current, kind, i)
  }

  lemma WantingOfSplit(bs: Debugger, active: bool, filename: string, current: int, kind: nat, i: int)
    requires bs != []
    ensures var m := |bs| - 1;
      |WantingOf(bs, active, filename, current, kind, i)|
      == |WantingOf(bs[..m], active, filename, current, kind, i)|
         + if Hits(bs[m], active, filename, current, kind, i) then 1 else 0
  {
    hide Hits;
    var m := |bs| - 1;
    assert WantingOf(bs, active, filename, current, kind, i)
        == WantingOf(bs[..m], active, filename, current, kind, i)
           + if Hits(bs[m], active, filename, current, kind, i) then {m} else {};
  }

  lemma {:induction false} CountDebugger(bs: Debugger, active: bool, filename: string, current: int, kind: nat, i: int)
    ensures Count(TogglesOf(bs, active, filename, current), kind, i)
         == |WantingOf(bs, active, filename, current, kind, i)|
  {
    if bs != [] {
      var m := |bs| - 1;
      CountDebugger(bs[..m], active, filename, current, kind, i);
      WantingOfSplit(bs, active, filename, current, kind, i);
      HitsToggle(bs[m], active, filename, current, kind, i);
      hide WantingOf, KindOf, EffectiveLine, Hits;
      if bs[m].location == filename {
        var t := Toggle(KindOf(bs[m], active), EffectiveLine(bs[m].line - 1, current));
        CountAppend(TogglesOf(bs[..m], active, filename, current), [t], kind, i);
        assert [t][..0] == [];
      } else {
        assert TogglesOf(bs, active, filename, current) == TogglesOf(bs[..m], active, filename, current);
      }
    }
  }

  lemma LastDebugger(ds: seq<Debugger>, active: int, filename: string, current: int, kind: nat, i: int)
    requires ds != []
    ensures var m := |ds| - 1;
      Count(AllToggles(ds, active, filename, current), kind, i)
      == Count(AllToggles(ds[..m], active, filename, current), kind, i)
         + Count(TogglesOf(ds[m], active == m, filename, current), kind, i)
  {
    var m := |ds| - 1;
    CountAppend(AllToggles(ds[..m], active, filename, current),
                TogglesOf(ds[m], active == m, filename, current), kind, i);
  }

  function Paired(d: nat, js: set<nat>): set<(nat, nat)> { set j | j in js :: (d, j) }

  lemma {:induction false} PairedSize(d: nat, js: set<nat>)
    ensures |Paired(d, js)| == |js|
  {
    if js != {} {
      var j :| j in js;
      PairedSize(d, js - {j});
      assert Paired(d, js) == Paired(d, js - {j}) + {(d, j)};
    }
  }

  lemma WantingSplit(ds: seq<Debugger>, active: int, filename: string, current: int, kind: nat, i: int)
    requires ds != []
    ensures var m := |ds| - 1;
      |Wanting(ds, active, filename, current, kind, i)|
      == |Wanting(ds[..m], active, filename, current, kind, i)|
         + |WantingOf(ds[m], active == m, filename, current, kind, i)|
  {
    var m := |ds| - 1;
    var last := WantingOf(ds[m], active == m, filename, current, kind, i);
    hide Hits;
    assert Wanting(ds, active, filename, current, kind, i)
        == Wanting(ds[..m], active, filename, current, kind, i) + Paired(m, last);
    PairedSize(m, last);
  }

  /** A marker is toggled on a line once for each breakpoint that wants it there. */
  lemma {:induction false} CountWanting(ds: seq<Debugger>, active: int, filename: string, current: int,
                                        kind: nat, i: int)
    ensures Count(AllToggles(ds, active, filename, current), kind, i)
        == |Wanting(ds, active, filename, current, kind, i)|
  {
    if ds == [] {
      assert Wanting(ds, active, filename, current, kind, i) == {};
    } else {
      var m := |ds| - 1;
      LastDebugger(ds, active, filename, current, kind, i);
      WantingSplit(ds, active, filename, current, kind, i);
      CountWanting(ds[..m], active, filename, current, kind, i);
      CountDebugger(ds[m], active == m, filename, current, kind, i);
    }
  }

  /** A redraw leaves a breakpoint marker on a line exactly for an odd number of breakpoints
      that want it there; so the line shows its breakpoints exactly when their number is not
      even and positive. */
  lemma MarkersShowBreakpoints(marks: Marks, was: Marks, ds: seq<Debugger>, active: int, filename: string, current: int,
                               kind: nat, i: nat)
    requires Shows(marks, was, AllToggles(ds, active, filename, current)) && 1 <= kind <= 3 && i < |marks|
    ensures var wanting := Wanting(ds, active, filename, current, kind, i);
      && marks[i][kind] == |wanting| % 2
      && ((kind in marks[i] <==> wanting != {}) <==> !(|wanting| > 0 && |wanting| % 2 == 0))
  {
    CountWanting(ds, active, filename, current, kind, i);
    assert marks[i][kind] == Count(AllToggles(ds, active, filename, current), kind, i) % 2;
  }

  /** Markers of other kinds than 1, 2 and 3 stay as they were. */
  lemma OtherMarkersStay(marks: Marks, was: Marks, ts: seq<Toggle>, kind: nat, i: nat)
    requires Shows(marks, was, ts) && !(1 <= kind <= 3) && i < |marks|
    ensures |marks| == |was| && marks[i][kind] == was[i][kind]
  {
    var toggles := Count(ts, kind, i);
  }

  /** So two debuggers that are not active and have a breakpoint on the same line take each
      other's marker away, whatever the active one has. */
  lemma SharedLineShowsNothing(marks: Marks, was: Marks, a: Breakpoint, b: Breakpoint, own: Debugger, current: int)
    requires a.location == b.location && a.line == b.line && 0 <= EffectiveLine(b.line - 1, current) < |marks|
    requires Shows(marks, was, AllToggles([[a], [b], own], 2, b.location, current))
    ensures BREAKPOINT_OTHER_MARKER !in marks[EffectiveLine(b.line - 1, current)]
  {
    var i, ds := EffectiveLine(b.line - 1, current), [[a], [b], own];
    assert Wanting(ds, 2, b.location, current, BREAKPOINT_OTHER_MARKER, i) == {(0, 0), (1, 0)};
    MarkersShowBreakpoints(marks, was, ds, 2, b.location, current, BREAKPOINT_OTHER_MARKER, i);
  }

  /** So do two enabled breakpoints of the active debugger. */
  lemma SharedByOneDebugger(marks: Marks, was: Marks, filename: string, line: nat)
    requires line < |marks|
    requires var b := Breakpoint(filename, line + 1, true); Shows(marks, was, AllToggles([[b, b]], 0, filename, 0))
    ensures BREAKPOINT_MARKER !in marks[line]
  {
    var b := Breakpoint(filename, line + 1, true);
    assert Wanting([[b, b]], 0, filename, 0, BREAKPOINT_MARKER, line) == {(0, 0), (0, 1)};
    MarkersShowBreakpoints(marks, was, [[b, b]], 0, filename, 0, BREAKPOINT_MARKER, line);
  }
}
