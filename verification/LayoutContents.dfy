/** What a saved layout says: which pages it holds, in which order, with which marks and
    numbers, spelled out character by character. */
module LayoutContents {
  import opened Strings
  import opened Layout
  import FrameText

  /** An id is a project's title, a colon and the name of a file without a colon. */
  ghost predicate OfProject(id: string, title: string) {
    exists file :: ':' !in file && id == title + ":" + file
  }

  /** Pages of files that belong to a project are saved; with a project's title, of that
      project only. */
  ghost predicate Wanted(id: string, projectTitle: string) {
    if projectTitle != "" then OfProject(id, projectTitle)
    else exists title :: title != "" && OfProject(id, title)
  }

  lemma TitleOf(id: string, title: string)
    requires OfProject(id, title)
    ensures BeforeLast(id, ':') == title
  {
    var file :| ':' !in file && id == title + ":" + file;
    SplitAtLast(title, ':', file);
  }

  lemma HasTitle(id: string)
    requires BeforeLast(id, ':') != ""
    ensures OfProject(id, BeforeLast(id, ':'))
  {
    if ':' in id { var file := LastSplit(id, ':'); } else { NoSplitLast(id, ':'); }
  }

  lemma KeptExactly(id: string, projectTitle: string)
    ensures Kept(id, projectTitle) <==> Wanted(id, projectTitle)
  {
    hide OfProject;
    if Kept(id, projectTitle) { HasTitle(id); }
    if Wanted(id, projectTitle) {
      var title := if projectTitle != "" then projectTitle else var t :| t != "" && OfProject(id, t); t;
      TitleOf(id, title);
    }
  }

  predicate Increasing(picked: seq<nat>) {
    forall j, k :: 0 <= j < k < |picked| ==> picked[j] < picked[k]
  }

  // -------------------------------------------------------------------- one tab control

  /** A page's text: "*" for the notebook's current page, else "+" for the active page of its
      tab control; its number, a semicolon and its id. */
  function PageText(frame: Frame, p: nat, current: int): string
    requires p < |frame.pages|
  {
    (if frame.pages[p].index == current then "*" else if p == frame.active then "+" else "")
    + Decimal(frame.pages[p].index) + ";" + frame.pages[p].id
  }

  /** The picked pages, upTo a position, are the wanted ones, in order. */
  ghost predicate Picks(frame: Frame, picked: seq<nat>, upTo: nat, projectTitle: string)
    requires upTo <= |frame.pages|
  {
    && Increasing(picked)
    && (forall k :: 0 <= k < |picked| ==> picked[k] < upTo)
    && (forall p: nat :: p < upTo ==> (p in picked <==> Wanted(frame.pages[p].id, projectTitle)))
  }

  /** The tabs are those of the picked pages. */
  ghost predicate TabsSay(frame: Frame, tabs: seq<Tab>, picked: seq<nat>, current: int) {
    && |tabs| == |picked|
    && forall k :: 0 <= k < |picked| ==>
         picked[k] < |frame.pages| && TabText(tabs[k]) == PageText(frame, picked[k], current)
  }

  lemma {:induction false} KeptPicks(frame: Frame, upTo: nat, current: int, projectTitle: string)
    returns (picked: seq<nat>)
    requires upTo <= |frame.pages|
    ensures Picks(frame, picked, upTo, projectTitle)
    ensures TabsSay(frame, KeptTabs(frame, upTo, current, projectTitle), picked, current)
  {
    if upTo == 0 {
      picked := [];
    } else {
      var p := upTo - 1;
      picked := KeptPicks(frame, p, current, projectTitle);
      KeptExactly(frame.pages[p].id, projectTitle);
      hide Wanted, Kept, Picks, TabsSay, SavedTab;
      OneMorePick(frame, picked, p, projectTitle);
      if Kept(frame.pages[p].id, projectTitle) {
        OneMoreTab(frame, KeptTabs(frame, p, current, projectTitle), picked, p, current);
        picked := picked + [p];
      }
    }
  }

  lemma OneMoreTab(frame: Frame, tabs: seq<Tab>, picked: seq<nat>, p: nat, current: int)
    requires p < |frame.pages| && TabsSay(frame, tabs, picked, current)
    ensures TabsSay(frame, tabs + [SavedTab(frame, p, current)], picked + [p], current)
  {
    SavedText(frame, p, current);
    hide PageText, TabText, SavedTab;
  }

  lemma SavedText(frame: Frame, p: nat, current: int)
    requires p < |frame.pages|
    ensures TabText(SavedTab(frame, p, current)) == PageText(frame, p, current)
  {
  }

  lemma OneMorePick(frame: Frame, picked: seq<nat>, p: nat, projectTitle: string)
    requires p < |frame.pages| && Picks(frame, picked, p, projectTitle)
    ensures Picks(frame, if Wanted(frame.pages[p].id, projectTitle) then picked + [p] else picked, p + 1, projectTitle)
  {
    hide Wanted;
    assert forall q: nat :: q in picked + [p] <==> q in picked || q == p;
  }

  // -------------------------------------------------------------------- the whole layout

  /** The tab control has a page to save. */
  ghost predicate Holds(frame: Frame, projectTitle: string) {
    && frame.name != "dummy" && frame.hasTabs
    && exists p: nat :: p < |frame.pages| && Wanted(frame.pages[p].id, projectTitle)
  }

  /** The text of a pane: its name and the texts of its picked pages. */
  ghost predicate PaneSays(frame: Frame, text: string, current: int, projectTitle: string) {
    exists picked, texts ::
      && Picks(frame, picked, |frame.pages|, projectTitle)
      && |texts| == |picked| && (forall k :: 0 <= k < |picked| ==> texts[k] == PageText(frame, picked[k], current))
      && text == frame.name + "=" + Join(texts, ',')
  }

  lemma PaneSaved(frame: Frame, current: int, projectTitle: string)
    ensures var tabs := KeptTabs(frame, |frame.pages|, current, projectTitle);
      && PaneSays(frame, PaneText(Pane(frame.name, tabs)), current, projectTitle)
      && (tabs != [] <==> exists p: nat :: p < |frame.pages| && Wanted(frame.pages[p].id, projectTitle))
  {
    var picked := KeptPicks(frame, |frame.pages|, current, projectTitle);
    var tabs := KeptTabs(frame, |frame.pages|, current, projectTitle);
    hide Wanted, KeptTabs, PageText, Join;
    assert TabsSay(frame, tabs, picked, current) && |TabTexts(tabs)| == |picked|;
    if picked != [] { assert picked[0] in picked; }
  }

  /** The panes are those of the picked frames, which are the ones with a page to save. */
  ghost predicate PanesOf(frames: seq<Frame>, picked: seq<nat>, panes: seq<Pane>, current: int, projectTitle: string) {
    && Increasing(picked) && |panes| == |picked|
    && (forall i: nat :: i in picked <==> i < |frames| && Holds(frames[i], projectTitle))
    && (forall k :: 0 <= k < |picked| ==>
          picked[k] < |frames| && PaneIs(frames[picked[k]], panes[k], current, projectTitle))
  }

  ghost predicate PaneIs(frame: Frame, pane: Pane, current: int, projectTitle: string) {
    pane.name == frame.name && PaneSays(frame, PaneText(pane), current, projectTitle)
  }

  lemma OneMoreFrame(frames: seq<Frame>, frame: Frame, picked: seq<nat>, panes: seq<Pane>, pane: Pane,
                     current: int, projectTitle: string)
    requires PanesOf(frames, picked, panes, current, projectTitle)
    ensures Holds(frame, projectTitle) && PaneIs(frame, pane, current, projectTitle) ==>
              PanesOf(frames + [frame], picked + [|frames|], panes + [pane], current, projectTitle)
    ensures !Holds(frame, projectTitle) ==> PanesOf(frames + [frame], picked, panes, current, projectTitle)
  {
    hide Holds, PaneIs;
    var more, now := frames + [frame], picked + [|frames|];
    assert forall i :: 0 <= i < |frames| ==> more[i] == frames[i];
    assert forall k :: 0 <= k < |picked| ==> now[k] == picked[k] && picked[k] in picked;
    assert now[|picked|] == |frames|;
    forall i: nat ensures i in now <==> i in picked || i == |frames| {}
  }

  lemma LastFrame(frames: seq<Frame>, frame: Frame, current: int, projectTitle: string) returns (pane: Pane)
    ensures PaneIs(frame, pane, current, projectTitle)
    ensures KeptPanes(frames + [frame], current, projectTitle)
         == KeptPanes(frames, current, projectTitle) + if Holds(frame, projectTitle) then [pane] else []
  {
    pane := Pane(frame.name, KeptTabs(frame, |frame.pages|, current, projectTitle));
    PaneSaved(frame, current, projectTitle);
    assert (frames + [frame])[..|frames|] == frames;
    hide PaneSays, Wanted, KeptTabs, PaneText;
  }

  lemma OneMoreSaved(frames: seq<Frame>, frame: Frame, picked: seq<nat>, current: int, projectTitle: string)
    returns (now: seq<nat>)
    requires PanesOf(frames, picked, KeptPanes(frames, current, projectTitle), current, projectTitle)
    ensures PanesOf(frames + [frame], now, KeptPanes(frames + [frame], current, projectTitle), current, projectTitle)
  {
    hide PaneIs, Holds, KeptPanes, PanesOf;
    var panes := KeptPanes(frames, current, projectTitle);
    var pane := LastFrame(frames, frame, current, projectTitle);
    OneMoreFrame(frames, frame, picked, panes, pane, current, projectTitle);
    if Holds(frame, projectTitle) {
      now := picked + [|frames|];
    } else {
      now := picked;
      assert panes + [] == panes;
    }
  }

  lemma {:induction false} PanesSaved(frames: seq<Frame>, current: int, projectTitle: string) returns (picked: seq<nat>)
    ensures PanesOf(frames, picked, KeptPanes(frames, current, projectTitle), current, projectTitle)
  {
    if frames == [] {
      picked := [];
    } else {
      hide PanesOf, KeptPanes;
      var front := frames[..|frames| - 1];
      picked := PanesSaved(front, current, projectTitle);
      picked := OneMoreSaved(front, frames[|frames| - 1], picked, current, projectTitle);
      assert frames == front + [frames[|frames| - 1]];
    }
  }

  /** The saved layout is the texts of the panes with a page to save, in order, with bars
      between them; then an at-sign and the frame manager's entries that stay. */
  lemma LayoutSays(frames: seq<Frame>, current: int, projectTitle: string, managerText: string)
    returns (picked: seq<nat>, texts: seq<string>, names: seq<string>)
    ensures Increasing(picked) && forall i: nat :: i in picked <==> i < |frames| && Holds(frames[i], projectTitle)
    ensures |texts| == |names| == |picked|
    ensures forall k :: 0 <= k < |picked| ==>
      picked[k] < |frames| && names[k] == frames[picked[k]].name
    ensures forall k :: 0 <= k < |picked| ==> PaneSays(frames[picked[k]], texts[k], current, projectTitle)
    ensures Saved(frames, current, projectTitle, managerText)
         == Join(texts, '|') + "@" + FrameText.Filtered(managerText, names)
  {
    hide PaneSays, Wanted, KeptPanes, Join, FrameText.Filtered, Holds, PaneText;
    picked := PanesSaved(frames, current, projectTitle);
    var panes := KeptPanes(frames, current, projectTitle);
    texts, names := PaneTexts(panes), Names(panes);
    forall k | 0 <= k < |picked|
      ensures picked[k] < |frames| && names[k] == frames[picked[k]].name
      ensures PaneSays(frames[picked[k]], texts[k], current, projectTitle)
    {
      assert PaneIs(frames[picked[k]], panes[k], current, projectTitle);
    }
  }

  // ------------------------------------------------------------------------- reading

  /** What a piece between commas is read as: a mark, if it begins with one, the number up to
      the semicolon and the id behind it. Nothing before the semicolon ends the list. */
  ghost predicate TabRead(piece: string, tabs: seq<Tab>) {
    var number, id := BeforeFirst(piece, ';'), AfterFirst(piece, ';');
    if number == "" then tabs == []
    else if number[0] == '*' then tabs == [Tab(Selected, number[1..], id)]
    else if number[0] == '+' then tabs == [Tab(Active, number[1..], id)]
    else tabs == [Tab(Plain, number, id)]
  }

  lemma PieceRead(piece: string)
    ensures TabRead(piece, ParseTab(piece))
  {
  }

  /** The tabs of any list, piece by piece. */
  lemma TabsRead(piece: string, rest: string)
    requires ',' !in piece
    ensures TabRead(piece, ParseTabs(piece))
    ensures ParseTabs(piece + "," + rest) == ParseTabs(piece) + if ParseTabs(piece) == [] then [] else ParseTabs(rest)
  {
    hide ParseTab;
    PieceRead(piece);
    NoSplit(piece, ',');
    SplitAt(piece, ',', rest);
    assert piece + "," + rest == piece + [','] + rest;
    NothingRead();
  }

  lemma NothingRead()
    ensures ParseTab("") == [] && ParseTabs("") == [] && ParsePanes("") == []
  {
  }

  /** The panes of any layout, part by part: the name up to the equals sign and the tabs
      behind it. An empty part ends the list. */
  lemma PanesRead(part: string, rest: string)
    requires '|' !in part
    ensures ParsePanes(part) == if part == "" then []
                                else [Pane(BeforeFirst(part, '='), ParseTabs(AfterFirst(part, '=')))]
    ensures ParsePanes(part + "|" + rest) == ParsePanes(part) + if part == "" then [] else ParsePanes(rest)
  {
    hide ParseTabs;
    NoSplit(part, '|');
    SplitAt(part, '|', rest);
    assert part + "|" + rest == part + ['|'] + rest;
    NothingRead();
  }

  /** The panes are read from before the first at-sign, the frame part from behind it. */
  lemma LayoutRead(tabs: string, frameText: string)
    requires '@' !in tabs
    ensures Parse(tabs + "@" + frameText) == (ParsePanes(tabs), frameText)
    ensures Parse(tabs) == (ParsePanes(tabs), "")
  {
    NoSplit(tabs, '@');
    SplitAt(tabs, '@', frameText);
    assert tabs + "@" + frameText == tabs + ['@'] + frameText;
  }
}
