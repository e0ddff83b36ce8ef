/** The layout string of cbAuiNotebook: what SavePerspective prints about the panes and
    their tabs, and how LoadPerspective takes it apart again. */
module Layout {
  import opened Strings
  import FrameText

  /** '*' marks the notebook's current page, '+' the active page of a tab control. */
  datatype Mark = Plain | Active | Selected

  datatype Tab = Tab(mark: Mark, number: string, id: string)

  datatype Pane = Pane(name: string, tabs: seq<Tab>)

  /** A page of a tab control: its index in the notebook and the id made of its tooltip. */
  datatype Page = Page(index: nat, id: string)

  /** A pane of the frame manager; `hasTabs` is false for panes that are no tab control. */
  datatype Frame = Frame(name: string, hasTabs: bool, active: int, pages: seq<Page>)

  // --------------------------------------------------------------- SavePerspective

  predicate Kept(id: string, projectTitle: string) {
    var title := BeforeLast(id, ':');
    title != "" && (projectTitle == "" || title == projectTitle)
  }

  function SavedTab(frame: Frame, p: nat, current: int): Tab
    requires p < |frame.pages|
  {
    var page := frame.pages[p];
    Tab(if page.index == current then Selected else if p == frame.active then Active else Plain,
        Decimal(page.index), page.id)
  }

  /** The tabs of one tab control that go into the layout, in order. */
  function KeptTabs(frame: Frame, upTo: nat, current: int, projectTitle: string): seq<Tab>
    requires upTo <= |frame.pages|
  {
    if upTo == 0 then [] else
    var before := KeptTabs(frame, upTo - 1, current, projectTitle);
    if !Kept(frame.pages[upTo - 1].id, projectTitle) then before
    else before + [SavedTab(frame, upTo - 1, current)]
  }

  /** The panes that go into the layout: tab controls with something to save. */
  function KeptPanes(frames: seq<Frame>, current: int, projectTitle: string): (r: seq<Pane>)
    ensures forall i :: 0 <= i < |r| ==> r[i].tabs != []
  {
    if frames == [] then [] else
    var frame := frames[|frames|-1];
    var before := KeptPanes(frames[..|frames|-1], current, projectTitle);
    if frame.name == "dummy" || !frame.hasTabs then before else
    var tabs := KeptTabs(frame, |frame.pages|, current, projectTitle);
    if tabs == [] then before else before + [Pane(frame.name, tabs)]
  }

  function MarkText(m: Mark): string {
    match m
    case Plain => ""
    case Active => "+"
    case Selected => "*"
  }

  function TabText(t: Tab): string { MarkText(t.mark) + t.number + ";" + t.id }

  function TabTexts(tabs: seq<Tab>): (r: seq<string>)
    ensures |r| == |tabs| && forall i :: 0 <= i < |r| ==> r[i] == TabText(tabs[i]) && r[i] != ""
  {
    seq(|tabs|, i requires 0 <= i < |tabs| => TabText(tabs[i]))
  }

  function PaneText(p: Pane): string { p.name + "=" + Join(TabTexts(p.tabs), ',') }

  function PaneTexts(panes: seq<Pane>): (r: seq<string>)
    ensures |r| == |panes| && forall i :: 0 <= i < |r| ==> r[i] == PaneText(panes[i]) && r[i] != ""
  {
    seq(|panes|, i requires 0 <= i < |panes| => PaneText(panes[i]))
  }

  function Print(panes: seq<Pane>, frameText: string): string {
    Join(PaneTexts(panes), '|') + "@" + frameText
  }

  lemma JoinNone(sep: char)
    ensures Join(TabTexts([]), sep) == "" && Join(PaneTexts([]), sep) == ""
  {
  }

  lemma TabAppended(tabs: seq<Tab>, tab: Tab, sofar: string, text: string)
    requires sofar == if tabs == [] then "" else Join(TabTexts(tabs), ',') + ","
    requires text == sofar + MarkText(tab.mark) + tab.number + ";" + tab.id
    ensures text == Join(TabTexts(tabs + [tab]), ',')
  {
    hide Join;
    assert text == sofar + TabText(tab);
    assert TabTexts(tabs + [tab]) == TabTexts(tabs) + [TabText(tab)];
    JoinAppend(TabTexts(tabs), ',', TabText(tab));
  }

  /** The inner loop: one tab control's pages. */
  method PrintTabs(frame: Frame, current: int, projectTitle: string) returns (text: string)
    ensures text == Join(TabTexts(KeptTabs(frame, |frame.pages|, current, projectTitle)), ',')
  {
    hide Join, TabTexts, Decimal, BeforeLast;
    JoinNone(',');
    text := "";
    for p := 0 to |frame.pages|
      invariant text == Join(TabTexts(KeptTabs(frame, p, current, projectTitle)), ',')
    {
      ghost var tabs := KeptTabs(frame, p, current, projectTitle);
      var page := frame.pages[p];
      if BeforeLast(page.id, ':') == "" { continue; }
      if projectTitle != "" && BeforeLast(page.id, ':') != projectTitle { continue; }
      JoinEmpty(TabTexts(tabs), ',');
      if text != "" { text := text + ","; }
      ghost var sofar := text;
      if page.index == current { text := text + "*"; }
      else if p == frame.active { text := text + "+"; }
      text := text + Decimal(page.index);
      text := text + ";";
      text := text + page.id;
      TabAppended(tabs, SavedTab(frame, p, current), sofar, text);
    }
  }

  function Names(panes: seq<Pane>): (r: seq<string>)
    ensures |r| == |panes| && forall i :: 0 <= i < |r| ==> r[i] == panes[i].name
  {
    seq(|panes|, i requires 0 <= i < |panes| => panes[i].name)
  }

  /** The layout that SavePerspective makes; managerText is the frame manager's perspective. */
  function Saved(frames: seq<Frame>, current: int, projectTitle: string, managerText: string): string {
    var panes := KeptPanes(frames, current, projectTitle);
    Print(panes, FrameText.Filtered(managerText, Names(panes)))
  }

  method SavePerspective(frames: seq<Frame>, current: int, projectTitle: string, managerText: string)
      returns (layout: string)
    ensures layout == Saved(frames, current, projectTitle, managerText)
  {
    hide Join, TabTexts, PaneTexts, KeptTabs, FrameText.Filtered;
    JoinNone('|');
    var saved: seq<string> := [];
    layout := "";
    for i := 0 to |frames|
      invariant layout == Join(PaneTexts(KeptPanes(frames[..i], current, projectTitle)), '|')
      invariant saved == Names(KeptPanes(frames[..i], current, projectTitle))
    {
      ghost var panes := KeptPanes(frames[..i], current, projectTitle);
      assert frames[..i+1][..i] == frames[..i];
      if frames[i].name == "dummy" || !frames[i].hasTabs { continue; }
      var text := PrintTabs(frames[i], current, projectTitle);
      ghost var tabs := KeptTabs(frames[i], |frames[i].pages|, current, projectTitle);
      JoinEmpty(TabTexts(tabs), ',');
      if text != "" {
        JoinEmpty(PaneTexts(panes), '|');
        if layout != "" { layout := layout + "|"; }
        ghost var sofar := layout;
        saved := saved + [frames[i].name];
        layout := layout + frames[i].name;
        layout := layout + "=";
        layout := layout + text;
        ghost var pane := Pane(frames[i].name, tabs);
        assert layout == sofar + PaneText(pane);
        assert PaneTexts(panes + [pane]) == PaneTexts(panes) + [PaneText(pane)];
        JoinAppend(PaneTexts(panes), '|', PaneText(pane));
      }
    }
    assert frames[..|frames|] == frames;
    layout := layout + "@";
    var frameText := FrameText.FilterFrame(managerText, saved);
    layout := layout + frameText;
  }

  // --------------------------------------------------------------- LoadPerspective

  function MarkOf(c: char): Mark {
    if c == '+' then Active else if c == '*' then Selected else Plain
  }

  /** One tab, taken from the text before a comma; None ends the list. */
  function ParseTab(text: string): (r: seq<Tab>)
    ensures |r| <= 1
  {
    var tab := BeforeFirst(text, ';');
    if tab == "" then []
    else [Tab(MarkOf(tab[0]), if MarkOf(tab[0]).Plain? then tab else tab[1..], AfterFirst(text, ';'))]
  }

  function ParseTabs(list: string): seq<Tab>
    decreases |list|
  {
    var tab := ParseTab(BeforeFirst(list, ','));
    if tab == [] then [] else
    assert list != "";
    tab + ParseTabs(AfterFirst(list, ','))
  }

  function ParsePanes(tabs: string): seq<Pane>
    decreases |tabs|
  {
    var part := BeforeFirst(tabs, '|');
    if part == "" then []
    else [Pane(BeforeFirst(part, '='), ParseTabs(AfterFirst(part, '=')))] + ParsePanes(AfterFirst(tabs, '|'))
  }

  function Parse(layout: string): (seq<Pane>, string) {
    (ParsePanes(BeforeFirst(layout, '@')), AfterFirst(layout, '@'))
  }

  lemma OneTab(tabs: seq<Tab>, list: string, tab: Tab)
    requires ParseTab(BeforeFirst(list, ',')) == [tab]
    ensures tabs + ParseTabs(list) == (tabs + [tab]) + ParseTabs(AfterFirst(list, ','))
  {
  }

  /** The inner tokenising loop: it consumes tab_list. */
  method LoadTabs(tabList: string) returns (tabs: seq<Tab>)
    ensures tabs == ParseTabs(tabList)
  {
    tabs := [];
    var rest := tabList;
    while true
      invariant tabs + ParseTabs(rest) == ParseTabs(tabList)
      decreases |rest|
    {
      var tab := BeforeFirst(rest, ',');
      var name := AfterFirst(tab, ';');
      tab := BeforeFirst(tab, ';');
      if tab == "" { break; }
      var c := tab[0];
      if c == '+' || c == '*' { tab := tab[1..]; }
      OneTab(tabs, rest, Tab(MarkOf(c), tab, name));
      rest := AfterFirst(rest, ',');
      tabs := tabs + [Tab(MarkOf(c), tab, name)];
    }
    assert tabs + [] == tabs;
  }

  /** LoadPerspective's reading of the layout: the panes with their tabs, in order, and
      the frame manager's part. An empty layout is refused. */
  method LoadPerspective(layout: string) returns (ok: bool, panes: seq<Pane>, frameText: string)
    ensures ok <==> layout != ""
    ensures ok ==> (panes, frameText) == Parse(layout)
  {
    panes, frameText := [], "";
    if layout == "" { return false, [], ""; }
    var tabs := BeforeFirst(layout, '@');
    frameText := AfterFirst(layout, '@');
    while true
      invariant panes + ParsePanes(tabs) == ParsePanes(BeforeFirst(layout, '@'))
      decreases |tabs|
    {
      var part := BeforeFirst(tabs, '|');
      if part == "" { break; }
      var name := BeforeFirst(part, '=');
      var list := LoadTabs(AfterFirst(part, '='));
      panes := panes + [Pane(name, list)];
      tabs := AfterFirst(tabs, '|');
    }
    assert panes + [] == panes;
    ok := true;
  }

  // -------------------------------------------------------------------- round trip

  predicate CleanId(id: string) { ',' !in id && '|' !in id && '@' !in id }

  predicate CleanName(name: string) { '=' !in name && '|' !in name && '@' !in name }

  /** No id or pane name contains a character that separates it from its neighbours. */
  predicate Clean(panes: seq<Pane>) {
    forall i :: 0 <= i < |panes| ==>
      CleanName(panes[i].name) && forall j :: 0 <= j < |panes[i].tabs| ==> CleanId(panes[i].tabs[j].id)
  }

  /** A number part that cannot be mistaken for something else. */
  predicate Readable(t: Tab) {
    && (forall c :: c in t.number ==> c !in {';', ',', '|', '@'})
    && (t.mark.Plain? ==> t.number != "" && MarkOf(t.number[0]).Plain?)
  }

  predicate AllReadable(panes: seq<Pane>) {
    forall i :: 0 <= i < |panes| ==> TabsReadable(panes[i].tabs)
  }

  predicate TabsReadable(tabs: seq<Tab>) {
    forall j :: 0 <= j < |tabs| ==> Readable(tabs[j])
  }

  lemma SavedReadable(frame: Frame, p: nat, current: int)
    requires p < |frame.pages|
    ensures Readable(SavedTab(frame, p, current))
  {
    var number := Decimal(frame.pages[p].index);
    assert forall c :: c in number ==> c in DIGITS;
    assert forall c :: c in DIGITS ==> c !in {';', ',', '|', '@', '+', '*'};
    assert number[0] in number;
  }

  lemma ReadableAppended(tabs: seq<Tab>, tab: Tab)
    requires TabsReadable(tabs) && Readable(tab)
    ensures TabsReadable(tabs + [tab])
  {
  }

  lemma {:induction false} KeptTabsReadable(frame: Frame, upTo: nat, current: int, projectTitle: string)
    requires upTo <= |frame.pages|
    ensures TabsReadable(KeptTabs(frame, upTo, current, projectTitle))
  {
    if upTo > 0 {
      hide SavedTab, Kept, TabsReadable, Readable;
      KeptTabsReadable(frame, upTo - 1, current, projectTitle);
      SavedReadable(frame, upTo - 1, current);
      ReadableAppended(KeptTabs(frame, upTo - 1, current, projectTitle), SavedTab(frame, upTo - 1, current));
    }
  }

  lemma {:induction false} KeptPanesReadable(frames: seq<Frame>, current: int, projectTitle: string)
    ensures AllReadable(KeptPanes(frames, current, projectTitle))
  {
    if frames != [] {
      KeptPanesReadable(frames[..|frames|-1], current, projectTitle);
      KeptTabsReadable(frames[|frames|-1], |frames[|frames|-1].pages|, current, projectTitle);
    }
  }

  lemma TabRoundTrip(t: Tab)
    requires Readable(t)
    ensures ParseTab(TabText(t)) == [t]
  {
    var head := MarkText(t.mark) + t.number;
    assert ';' !in head;
    assert TabText(t) == head + [';'] + t.id;
    SplitAt(head, ';', t.id);
    match t.mark
    case Plain => assert head == t.number;
    case Active => assert head[1..] == t.number;
    case Selected => assert head[1..] == t.number;
  }

  lemma TabTextChars(t: Tab, c: char)
    requires Readable(t) && c in {',', '|', '@'} && c !in t.id
    ensures c !in TabText(t)
  {
  }

  lemma {:induction false} TabsRoundTrip(tabs: seq<Tab>)
    requires TabsReadable(tabs) && forall j :: 0 <= j < |tabs| ==> CleanId(tabs[j].id)
    ensures ParseTabs(Join(TabTexts(tabs), ',')) == tabs
  {
    if tabs == [] {
    } else {
      var texts := TabTexts(tabs);
      TabRoundTrip(tabs[0]);
      TabTextChars(tabs[0], ',');
      if |tabs| == 1 {
        NoSplit(texts[0], ',');
      } else {
        JoinHead(texts, ',');
        SplitAt(texts[0], ',', Join(texts[1..], ','));
        assert texts[1..] == TabTexts(tabs[1..]);
        TabsRoundTrip(tabs[1..]);
      }
    }
  }

  lemma PaneTextChars(p: Pane, c: char)
    requires TabsReadable(p.tabs) && c in {'|', '@'} && c !in p.name
    requires forall j :: 0 <= j < |p.tabs| ==> CleanId(p.tabs[j].id)
    ensures c !in PaneText(p)
  {
    forall j | 0 <= j < |p.tabs| ensures c !in TabTexts(p.tabs)[j] { TabTextChars(p.tabs[j], c); }
    JoinChars(TabTexts(p.tabs), ',', c);
  }

  lemma PaneRoundTrip(p: Pane)
    requires CleanName(p.name) && TabsReadable(p.tabs)
    requires forall j :: 0 <= j < |p.tabs| ==> CleanId(p.tabs[j].id)
    ensures BeforeFirst(PaneText(p), '=') == p.name && ParseTabs(AfterFirst(PaneText(p), '=')) == p.tabs
  {
    assert PaneText(p) == p.name + ['='] + Join(TabTexts(p.tabs), ',');
    SplitAt(p.name, '=', Join(TabTexts(p.tabs), ','));
    TabsRoundTrip(p.tabs);
  }

  lemma {:induction false} PanesRoundTrip(panes: seq<Pane>)
    requires AllReadable(panes) && Clean(panes)
    ensures ParsePanes(Join(PaneTexts(panes), '|')) == panes
  {
    if panes == [] {
    } else {
      var texts := PaneTexts(panes);
      PaneTextChars(panes[0], '|');
      PaneRoundTrip(panes[0]);
      if |panes| == 1 {
        NoSplit(texts[0], '|');
      } else {
        JoinHead(texts, '|');
        SplitAt(texts[0], '|', Join(texts[1..], '|'));
        assert texts[1..] == PaneTexts(panes[1..]);
        PanesRoundTrip(panes[1..]);
      }
    }
  }

  /** Whatever is read is clean and readable. */
  lemma {:induction false} ParsedTabs(list: string)
    requires '|' !in list && '@' !in list
    ensures forall j :: 0 <= j < |ParseTabs(list)| ==> CleanId(ParseTabs(list)[j].id)
    ensures TabsReadable(ParseTabs(list))
    decreases |list|
  {
    if ParseTab(BeforeFirst(list, ',')) != [] {
      ParsedTabs(AfterFirst(list, ','));
    }
  }

  lemma {:induction false} ParsedPanes(tabs: string)
    requires '@' !in tabs
    ensures Clean(ParsePanes(tabs)) && AllReadable(ParsePanes(tabs))
    decreases |tabs|
  {
    var part := BeforeFirst(tabs, '|');
    if part != "" {
      ParsedTabs(AfterFirst(part, '='));
      ParsedPanes(AfterFirst(tabs, '|'));
    }
  }

  lemma CleanRoundTrip(panes: seq<Pane>, frameText: string)
    requires Clean(panes) && AllReadable(panes)
    ensures Parse(Print(panes, frameText)) == (panes, frameText)
  {
    PanesRoundTrip(panes);
    forall i | 0 <= i < |panes| ensures '@' !in PaneTexts(panes)[i] { PaneTextChars(panes[i], '@'); }
    JoinChars(PaneTexts(panes), '|', '@');
    assert Print(panes, frameText) == Join(PaneTexts(panes), '|') + ['@'] + frameText;
    SplitAt(Join(PaneTexts(panes), '|'), '@', frameText);
  }

  /** What LoadPerspective reads from a saved layout is what was saved (panes, tab order,
      ids, page numbers, marks, and the frame manager's part) if and only if no saved id
      contains ',', '|' or '@' and no saved pane name contains '=', '|' or '@'. */
  lemma LayoutRoundTrip(frames: seq<Frame>, current: int, projectTitle: string, managerText: string)
    ensures var panes := KeptPanes(frames, current, projectTitle);
      Parse(Saved(frames, current, projectTitle, managerText)) == (panes, FrameText.Filtered(managerText, Names(panes)))
      <==> Clean(panes)
  {
    hide FrameText.Filtered;
    var panes := KeptPanes(frames, current, projectTitle);
    var frameText := FrameText.Filtered(managerText, Names(panes));
    if Clean(panes) {
      KeptPanesReadable(frames, current, projectTitle);
      CleanRoundTrip(panes, frameText);
    }
    if Parse(Print(panes, frameText)) == (panes, frameText) {
      ParsedPanes(BeforeFirst(Print(panes, frameText), '@'));
    }
  }

  /** Reading is stable on every string, saved by this program or not: printing what was
      read and reading it again gives the same panes and the same frame part. */
  lemma ReadingIsStable(layout: string)
    ensures var (panes, frameText) := Parse(layout);
      Parse(Print(panes, frameText)) == (panes, frameText)
  {
    var (panes, frameText) := Parse(layout);
    ParsedPanes(BeforeFirst(layout, '@'));
    CleanRoundTrip(panes, frameText);
  }

  /** A saved layout is never the empty string that LoadPerspective refuses. */
  lemma SavedIsLoadable(frames: seq<Frame>, current: int, projectTitle: string, managerText: string)
    ensures Saved(frames, current, projectTitle, managerText) != ""
  {
    assert '@' in Saved(frames, current, projectTitle, managerText);
  }
}
