/** The frame manager's own text inside a layout: a list of entries, of which SavePerspective
    drops those of panes that are not saved. */
module FrameText {
  import opened Strings

  predicate IsBlank(c: char) { c in {' ', '\t', '\n', '\r', '\U{0b}', '\U{0c}'} }

  function TrimLeft(s: string): (r: string)
    ensures r == "" || !IsBlank(r[0])
    ensures forall c :: c in r ==> c in s
  {
    if s == "" || !IsBlank(s[0]) then s else TrimLeft(s[1..])
  }

  function TrimRight(s: string): (r: string)
    ensures r == "" || !IsBlank(r[|r| - 1])
    ensures r <= s
  {
    if s == "" || !IsBlank(s[|s| - 1]) then s else TrimRight(s[..|s| - 1])
  }

  /** Without the blanks at either end. */
  function Trim(s: string): string { TrimRight(TrimLeft(s)) }

  // --------------------------------------------------------------------- specification

  function Entry(part: string): seq<string> { if Trim(part) == "" then [] else [Trim(part)] }

  /** The parts between bars, trimmed, without the empty ones. */
  function Entries(text: string): seq<string>
    decreases |text|
  {
    if '|' !in text then Entry(text)
    else assert text != ""; Entry(BeforeFirst(text, '|')) + Entries(AfterFirst(text, '|'))
  }

  /** Each entry with a bar behind it. */
  function Barred(entries: seq<string>): string {
    if entries == [] then "" else Barred(entries[..|entries| - 1]) + entries[|entries| - 1] + "|"
  }

  /** The pane that an entry is about, when it names one. */
  function Named(entry: string): string { BeforeFirst(AfterFirst(entry, '='), ';') }

  predicate Stays(entry: string, names: seq<string>) {
    "name=" <= entry ==> Named(entry) == "dummy" || Named(entry) in names
  }

  function Staying(entries: seq<string>, names: seq<string>): seq<string> {
    if entries == [] then []
    else (if Stays(entries[0], names) then [entries[0]] else []) + Staying(entries[1..], names)
  }

  /** The frame manager's text with the entries of the saved panes only. */
  function Filtered(text: string, names: seq<string>): string { Barred(Staying(Entries(text), names)) }

  // ----------------------------------------------------------------------------- loops

  method GetArrayFromString(text: string) returns (out: seq<string>)
    ensures out == Entries(text)
  {
    hide Trim;
    out := [];
    var search := text;
    while true
      invariant out + Entries(search) == Entries(text)
      decreases |search|
    {
      if '|' !in search {
        search := Trim(search);
        if search != "" { out := out + [search]; }
        break;
      }
      assert search != "";
      var part := BeforeFirst(search, '|');
      search := AfterFirst(search, '|');
      part := Trim(part);
      if part != "" { out := out + [part]; }
    }
  }

  method GetStringFromArray(array_: seq<string>) returns (out: string)
    ensures out == Barred(array_)
  {
    out := "";
    for i := 0 to |array_|
      invariant out == Barred(array_[..i])
    {
      assert array_[..i + 1][..i] == array_[..i];
      out := out + array_[i];
      out := out + "|";
    }
    assert array_[..|array_|] == array_;
  }

  /** The loop from the last entry down, which removes in place. */
  method FilterFrame(text: string, names: seq<string>) returns (r: string)
    ensures r == Filtered(text, names)
  {
    hide Barred, Entries;
    var entries := GetArrayFromString(text);
    ghost var all := entries;
    var i := |entries|;
    while i > 0
      invariant 0 <= i <= |all|
      invariant entries == all[..i] + Staying(all[i..], names)
    {
      i := i - 1;
      assert all[i..][0] == all[i] && all[i..][1..] == all[i + 1..];
      assert entries[i] == all[i];
      if "name=" <= entries[i] {
        var strTmp := BeforeFirst(AfterFirst(entries[i], '='), ';');
        if strTmp == "dummy" { continue; }
        if strTmp !in names { entries := entries[..i] + entries[i + 1..]; }
      }
    }
    assert all[..i] == [] && all[i..] == all;
    assert entries == Staying(all, names);
    r := GetStringFromArray(entries);
  }

  // ---------------------------------------------------------------------------- theorems

  /** Space, tab, line feed, carriage return, vertical tab or form feed. */
  predicate White(c: char) { c as int in {32, 9, 10, 13, 11, 12} }

  /** Trimming takes exactly the blanks at both ends away. */
  lemma {:induction false} TrimExactly(s: string) returns (before: string, after: string)
    ensures s == before + Trim(s) + after
    ensures forall c :: c in before + after ==> White(c)
    ensures Trim(s) != "" ==> !White(Trim(s)[0]) && !White(Trim(s)[|Trim(s)| - 1])
  {
    TrimEnds(s);
    hide TrimLeft, TrimRight, White;
    before := LeftPart(s);
    after := RightPart(TrimLeft(s));
    assert s == before + (Trim(s) + after);
  }

  lemma TrimEnds(s: string)
    ensures Trim(s) != "" ==> !White(Trim(s)[0]) && !White(Trim(s)[|Trim(s)| - 1])
  {
    var l := TrimLeft(s);
    var r := TrimRight(l);
    hide TrimLeft, TrimRight;
    if r != "" { assert r[0] == l[0]; }
  }

  lemma {:induction false} LeftPart(s: string) returns (before: string)
    ensures s == before + TrimLeft(s)
    ensures forall c :: c in before ==> White(c)
  {
    before := "";
    if s != "" && IsBlank(s[0]) {
      before := LeftPart(s[1..]);
      assert s == [s[0]] + before + TrimLeft(s);
      before := [s[0]] + before;
    }
  }

  lemma {:induction false} RightPart(s: string) returns (after: string)
    ensures s == TrimRight(s) + after
    ensures forall c :: c in after ==> White(c)
  {
    after := "";
    if s != "" && IsBlank(s[|s| - 1]) {
      after := RightPart(s[..|s| - 1]);
      assert s == TrimRight(s) + (after + [s[|s| - 1]]);
      after := after + [s[|s| - 1]];
    }
  }

  /** The entries of a text: those of the part before a bar and of the text behind it. */
  lemma EntriesExactly(part: string, rest: string)
    requires '|' !in part
    ensures Entries(part) == if Trim(part) == "" then [] else [Trim(part)]
    ensures Entries(part + "|" + rest) == Entries(part) + Entries(rest)
  {
    hide Trim;
    assert part + "|" + rest == part + ['|'] + rest;
    SplitAt(part, '|', rest);
  }

  /** Which entries stay: all that do not begin with "name=", and of the others those of the
      pane "dummy" and of the panes named, whatever follows the name behind a semicolon. */
  lemma StaysExactly(name: string, rest: string, entry: string, names: seq<string>)
    requires ';' !in name
    ensures Stays("name=" + name, names) <==> name == "dummy" || name in names
    ensures Stays("name=" + name + ";" + rest, names) <==> name == "dummy" || name in names
    ensures !("name=" <= entry) ==> Stays(entry, names)
  {
    AfterName(name);
    AfterName(name + ";" + rest);
    NoSplit(name, ';');
    assert name + ";" + rest == name + [';'] + rest;
    SplitAt(name, ';', rest);
    assert "name=" + name + ";" + rest == "name=" + (name + ";" + rest);
  }

  lemma AfterName(s: string)
    ensures AfterFirst("name=" + s, '=') == s && "name=" <= "name=" + s
  {
    assert "name=" + s == "name" + ['='] + s;
    SplitAt("name", '=', s);
  }

  /** What the entries of a text look like. */
  predicate IsEntry(e: string) { e != "" && '|' !in e && Trim(e) == e }

  lemma TrimTwice(s: string)
    ensures Trim(Trim(s)) == Trim(s)
  {
    var l := TrimLeft(s);
    var r := TrimRight(l);
    if r != "" { assert r[0] == l[0]; }
  }

  lemma {:induction false} EntriesAre(text: string)
    ensures forall e :: e in Entries(text) ==> IsEntry(e)
    decreases |text|
  {
    TrimTwice(text);
    TrimTwice(BeforeFirst(text, '|'));
    if '|' in text {
      assert text != "";
      EntriesAre(AfterFirst(text, '|'));
      assert Trim(BeforeFirst(text, '|')) <= TrimLeft(BeforeFirst(text, '|'));
    }
  }

  lemma {:induction false} BarredHead(entries: seq<string>)
    requires entries != []
    ensures Barred(entries) == entries[0] + ['|'] + Barred(entries[1..])
  {
    var front, last := entries[..|entries| - 1], entries[|entries| - 1];
    if |entries| == 1 {
      assert front == [] && entries[1..] == [];
    } else {
      BarredHead(front);
      assert entries[1..][..|entries| - 2] == front[1..];
      assert Barred(entries[1..]) == Barred(front[1..]) + last + "|";
    }
  }

  /** Reading barred entries gives the entries. */
  lemma {:induction false} EntriesBarred(entries: seq<string>)
    requires forall e :: e in entries ==> IsEntry(e)
    ensures Entries(Barred(entries)) == entries
  {
    if entries != [] {
      BarredHead(entries);
      assert IsEntry(entries[0]);
      SplitAt(entries[0], '|', Barred(entries[1..]));
      EntriesBarred(entries[1..]);
      assert entries[0] in entries;
      assert entries == [entries[0]] + entries[1..];
    }
  }

  lemma {:induction false} StayingAre(entries: seq<string>, names: seq<string>)
    ensures forall e :: e in Staying(entries, names) <==> e in entries && Stays(e, names)
  {
    hide Stays;
    if entries != [] { StayingAre(entries[1..], names); }
  }

  lemma {:induction false} AllStay(entries: seq<string>, names: seq<string>)
    requires forall e :: e in entries ==> Stays(e, names)
    ensures Staying(entries, names) == entries
  {
    hide Stays;
    if entries != [] {
      AllStay(entries[1..], names);
      assert entries[0] in entries;
    }
  }

  /** The frame part of a layout has, in order, the entries of the frame manager's text that
      are about no pane, about "dummy", or about a saved one; filtering again changes nothing. */
  lemma FilterExact(text: string, names: seq<string>)
    ensures Entries(Filtered(text, names)) == Staying(Entries(text), names)
    ensures forall e :: e in Entries(Filtered(text, names)) <==> e in Entries(text) && Stays(e, names)
    ensures Filtered(Filtered(text, names), names) == Filtered(text, names)
  {
    var kept := Staying(Entries(text), names);
    EntriesAre(text);
    hide Stays, IsEntry, Entries, Barred, Staying;
    StayingAre(Entries(text), names);
    EntriesBarred(kept);
    AllStay(kept, names);
  }
}
