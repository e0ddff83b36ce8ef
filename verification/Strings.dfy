/** The wxString functions that the layout code is written with. */
module Strings {

  /** Everything before the first c; all of s when there is none. */
  function BeforeFirst(s: string, c: char): (r: string)
    ensures c !in r && |r| <= |s|
    ensures forall x :: x in r ==> x in s
  {
    if s == "" || s[0] == c then "" else [s[0]] + BeforeFirst(s[1..], c)
  }

  /** Everything after the first c; nothing when there is none. */
  function AfterFirst(s: string, c: char): (r: string)
    ensures s != "" ==> |r| < |s|
    ensures forall x :: x in r ==> x in s
  {
    if s == "" then "" else if s[0] == c then s[1..] else AfterFirst(s[1..], c)
  }

  /** Everything before the last c; nothing when there is none. */
  function BeforeLast(s: string, c: char): string {
    if s == "" then "" else if s[|s|-1] == c then s[..|s|-1] else BeforeLast(s[..|s|-1], c)
  }

  lemma {:induction false} SplitAt(a: string, c: char, b: string)
    requires c !in a
    ensures BeforeFirst(a + [c] + b, c) == a && AfterFirst(a + [c] + b, c) == b
  {
    if a == "" {
      assert a + [c] + b == [c] + b;
    } else {
      SplitAt(a[1..], c, b);
      assert (a + [c] + b)[1..] == a[1..] + [c] + b;
    }
  }

  lemma {:induction false} NoSplit(a: string, c: char)
    requires c !in a
    ensures BeforeFirst(a, c) == a && AfterFirst(a, c) == ""
  {
    if a != "" { NoSplit(a[1..], c); }
  }

  /** The last c of a text is the separator. */
  lemma {:induction false} SplitAtLast(a: string, c: char, b: string)
    requires c !in b
    ensures BeforeLast(a + [c] + b, c) == a
  {
    var s := a + [c] + b;
    if b == "" {
      assert s[..|s| - 1] == a;
    } else {
      SplitAtLast(a, c, b[..|b| - 1]);
      assert s[..|s| - 1] == a + [c] + b[..|b| - 1];
      assert s[|s| - 1] in b;
    }
  }

  lemma {:induction false} NoSplitLast(s: string, c: char)
    requires c !in s
    ensures BeforeLast(s, c) == ""
  {
    if s != "" { NoSplitLast(s[..|s| - 1], c); }
  }

  /** Taken apart at the last c. */
  lemma {:induction false} LastSplit(s: string, c: char) returns (b: string)
    requires c in s
    ensures c !in b && s == BeforeLast(s, c) + [c] + b
  {
    if s[|s| - 1] == c {
      b := "";
    } else {
      b := LastSplit(s[..|s| - 1], c);
      b := b + [s[|s| - 1]];
    }
  }

  const DIGITS := "0123456789"

  function Decimal(n: nat): (r: string)
    ensures r != "" && forall x :: x in r ==> x in DIGITS
  {
    if n < 10 then [DIGITS[n]] else Decimal(n / 10) + [DIGITS[n % 10]]
  }

  /** The number that a row of decimal digits stands for. */
  function Numeral(s: string): int {
    if s == "" then 0 else 10 * Numeral(s[..|s| - 1]) + (s[|s| - 1] as int - '0' as int)
  }

  /** A decimal is a row of digits for that number, without leading zeros. */
  lemma {:induction false} DecimalStandsFor(n: nat)
    ensures var s := Decimal(n);
      && Numeral(s) == n
      && (forall c :: c in s ==> '0' <= c <= '9')
      && (|s| > 1 ==> s[0] != '0')
  {
    var s := Decimal(n);
    assert forall k :: 0 <= k < 10 ==> DIGITS[k] as int == k + '0' as int;
    if n < 10 {
      assert s[..0] == "";
    } else {
      DecimalStandsFor(n / 10);
      assert s[..|s| - 1] == Decimal(n / 10);
      if n / 10 < 10 { assert s[0] == DIGITS[n / 10]; }
    }
  }

  /** Texts with a separator between them. */
  function Join(texts: seq<string>, sep: char): string {
    if texts == [] then ""
    else if |texts| == 1 then texts[0]
    else Join(texts[..|texts|-1], sep) + [sep] + texts[|texts|-1]
  }

  lemma {:induction false} JoinHead(texts: seq<string>, sep: char)
    requires |texts| >= 2
    ensures Join(texts, sep) == texts[0] + [sep] + Join(texts[1..], sep)
  {
    var front := texts[..|texts|-1];
    if |texts| == 2 {
      assert front == [texts[0]] && texts[1..] == [texts[1]];
    } else {
      JoinHead(front, sep);
      assert texts[1..][..|texts|-2] == front[1..];
    }
  }

  lemma {:induction false} JoinChars(texts: seq<string>, sep: char, c: char)
    requires c != sep && forall i :: 0 <= i < |texts| ==> c !in texts[i]
    ensures c !in Join(texts, sep)
  {
    if |texts| >= 2 { JoinChars(texts[..|texts|-1], sep, c); }
  }

  /** As the printing loops test it: nothing has been appended so far. */
  lemma {:induction false} JoinEmpty(texts: seq<string>, sep: char)
    requires forall i :: 0 <= i < |texts| ==> texts[i] != ""
    ensures Join(texts, sep) == "" <==> texts == []
  {
  }

  lemma JoinAppend(texts: seq<string>, sep: char, t: string)
    ensures Join(texts + [t], sep) == if texts == [] then t else Join(texts, sep) + [sep] + t
  {
    assert (texts + [t])[..|texts|] == texts;
  }
}
