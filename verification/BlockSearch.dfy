/** Searching backwards for the start of the enclosing block. What is passed on the way is a
    list of openers (weight 1), closers (-1) and other things (0), the nearest first. */
module BlockSearch {
  import opened Lines

  function Sum(d: seq<int>): int {
    if d == [] then 0 else Sum(d[..|d| - 1]) + d[|d| - 1]
  }

  /** An opener is matched by the first closer after it (lower index) that has as many openers
      as closers in between. It is unmatched if the closers never outnumber the openers. */
  ghost predicate Unmatched(d: seq<int>, k: nat) {
    k < |d| && d[k] == 1 && forall j :: 0 <= j <= k ==> Sum(d[j..k]) >= 0
  }

  /** k is the nearest opener that no later closer matches. */
  ghost predicate Nearest(d: seq<int>, k: nat) {
    Unmatched(d, k) && forall j :: 0 <= j < k ==> !Unmatched(d, j)
  }

  // ----------------------------------------------------------------------- sums

  lemma {:induction false} SumSplit(d: seq<int>, j: nat)
    requires j <= |d|
    ensures Sum(d) == Sum(d[..j]) + Sum(d[j..])
  {
    if j < |d| {
      SumSplit(d[..|d| - 1], j);
      assert d[..|d| - 1][..j] == d[..j];
      assert d[j..][..|d| - j - 1] == d[..|d| - 1][j..];
    } else {
      assert d[..j] == d;
    }
  }

  lemma SumNext(d: seq<int>, k: nat)
    requires k < |d|
    ensures Sum(d[..k + 1]) == Sum(d[..k]) + d[k]
  {
    assert d[..k + 1][..k] == d[..k];
  }

  /** While the closers have not been outnumbered there is no unmatched opener. */
  lemma NoneYet(d: seq<int>, n: nat)
    requires n <= |d| && forall m :: 0 <= m <= n ==> Sum(d[..m]) <= 0
    ensures forall k :: 0 <= k < n ==> !Unmatched(d, k)
  {
    forall k | 0 <= k < n ensures !Unmatched(d, k) {
      SumNext(d, k);
      assert d[0..k] == d[..k];
      assert d[k] == 1 ==> Sum(d[0..k]) < 0;
    }
  }

  /** The opener that first outnumbers them is the nearest unmatched one. */
  lemma FoundNearest(d: seq<int>, k: nat)
    requires k < |d| && d[k] == 1 && Sum(d[..k]) == 0
    requires forall m :: 0 <= m <= k ==> Sum(d[..m]) <= 0
    ensures Nearest(d, k)
  {
    NoneYet(d, k);
    forall j | 0 <= j <= k ensures Sum(d[j..k]) >= 0 {
      SumSplit(d[..k], j);
      assert d[..k][..j] == d[..j] && d[..k][j..] == d[j..k];
    }
  }

  // ------------------------------------------------------------ single characters

  function Weight(c: char, blockStart: char, blockEnd: char): int {
    if c == blockEnd then -1 else if c == blockStart then 1 else 0
  }

  /** The characters from position back to the nearest NUL or the start of the text. */
  function Back(t: string, position: int, blockStart: char, blockEnd: char): seq<int>
    decreases position + 1
  {
    if CharAt(t, position) == '\0' then []
    else [Weight(t[position], blockStart, blockEnd)] + Back(t, position - 1, blockStart, blockEnd)
  }

  lemma {:induction false} BackAt(t: string, position: int, blockStart: char, blockEnd: char, k: nat)
    ensures var d := Back(t, position, blockStart, blockEnd);
      && (k < |d| ==> CharAt(t, position - k) != '\0' && d[k] == Weight(CharAt(t, position - k), blockStart, blockEnd))
      && (k == |d| ==> CharAt(t, position - k) == '\0')
    decreases k
  {
    if k > 0 && CharAt(t, position) != '\0' { BackAt(t, position - 1, blockStart, blockEnd, k - 1); }
  }

  /** How many of these characters the text has from one position up to another. */
  function Number(t: string, from: nat, to: nat, c: char): nat
    requires from <= to <= |t|
  {
    multiset(t[from..to])[c]
  }

  /** Behind r and before i are no more closers than openers. */
  predicate Covered(t: string, r: nat, i: nat, s: char, e: char)
    requires r < i <= |t|
  {
    Number(t, r + 1, i, e) <= Number(t, r + 1, i, s)
  }

  /** There is an opener at r, no NUL from there to position, and in no stretch right behind
      it are there more closers than openers. */
  ghost predicate OpenAt(t: string, position: int, r: int, blockStart: char, blockEnd: char) {
    && 0 <= r <= position < |t| && t[r] == blockStart != blockEnd && '\0' !in t[r..position + 1]
    && forall i :: r < i <= position + 1 ==> Covered(t, r, i, blockStart, blockEnd)
  }

  lemma BackFits(t: string, position: int, s: char, e: char, k: nat)
    requires 0 < k <= |Back(t, position, s, e)|
    ensures k <= position + 1 <= |t|
  {
    BackAt(t, position, s, e, k - 1);
    BackAt(t, position, s, e, 0);
  }

  lemma OneMore(t: string, from: nat, to: nat, c: char)
    requires from < to <= |t|
    ensures Number(t, from, to, c) == Number(t, from + 1, to, c) + if t[from] == c then 1 else 0
  {
    assert t[from..to] == [t[from]] + t[from + 1..to];
  }

  /** The weights of a stretch add up to its openers less its closers. */
  lemma {:induction false} SumCounts(t: string, position: int, s: char, e: char, j: nat, k: nat)
    requires 0 < k && j <= k <= |Back(t, position, s, e)| && s != e
    ensures k <= position + 1 <= |t|
    ensures Sum(Back(t, position, s, e)[j..k])
         == Number(t, position + 1 - k, position + 1 - j, s) as int - Number(t, position + 1 - k, position + 1 - j, e)
    decreases k
  {
    hide Back, Number, Sum;
    var d := Back(t, position, s, e);
    BackFits(t, position, s, e, k);
    if j == k {
      NoneBetween(t, position + 1 - j, s, e, d, j);
    } else {
      BackAt(t, position, s, e, k - 1);
      OneMore(t, position + 1 - k, position + 1 - j, s);
      OneMore(t, position + 1 - k, position + 1 - j, e);
      SumOne(d, j, k);
      if j < k - 1 { SumCounts(t, position, s, e, j, k - 1); } else { NoneBetween(t, position + 1 - j, s, e, d, j); }
    }
  }

  lemma SumOne(d: seq<int>, j: nat, k: nat)
    requires j < k <= |d|
    ensures Sum(d[j..k]) == Sum(d[j..k - 1]) + d[k - 1]
  {
    assert d[j..k][..k - 1 - j] == d[j..k - 1];
  }

  lemma NoneBetween(t: string, p: nat, s: char, e: char, d: seq<int>, j: nat)
    requires p <= |t| && j <= |d|
    ensures Number(t, p, p, s) == 0 == Number(t, p, p, e) && Sum(d[j..j]) == 0
  {
  }

  lemma NoNul(t: string, position: int, s: char, e: char, k: nat)
    ensures k < |Back(t, position, s, e)|
        <==> 0 <= position - k <= position < |t| && '\0' !in t[position - k..position + 1]
  {
    var d := Back(t, position, s, e);
    if k < |d| {
      BackFits(t, position, s, e, k + 1);
      forall i | position - k <= i <= position ensures t[i] != '\0' { BackAt(t, position, s, e, position - i); }
    } else {
      BackAt(t, position, s, e, |d|);
      if 0 <= position - k <= position < |t| { assert t[position - |d|] in t[position - k..position + 1]; }
    }
  }

  /** The unmatched openers are those of the text. */
  lemma UnmatchedIsOpen(t: string, position: int, s: char, e: char, k: nat)
    ensures Unmatched(Back(t, position, s, e), k) <==> OpenAt(t, position, position - k, s, e)
  {
    var d, r := Back(t, position, s, e), position - k;
    NoNul(t, position, s, e, k);
    if k < |d| {
      BackAt(t, position, s, e, k);
      if s != e {
        forall j | 0 <= j <= k ensures Sum(d[j..k]) >= 0 <==> Covered(t, r, position + 1 - j, s, e) {
          CoveredSum(t, position, s, e, j, k);
        }
        if Unmatched(d, k) {
          forall i | r < i <= position + 1 ensures Covered(t, r, i, s, e) {
            var j := position + 1 - i;
            assert Sum(d[j..k]) >= 0;
          }
        }
      }
    }
  }

  lemma CoveredSum(t: string, position: int, s: char, e: char, j: nat, k: nat)
    requires j <= k < |Back(t, position, s, e)| && s != e
    ensures 0 <= position - k && position < |t|
    ensures Sum(Back(t, position, s, e)[j..k]) >= 0 <==> Covered(t, position - k, position + 1 - j, s, e)
  {
    BackFits(t, position, s, e, k + 1);
    if k > 0 { SumCounts(t, position, s, e, j, k); }
  }

  lemma NearestOpens(t: string, position: int, s: char, e: char, r: int)
    requires 0 <= r <= position && Nearest(Back(t, position, s, e), position - r)
    ensures OpenAt(t, position, r, s, e)
    ensures forall q :: q > r ==> !OpenAt(t, position, q, s, e)
  {
    UnmatchedIsOpen(t, position, s, e, position - r);
    forall q | q > r ensures !OpenAt(t, position, q, s, e) {
      if q <= position { UnmatchedIsOpen(t, position, s, e, position - q); }
    }
  }

  lemma NoneOpen(t: string, position: int, s: char, e: char)
    requires var d := Back(t, position, s, e); forall k :: 0 <= k < |d| ==> !Unmatched(d, k)
    ensures forall q :: !OpenAt(t, position, q, s, e)
  {
    forall q ensures !OpenAt(t, position, q, s, e) {
      if q <= position { UnmatchedIsOpen(t, position, s, e, position - q); }
    }
  }

  method FindBlockStart(t: string, position: int, blockStart: char, blockEnd: char) returns (r: int)
    ensures var d := Back(t, position, blockStart, blockEnd);
      && (r == -1 ==> forall k :: 0 <= k < |d| ==> !Unmatched(d, k))
      && (r != -1 ==> 0 <= r <= position && Nearest(d, position - r))
    ensures r == -1 <==> forall q :: !OpenAt(t, position, q, blockStart, blockEnd)
    ensures r != -1 ==> OpenAt(t, position, r, blockStart, blockEnd)
                        && forall q :: q > r ==> !OpenAt(t, position, q, blockStart, blockEnd)
  {
    hide Unmatched, Nearest, OpenAt;
    ghost var d := Back(t, position, blockStart, blockEnd);
    var lvl, pos := 0, position;
    var b := CharAt(t, pos);
    while b != '\0'
      invariant 0 <= position - pos <= |d| && b == CharAt(t, pos)
      invariant lvl == -Sum(d[..position - pos])
      invariant forall m :: 0 <= m <= position - pos ==> Sum(d[..m]) <= 0
      decreases pos + 1
    {
      ghost var k := position - pos;
      BackAt(t, position, blockStart, blockEnd, k);
      SumNext(d, k);
      if b == blockEnd {
        lvl := lvl + 1;
      } else if b == blockStart {
        if lvl == 0 {
          FoundNearest(d, k);
          NearestOpens(t, position, blockStart, blockEnd, pos);
          return pos;
        }
        lvl := lvl - 1;
      }
      pos := pos - 1;
      b := CharAt(t, pos);
    }
    BackAt(t, position, blockStart, blockEnd, position - pos);
    NoneYet(d, position - pos);
    NoneOpen(t, position, blockStart, blockEnd);
    return -1;
  }

  /** With one character for both ends nothing is ever found. */
  lemma SameDelimiter(t: string, position: int, c: char, k: nat)
    ensures !Unmatched(Back(t, position, c, c), k)
  {
    BackAt(t, position, c, c, k);
  }

  // ------------------------------------------------------------------------ words

  /** The places where a word is found, and its length. */
  datatype Word = Word(starts: set<nat>, length: nat)

  /** FindText backwards from pos: the last occurrence that ends by pos, or -1. The empty
      word is found at pos. */
  function FindBack(w: Word, pos: int): (r: int)
    ensures w.length == 0 ==> r == pos
    ensures w.length > 0 ==> r == -1 || (0 <= r && r in w.starts && r + w.length <= pos)
    ensures w.length > 0 ==> forall p :: p in w.starts && p + w.length <= pos ==> p <= r
  {
    if w.length == 0 then pos else FindFrom(w, pos - w.length)
  }

  function FindFrom(w: Word, p: int): (r: int)
    ensures r == -1 || (0 <= r <= p && r in w.starts)
    ensures forall q :: q in w.starts && q <= p ==> q <= r
    decreases p + 1
  {
    if p < 0 then -1 else if p in w.starts then p else FindFrom(w, p - 1)
  }

  datatype Token = Token(start: nat, closes: bool)

  function Length(k: Token, open: Word, close: Word): nat {
    if k.closes then close.length else open.length
  }

  /** The words passed on the way back from pos: each time the one that starts last among
      those that end by the start of the one before; an opener, if both start there. */
  function Passed(open: Word, close: Word, pos: int): seq<Token>
    requires open.length > 0 && close.length > 0
    decreases pos + 1
  {
    var pb, pe := FindBack(open, pos), FindBack(close, pos);
    if pe > pb then [Token(pe, true)] + Passed(open, close, pe)
    else if pb >= 0 then [Token(pb, false)] + Passed(open, close, pb)
    else []
  }

  /** No occurrence of either word that ends by pos starts after p. */
  predicate LastBy(open: Word, close: Word, p: int, pos: int) {
    && (forall q :: q in open.starts && q + open.length <= pos ==> q <= p)
    && (forall q :: q in close.starts && q + close.length <= pos ==> q <= p)
  }

  /** Word k was passed right before `before`; with no word k, none fits there. */
  ghost predicate PassedAt(open: Word, close: Word, d: seq<Token>, k: nat, before: int) {
    if k < |d| then
      && d[k].start in (if d[k].closes then close else open).starts
      && d[k].start + Length(d[k], open, close) <= before
      && LastBy(open, close, d[k].start, before)
      && (d[k].closes ==> d[k].start !in open.starts || d[k].start + open.length > before)
    else LastBy(open, close, -1, before)
  }

  lemma FirstPassed(open: Word, close: Word, pos: int)
    requires open.length > 0 && close.length > 0
    ensures PassedAt(open, close, Passed(open, close, pos), 0, pos)
    ensures var d := Passed(open, close, pos); d != [] ==> d[1..] == Passed(open, close, d[0].start)
  {
    hide FindBack;
  }

  /** The words passed are occurrences that do not overlap, and no other occurrence fits
      between two of them; where both words start, it is the opener that is passed. */
  lemma {:induction false} PassedTile(open: Word, close: Word, pos: int, k: nat)
    requires open.length > 0 && close.length > 0
    ensures var d := Passed(open, close, pos);
      k <= |d| ==> PassedAt(open, close, d, k, if k == 0 then pos else d[k - 1].start)
    decreases k
  {
    var d := Passed(open, close, pos);
    FirstPassed(open, close, pos);
    hide Passed, PassedAt;
    if 0 < k <= |d| {
      PassedTile(open, close, d[0].start, k - 1);
      PassedOn(open, close, d, k);
    }
  }

  lemma PassedOn(open: Word, close: Word, d: seq<Token>, k: nat)
    requires 0 < k <= |d|
    requires PassedAt(open, close, d[1..], k - 1, if k == 1 then d[0].start else d[1..][k - 2].start)
    ensures PassedAt(open, close, d, k, d[k - 1].start)
  {
    hide LastBy;
    var rest := d[1..];
    assert k < |d| ==> rest[k - 1] == d[k];
  }

  function Weights(d: seq<Token>): (r: seq<int>)
    ensures |r| == |d| && forall k :: 0 <= k < |d| ==> r[k] == if d[k].closes then -1 else 1
  {
    seq(|d|, k requires 0 <= k < |d| => if d[k].closes then -1 else 1)
  }

  ghost predicate NoneUnmatched(open: Word, close: Word, position: int)
    requires open.length > 0 && close.length > 0
  {
    var d := Passed(open, close, position);
    forall k :: 0 <= k < |d| ==> !Unmatched(Weights(d), k)
  }

  ghost predicate NearestStarts(open: Word, close: Word, position: int, r: int)
    requires open.length > 0 && close.length > 0
  {
    var d := Passed(open, close, position);
    exists k :: 0 <= k < |d| && d[k].start == r && Nearest(Weights(d), k)
  }

  /** The loop has passed n words and is at pos; lvl closers are still to be matched. */
  ghost predicate Reached(open: Word, close: Word, position: int, pos: int, n: nat, lvl: int)
    requires open.length > 0 && close.length > 0
  {
    var d := Passed(open, close, position);
    && n <= |d| && d[n..] == Passed(open, close, pos)
    && lvl == -Sum(Weights(d)[..n])
    && forall m :: 0 <= m <= n ==> Sum(Weights(d)[..m]) <= 0
  }

  lemma NextReached(open: Word, close: Word, position: int, pos: int, n: nat, lvl: int)
    requires open.length > 0 && close.length > 0 && Reached(open, close, position, pos, n, lvl)
    ensures var pb, pe := FindBack(open, pos), FindBack(close, pos);
      if pe > pb then Reached(open, close, position, pe, n + 1, lvl + 1)
      else if pb == -1 then NoneUnmatched(open, close, position)
      else if lvl == 0 then NearestStarts(open, close, position, pb)
      else Reached(open, close, position, pb, n + 1, lvl - 1)
  {
    hide FindBack, Unmatched, Nearest, Weights;
    var d := Passed(open, close, position);
    var w := Weights(d);
    if n < |d| {
      SumNext(w, n);
      assert d[n..][1..] == d[n + 1..];
      if lvl == 0 && !d[n].closes { FoundNearest(w, n); }
    } else {
      NoneYet(w, n);
    }
  }

  /** With an empty closing word but an opening one the loop would not end; with an empty
      opening word it ends where it starts. */
  method FindBlockStartWord(open: Word, close: Word, position: int) returns (r: int)
    requires open.length == 0 || close.length > 0
    ensures open.length == 0 && position >= 0 ==> r == position
    ensures open.length > 0 && r == -1 ==> NoneUnmatched(open, close, position)
    ensures open.length > 0 && r != -1 ==> NearestStarts(open, close, position, r) && r in open.starts
  {
    hide NoneUnmatched, NearestStarts, Reached;
    var pos, lvl := position, 0;
    ghost var n := 0;
    if open.length > 0 { StartReached(open, close, position); }
    while true
      invariant open.length == 0 ==> pos == position && lvl == 0
      invariant open.length > 0 ==> Reached(open, close, position, pos, n, lvl)
      decreases pos + 1
    {
      var pb := FindBack(open, pos);
      var pe := FindBack(close, pos);
      if open.length > 0 { NextReached(open, close, position, pos, n, lvl); }
      n := n + 1;
      if pe > pb {
        pos := pe;
        lvl := lvl + 1;
      } else {
        pos := pb;
        if lvl == 0 { return pb; }
        lvl := lvl - 1;
      }
      if pos == -1 { break; }
    }
    return -1;
  }

  lemma StartReached(open: Word, close: Word, position: int)
    requires open.length > 0 && close.length > 0
    ensures Reached(open, close, position, position, 0, 0)
  {
  }
}
