/** The item shown just above another one in a tree control. Items are named by their path
    of child numbers from the root. */
module TreeView {
  import opened Basics

  /** An item may be marked as having children although it has none yet. */
  datatype Item = Item(children: seq<Item>, expanded: bool, marked: bool)

  type Path = seq<nat>

  predicate IsItem(t: Item, p: Path) {
    p == [] || (p[0] < |t.children| && IsItem(t.children[p[0]], p[1..]))
  }

  function ItemAt(t: Item, p: Path): Item
    requires IsItem(t, p)
  {
    if p == [] then t else ItemAt(t.children[p[0]], p[1..])
  }

  // ------------------------------------------------------------------ specification

  /** An item is visible when everything above it is expanded. */
  predicate Visible(t: Item, p: Path) {
    p == [] || (t.expanded && p[0] < |t.children| && Visible(t.children[p[0]], p[1..]))
  }

  function Under(i: nat, ps: seq<Path>): (r: seq<Path>)
    ensures |r| == |ps| && forall k :: 0 <= k < |ps| ==> r[k] == [i] + ps[k]
  {
    seq(|ps|, k requires 0 <= k < |ps| => [i] + ps[k])
  }

  /** The visible items from top to bottom. */
  function Listing(t: Item): seq<Path>
    decreases t, |t.children| + 1
  {
    [[]] + if t.expanded then ListingBelow(t, |t.children|) else []
  }

  /** Those in the first n branches. */
  function ListingBelow(t: Item, n: nat): seq<Path>
    requires n <= |t.children|
    decreases t, n
  {
    if n == 0 then [] else ListingBelow(t, n - 1) + Under(n - 1, Listing(t.children[n - 1]))
  }

  /** item is listed, and each time it is q is listed right before it. */
  ghost predicate JustAbove(t: Item, q: Path, item: Path) {
    && (exists k :: 0 < k < |Listing(t)| && Listing(t)[k] == item)
    && (forall k :: 0 < k < |Listing(t)| && Listing(t)[k] == item ==> Listing(t)[k - 1] == q)
  }

  // ----------------------------------------------------------------- the tree control

  function GetPrevSibling(p: Path): (r: Option<Path>)
  {
    if p == [] || p[|p| - 1] == 0 then None else Some(p[..|p| - 1] + [p[|p| - 1] - 1])
  }

  function GetItemParent(p: Path): Option<Path> {
    if p == [] then None else Some(p[..|p| - 1])
  }

  predicate ItemHasChildren(t: Item, p: Path)
    requires IsItem(t, p)
  {
    ItemAt(t, p).children != [] || ItemAt(t, p).marked
  }

  predicate IsExpanded(t: Item, p: Path)
    requires IsItem(t, p)
  {
    ItemAt(t, p).expanded
  }

  function GetLastChild(t: Item, p: Path): Option<Path>
    requires IsItem(t, p)
  {
    var n := |ItemAt(t, p).children|;
    if n == 0 then None else Some(p + [n - 1])
  }

  // -------------------------------------------------------------------------- method

  method GetPrevVisible(t: Item, item: Path) returns (previous: Option<Path>)
    requires IsItem(t, item)
    ensures item == [] <==> previous == None
    ensures Visible(t, item) && item != [] ==> JustAbove(t, previous.value, item)
    ensures item != [] ==> previous == Some(Above(t, item))
  {
    previous := GetPrevSibling(item);
    if previous != None {
      Siblings(t, item);
      ghost var first := previous.value;
      while ItemHasChildren(t, previous.value) && IsExpanded(t, previous.value)
        invariant previous.Some? && IsItem(t, previous.value)
        invariant previous.value + Bottom(ItemAt(t, previous.value)) == first + Bottom(ItemAt(t, first))
        decreases ItemAt(t, previous.value)
      {
        var child := GetLastChild(t, previous.value);
        if child == None {
          break;
        } else {
          ChildOf(t, previous.value, |ItemAt(t, previous.value).children| - 1);
          previous := child;
        }
      }
      assert previous.value + Bottom(ItemAt(t, previous.value)) == previous.value;
    } else {
      previous := GetItemParent(item);
    }
    if item != [] {
      AboveIs(t, item);
      if Visible(t, item) { AboveIsJustAbove(t, item); }
    }
  }

  // ------------------------------------------------------------------------- lemmas

  /** The last visible item of the tree below t, relative to t. */
  function Bottom(t: Item): Path {
    if t.expanded && t.children != [] then [|t.children| - 1] + Bottom(t.children[|t.children| - 1]) else []
  }

  /** The item above p. */
  function Above(t: Item, p: Path): Path
    requires IsItem(t, p) && p != []
  {
    if |p| > 1 then [p[0]] + Above(t.children[p[0]], p[1..])
    else if p[0] == 0 then []
    else [p[0] - 1] + Bottom(t.children[p[0] - 1])
  }

  lemma {:induction false} ChildOf(t: Item, p: Path, i: nat)
    requires IsItem(t, p) && i < |ItemAt(t, p).children|
    ensures IsItem(t, p + [i]) && ItemAt(t, p + [i]) == ItemAt(t, p).children[i]
  {
    if p == [] {
      assert p + [i] == [i];
    } else {
      ChildOf(t.children[p[0]], p[1..], i);
      assert (p + [i])[1..] == p[1..] + [i];
    }
  }

  lemma {:induction false} ParentOf(t: Item, p: Path)
    requires IsItem(t, p) && p != []
    ensures IsItem(t, p[..|p| - 1]) && p[|p| - 1] < |ItemAt(t, p[..|p| - 1]).children|
  {
    if |p| > 1 {
      ParentOf(t.children[p[0]], p[1..]);
      assert p[1..][..|p| - 2] == p[..|p| - 1][1..];
    }
  }

  lemma Siblings(t: Item, p: Path)
    requires IsItem(t, p) && GetPrevSibling(p).Some?
    ensures IsItem(t, GetPrevSibling(p).value)
  {
    ParentOf(t, p);
    ChildOf(t, p[..|p| - 1], p[|p| - 1] - 1);
  }

  lemma TailSibling(p: Path)
    requires |p| > 1
    ensures p[..|p| - 1] == [p[0]] + p[1..][..|p| - 2]
    ensures match GetPrevSibling(p[1..])
      case None => GetPrevSibling(p) == None
      case Some(s) => GetPrevSibling(p) == Some([p[0]] + s)
  {
    var q, n := p[1..], |p| - 1;
    assert q[|q| - 1] == p[n] && p[..n] == [p[0]] + q[..n - 1];
    if p[n] > 0 { assert p[..n] + [p[n] - 1] == [p[0]] + (q[..n - 1] + [p[n] - 1]); }
  }

  lemma {:induction false} AboveIs(t: Item, p: Path)
    requires IsItem(t, p) && p != []
    ensures match GetPrevSibling(p)
      case None => Above(t, p) == p[..|p| - 1]
      case Some(s) => IsItem(t, s) && Above(t, p) == s + Bottom(ItemAt(t, s))
  {
    hide Bottom;
    if |p| > 1 {
      AboveIs(t.children[p[0]], p[1..]);
      TailSibling(p);
      hide GetPrevSibling;
      match GetPrevSibling(p[1..]) {
        case None =>
          assert |p[1..]| - 1 == |p| - 2;
        case Some(s) =>
          var r := [p[0]] + s;
          assert r[1..] == s;
          assert r + Bottom(ItemAt(t, r)) == [p[0]] + (s + Bottom(ItemAt(t, r)));
      }
    } else if p[0] > 0 {
      var s := GetPrevSibling(p).value;
      assert s == [p[0] - 1] && s[1..] == [];
    }
  }

  lemma {:induction false} BottomIsLast(t: Item)
    ensures Listing(t)[|Listing(t)| - 1] == Bottom(t)
  {
    if t.expanded && t.children != [] {
      BottomIsLast(t.children[|t.children| - 1]);
    }
  }

  lemma {:induction false} Adjacent(t: Item, k: nat)
    requires 0 < k < |Listing(t)|
    ensures IsItem(t, Listing(t)[k]) && Listing(t)[k] != []
    ensures Listing(t)[k - 1] == Above(t, Listing(t)[k])
    decreases t, |t.children| + 1
  {
    AdjacentBelow(t, |t.children|, k);
  }

  lemma {:induction false} AdjacentBelow(t: Item, n: nat, k: nat)
    requires n <= |t.children| && 0 < k <= |ListingBelow(t, n)|
    ensures var l := [[]] + ListingBelow(t, n);
      IsItem(t, l[k]) && l[k] != [] && l[k - 1] == Above(t, l[k])
    decreases t, n
  {
    var before, last := ListingBelow(t, n - 1), Listing(t.children[n - 1]);
    if k <= |before| {
      AdjacentBelow(t, n - 1, k);
    } else {
      var o := k - 1 - |before|;
      var l := [[]] + ListingBelow(t, n);
      assert l[k] == [n - 1] + last[o];
      assert l[k][1..] == last[o];
      if o > 0 {
        Adjacent(t.children[n - 1], o);
        assert l[k - 1] == [n - 1] + last[o - 1];
      } else if n > 1 {
        BottomIsLast(t.children[n - 2]);
      }
    }
  }

  lemma AboveIsJustAbove(t: Item, item: Path)
    requires Visible(t, item) && IsItem(t, item) && item != []
    ensures JustAbove(t, Above(t, item), item)
  {
    IsListed(t, item);
    forall k | 0 < k < |Listing(t)| && Listing(t)[k] == item ensures Listing(t)[k - 1] == Above(t, item) {
      Adjacent(t, k);
    }
  }

  /** The listing has only visible items, and IsListed shows that it has them all. */
  lemma {:induction false} ListedIsVisible(t: Item, k: nat)
    requires k < |Listing(t)|
    ensures Visible(t, Listing(t)[k])
    decreases t, |t.children| + 1
  {
    if k > 0 { BelowIsVisible(t, |t.children|, k - 1); }
  }

  lemma {:induction false} BelowIsVisible(t: Item, n: nat, k: nat)
    requires t.expanded && n <= |t.children| && k < |ListingBelow(t, n)|
    ensures Visible(t, ListingBelow(t, n)[k])
    decreases t, n
  {
    var before, last := ListingBelow(t, n - 1), Listing(t.children[n - 1]);
    if k < |before| {
      BelowIsVisible(t, n - 1, k);
    } else {
      ListedIsVisible(t.children[n - 1], k - |before|);
      assert ListingBelow(t, n)[k] == [n - 1] + last[k - |before|];
      assert ListingBelow(t, n)[k][1..] == last[k - |before|];
    }
  }

  lemma {:induction false} IsListed(t: Item, p: Path)
    requires Visible(t, p)
    ensures p in Listing(t)
    ensures p != [] ==> exists k :: 0 < k < |Listing(t)| && Listing(t)[k] == p
  {
    if p == [] {
      assert Listing(t)[0] == [];
    } else {
      var c := t.children[p[0]];
      IsListed(c, p[1..]);
      var o :| 0 <= o < |Listing(c)| && Listing(c)[o] == p[1..];
      var k := BranchAt(t, |t.children|, p[0], o);
      assert p == [p[0]] + p[1..];
      assert Listing(t)[k + 1] == p;
    }
  }

  lemma {:induction false} BranchAt(t: Item, n: nat, i: nat, o: nat) returns (k: nat)
    requires i < n <= |t.children| && o < |Listing(t.children[i])|
    ensures k < |ListingBelow(t, n)| && ListingBelow(t, n)[k] == [i] + Listing(t.children[i])[o]
    decreases n
  {
    if i == n - 1 {
      k := |ListingBelow(t, n - 1)| + o;
    } else {
      k := BranchAt(t, n - 1, i, o);
    }
  }

  /** p comes above q: it leads down to q, or turns off into an earlier branch. */
  predicate Before(p: Path, q: Path) {
    q != [] && (p == [] || p[0] < q[0] || (p[0] == q[0] && Before(p[1..], q[1..])))
  }

  lemma {:induction false} InBranches(t: Item, n: nat, k: nat)
    requires n <= |t.children| && k < |ListingBelow(t, n)|
    ensures ListingBelow(t, n)[k] != [] && ListingBelow(t, n)[k][0] < n
    decreases n
  {
    if k < |ListingBelow(t, n - 1)| { InBranches(t, n - 1, k); }
  }

  /** Each item is listed above those of its branches, and these branch by branch. */
  lemma {:induction false} ListingInOrder(t: Item, j: nat, k: nat)
    requires j < k < |Listing(t)|
    ensures Before(Listing(t)[j], Listing(t)[k])
    decreases t, |t.children| + 1
  {
    if j == 0 { InBranches(t, |t.children|, k - 1); } else { BelowInOrder(t, |t.children|, j - 1, k - 1); }
  }

  lemma {:induction false} BelowInOrder(t: Item, n: nat, j: nat, k: nat)
    requires n <= |t.children| && j < k < |ListingBelow(t, n)|
    ensures Before(ListingBelow(t, n)[j], ListingBelow(t, n)[k])
    decreases t, n
  {
    var before, last := ListingBelow(t, n - 1), Listing(t.children[n - 1]);
    var p, q := ListingBelow(t, n)[j], ListingBelow(t, n)[k];
    if k < |before| {
      BelowInOrder(t, n - 1, j, k);
    } else {
      assert q == [n - 1] + last[k - |before|];
      if j < |before| {
        InBranches(t, n - 1, j);
      } else {
        ListingInOrder(t.children[n - 1], j - |before|, k - |before|);
        assert p == [n - 1] + last[j - |before|];
        assert p[1..] == last[j - |before|] && q[1..] == last[k - |before|];
      }
    }
  }
}
