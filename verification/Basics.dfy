/** What several components share. */
module Basics {

  datatype Option<+T> = None | Some(value: T)

  /** The numbers lo, lo + 1, ..., n of them. */
  function Range(lo: nat, n: nat): (r: seq<nat>)
    ensures |r| == n
    ensures forall i :: 0 <= i < n ==> r[i] == lo + i
    ensures forall x :: x in r <==> lo <= x < lo + n
  {
    if n == 0 then [] else Range(lo, n - 1) + [lo + n - 1]
  }
}
