/** The free list of BlockAllocator, with slots named by number: block k holds the slots
    poolSize*k to poolSize*k + poolSize - 1. BlockAllocator.dfy has the linked slots. */
module BlockStore {
  import opened Basics

  datatype Store = Store(
    free: seq<nat>,
    live: set<nat>,
    blocks: nat,
    refCount: int,
    maxRefs: int,
    totalRefs: int)

  const EMPTY := Store([], {}, 0, 0, 0, 0)

  function Slots(s: Store, poolSize: nat): nat { poolSize * s.blocks }

  /** AllocBlockPushBack */
  function Grow(s: Store, poolSize: nat): Store {
    s.(free := Range(Slots(s, poolSize), poolSize), blocks := s.blocks + 1)
  }

  function CountNew(s: Store, debug: bool): Store {
    if !debug then s
    else s.(refCount := s.refCount + 1, totalRefs := s.totalRefs + 1,
            maxRefs := if s.refCount + 1 > s.maxRefs then s.refCount + 1 else s.maxRefs)
  }

  /** New: the first free slot, of a new block when there is none. */
  function New(s: Store, poolSize: nat, debug: bool): (Store, nat)
    requires poolSize > 0
  {
    var s1 := CountNew(s, debug);
    var s2 := if s1.free == [] then Grow(s1, poolSize) else s1;
    (s2.(free := s2.free[1..], live := s2.live + {s2.free[0]}), s2.free[0])
  }

  /** Delete: the slot becomes the first free one. */
  function Delete(s: Store, p: nat, debug: bool): Store {
    s.(free := [p] + s.free, live := s.live - {p}, refCount := if debug then s.refCount - 1 else s.refCount)
  }

  datatype Op = Alloc | Free(slot: nat)

  /** A run of calls; only what New returned and is not deleted yet may be deleted. */
  function After(poolSize: nat, debug: bool, ops: seq<Op>): Option<Store>
    requires poolSize > 0
  {
    if ops == [] then Some(EMPTY)
    else match After(poolSize, debug, ops[..|ops|-1])
         case None => None
         case Some(s) =>
           match ops[|ops|-1]
           case Alloc => Some(New(s, poolSize, debug).0)
           case Free(p) => if p in s.live then Some(Delete(s, p, debug)) else None
  }

  /** The largest number of slots that were live at the same time. */
  function Peak(poolSize: nat, debug: bool, ops: seq<Op>): nat
    requires poolSize > 0 && After(poolSize, debug, ops).Some?
  {
    if ops == [] then 0 else
    var before := Peak(poolSize, debug, ops[..|ops|-1]);
    var now := |After(poolSize, debug, ops).value.live|;
    if now > before then now else before
  }

  function Allocs(ops: seq<Op>): nat {
    if ops == [] then 0 else Allocs(ops[..|ops|-1]) + if ops[|ops|-1] == Alloc then 1 else 0
  }

  // -------------------------------------------------------------------- invariant

  /** The free list has no duplicates and, with the live slots, makes up all there are. */
  ghost predicate Partition(free: seq<nat>, live: set<nat>, slots: nat) {
    && (forall i, j :: 0 <= i < j < |free| ==> free[i] != free[j])
    && (forall p :: p in free ==> p !in live)
    && (forall p: nat :: p < slots <==> p in free || p in live)
    && |free| + |live| == slots
  }

  ghost predicate Inv(s: Store, poolSize: nat) {
    Partition(s.free, s.live, Slots(s, poolSize))
  }

  lemma GrowInv(s: Store, poolSize: nat)
    requires Inv(s, poolSize) && s.free == [] && poolSize > 0
    ensures Inv(Grow(s, poolSize), poolSize)
  {
    var t := Grow(s, poolSize);
    assert Slots(t, poolSize) == Slots(s, poolSize) + poolSize;
    forall p: nat ensures p < Slots(t, poolSize) <==> p in t.free || p in t.live {
      if Slots(s, poolSize) <= p < Slots(t, poolSize) { assert t.free[p - Slots(s, poolSize)] == p; }
    }
  }

  lemma TakeInv(s: Store, poolSize: nat)
    requires Inv(s, poolSize) && s.free != []
    ensures Inv(s.(free := s.free[1..], live := s.live + {s.free[0]}), poolSize)
  {
    assert s.free == [s.free[0]] + s.free[1..];
    assert forall p :: p in s.free <==> p == s.free[0] || p in s.free[1..];
  }

  lemma NewInv(s: Store, poolSize: nat, debug: bool)
    requires Inv(s, poolSize) && poolSize > 0
    ensures Inv(New(s, poolSize, debug).0, poolSize)
  {
    var s1 := CountNew(s, debug);
    assert Inv(s1, poolSize);
    if s1.free == [] {
      GrowInv(s1, poolSize);
      TakeInv(Grow(s1, poolSize), poolSize);
    } else {
      TakeInv(s1, poolSize);
    }
  }

  lemma DeleteInv(s: Store, poolSize: nat, p: nat, debug: bool)
    requires Inv(s, poolSize) && p in s.live
    ensures Inv(Delete(s, p, debug), poolSize)
  {
    var t := Delete(s, p, debug);
    forall i, j | 0 <= i < j < |t.free| ensures t.free[i] != t.free[j] {
      assert t.free[j] == s.free[j - 1];
      if i > 0 { assert t.free[i] == s.free[i - 1]; }
    }
    assert forall q :: q in t.free <==> q == p || q in s.free;
  }

  lemma {:induction false} RunInv(poolSize: nat, debug: bool, ops: seq<Op>)
    requires poolSize > 0 && After(poolSize, debug, ops).Some?
    ensures Inv(After(poolSize, debug, ops).value, poolSize)
  {
    if ops != [] {
      var s := After(poolSize, debug, ops[..|ops|-1]).value;
      RunInv(poolSize, debug, ops[..|ops|-1]);
      match ops[|ops|-1]
      case Alloc => NewInv(s, poolSize, debug);
      case Free(p) => DeleteInv(s, poolSize, p, debug);
    }
  }

  // --------------------------------------------------------------------- theorems

  /** In every run, free and live slots make up all the slots there are, without overlap
      and without duplicates, and the slot that New returns next is not live. */
  lemma SlotsPartitioned(poolSize: nat, debug: bool, ops: seq<Op>)
    requires poolSize > 0 && After(poolSize, debug, ops).Some?
    ensures var s := After(poolSize, debug, ops).value;
      && (forall i, j :: 0 <= i < j < |s.free| ==> s.free[i] != s.free[j])
      && (forall p: nat :: p < poolSize * s.blocks <==> p in s.free || p in s.live)
      && (forall p :: p in s.free ==> p !in s.live)
      && New(s, poolSize, debug).1 !in s.live
  {
    RunInv(poolSize, debug, ops);
    var s := After(poolSize, debug, ops).value;
    if s.free == [] { assert Slots(s, poolSize) !in s.live; }
  }

  /** Deleting a slot and allocating again gives the same slot and the same free list. */
  lemma LastFreedFirstReused(s: Store, poolSize: nat, debug: bool, p: nat)
    requires poolSize > 0 && p in s.live
    ensures var (t, q) := New(Delete(s, p, debug), poolSize, debug);
      q == p && t.free == s.free && t.live == s.live && t.blocks == s.blocks && t.refCount == s.refCount
  {
    assert ([p] + s.free)[1..] == s.free;
  }

  /** blocks is the peak divided by the pool size, rounded up. */
  ghost predicate Optimal(blocks: nat, peak: nat, poolSize: nat) {
    if blocks == 0 then peak == 0 else poolSize * (blocks - 1) < peak <= poolSize * blocks
  }

  lemma OptimalIsCeiling(blocks: nat, peak: nat, poolSize: nat)
    requires poolSize > 0 && Optimal(blocks, peak, poolSize)
    ensures blocks == (peak + poolSize - 1) / poolSize
  {
    var rest := peak + poolSize - 1 - poolSize * blocks;
    if blocks > 0 {
      assert poolSize * blocks == poolSize * (blocks - 1) + poolSize;
    }
    assert 0 <= rest < poolSize;
    Quotient(blocks, poolSize, rest);
  }

  lemma Quotient(q: nat, d: nat, r: nat)
    requires r < d
    ensures (d * q + r) / d == q
  {
    var x := d * q + r;
    var k := x / d - q;
    assert x == d * (x / d) + x % d;
    assert d * k == r - x % d by { assert d * (x / d) == d * q + d * k; }
    MultipleBound(d, k);
  }

  lemma MultipleBound(d: nat, k: int)
    requires 0 - d < d * k < d
    ensures k == 0
  {
  }

  lemma PeakBound(poolSize: nat, debug: bool, ops: seq<Op>)
    requires poolSize > 0 && After(poolSize, debug, ops).Some?
    ensures |After(poolSize, debug, ops).value.live| <= Peak(poolSize, debug, ops)
  {
  }

  lemma {:induction false} BlocksOptimal(poolSize: nat, debug: bool, ops: seq<Op>)
    requires poolSize > 0 && After(poolSize, debug, ops).Some?
    ensures Optimal(After(poolSize, debug, ops).value.blocks, Peak(poolSize, debug, ops), poolSize)
  {
    if ops != [] {
      var s := After(poolSize, debug, ops[..|ops|-1]).value;
      BlocksOptimal(poolSize, debug, ops[..|ops|-1]);
      PeakBound(poolSize, debug, ops[..|ops|-1]);
      match ops[|ops|-1]
      case Alloc =>
        RunInv(poolSize, debug, ops[..|ops|-1]);
        AllocOptimal(s, poolSize, debug, Peak(poolSize, debug, ops[..|ops|-1]));
      case Free(p) => FreeShrinks(s, p);
    }
  }

  lemma AllocOptimal(s: Store, poolSize: nat, debug: bool, peak: nat)
    requires poolSize > 0 && Inv(s, poolSize) && |s.live| <= peak && Optimal(s.blocks, peak, poolSize)
    ensures var t := New(s, poolSize, debug).0;
      Optimal(t.blocks, if |t.live| > peak then |t.live| else peak, poolSize)
  {
    NewGrows(s, poolSize, debug);
    var t := New(s, poolSize, debug).0;
    if s.free == [] {
      assert peak == |s.live|;
      assert poolSize * t.blocks == poolSize * s.blocks + poolSize;
    }
  }

  lemma FreeShrinks(s: Store, p: nat)
    requires p in s.live
    ensures |s.live - {p}| == |s.live| - 1
  {
  }

  lemma NewGrows(s: Store, poolSize: nat, debug: bool)
    requires poolSize > 0 && Inv(s, poolSize)
    ensures var t := New(s, poolSize, debug).0;
      && |t.live| == |s.live| + 1
      && t.blocks == s.blocks + (if s.free == [] then 1 else 0)
      && (s.free == [] ==> |s.live| == poolSize * s.blocks)
      && |t.live| <= poolSize * t.blocks
  {
    NewInv(s, poolSize, debug);
    if s.free == [] { assert Slots(s, poolSize) !in s.live; }
  }

  /** No run ever allocates more blocks than its peak needs, and with the debug counters on
      max_refs is that peak, ref_count the number of live slots and total_refs the number
      of calls of New. */
  lemma BlocksAreCeiling(poolSize: nat, debug: bool, ops: seq<Op>)
    requires poolSize > 0 && After(poolSize, debug, ops).Some?
    ensures var s := After(poolSize, debug, ops).value;
      && s.blocks == (Peak(poolSize, debug, ops) + poolSize - 1) / poolSize
      && (debug ==> s.maxRefs == Peak(poolSize, debug, ops) && s.refCount == |s.live| && s.totalRefs == Allocs(ops))
  {
    BlocksOptimal(poolSize, debug, ops);
    OptimalIsCeiling(After(poolSize, debug, ops).value.blocks, Peak(poolSize, debug, ops), poolSize);
    if debug { CountersExact(poolSize, ops); }
  }

  lemma {:induction false} CountersExact(poolSize: nat, ops: seq<Op>)
    requires poolSize > 0 && After(poolSize, true, ops).Some?
    ensures var s := After(poolSize, true, ops).value;
      s.maxRefs == Peak(poolSize, true, ops) && s.refCount == |s.live| && s.totalRefs == Allocs(ops)
  {
    if ops != [] {
      var s := After(poolSize, true, ops[..|ops|-1]).value;
      CountersExact(poolSize, ops[..|ops|-1]);
      RunInv(poolSize, true, ops[..|ops|-1]);
      PeakBound(poolSize, true, ops[..|ops|-1]);
      match ops[|ops|-1]
      case Alloc => NewGrows(s, poolSize, true);
      case Free(p) => FreeShrinks(s, p);
    }
  }
}
