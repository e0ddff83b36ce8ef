/** BlockAllocator with its slots as linked objects. A slot's `next` shares its bytes with
    the data of a live slot, so nothing is known about it while the slot is in use. */
module BlockAllocator {
  import opened Basics
  import opened BlockStore

  class LinkedBlock {
    var next: LinkedBlock?

    constructor ()
    {
      next := null;
    }
  }

  class Allocator {
    const poolSize: nat
    const debug: bool
    var allocBlocks: seq<seq<LinkedBlock>>
    var first: LinkedBlock?
    var refCount: int
    var maxRefs: int
    var totalRefs: int

    // the slots of all blocks in order, and the state in terms of their numbers
    ghost var slots: seq<LinkedBlock>
    ghost var free: seq<nat>
    ghost var live: set<nat>

    ghost function State(): Store
      reads this
    {
      Store(free, live, |allocBlocks|, refCount, maxRefs, totalRefs)
    }

    /** The slots numbered in list are linked in that order, and head is the first. */
    static ghost predicate Chained(head: LinkedBlock?, list: seq<nat>, slots: seq<LinkedBlock>)
      reads slots
    {
      && (forall i :: 0 <= i < |list| ==> list[i] < |slots|)
      && head == At(list, slots, 0)
      && (forall i :: 0 <= i < |list| ==> slots[list[i]].next == At(list, slots, i + 1))
    }

    static ghost function At(list: seq<nat>, slots: seq<LinkedBlock>, i: nat): LinkedBlock? {
      if i < |list| && list[i] < |slots| then slots[list[i]] else null
    }

    ghost predicate Valid()
      reads this, slots
    {
      && poolSize > 0
      && |slots| == poolSize * |allocBlocks|
      && (forall i, j :: 0 <= i < j < |slots| ==> slots[i] != slots[j])
      && Partition(free, live, poolSize * |allocBlocks|)
      && Chained(first, free, slots)
    }

    constructor (poolSize: nat, debug: bool)
      requires poolSize > 0
      ensures Valid() && State() == EMPTY && this.poolSize == poolSize && this.debug == debug
    {
      this.poolSize, this.debug := poolSize, debug;
      allocBlocks, first, refCount, maxRefs, totalRefs := [], null, 0, 0, 0;
      slots, free, live := [], [], {};
    }

    /** A new block of slots, linked one after the other. */
    method AllocBlockPushBack()
      requires Valid() && free == []
      modifies this`allocBlocks, this`first, this`slots, this`free
      ensures Valid() && State() == Grow(old(State()), poolSize)
      ensures old(slots) <= slots && forall i :: |old(slots)| <= i < |slots| ==> fresh(slots[i])
    {
      GrowInv(State(), poolSize);
      var ptr := MakeBlock(poolSize);
      LinkBlock(ptr);
      AppendBlock(ptr);
    }

    method AppendBlock(ptr: seq<LinkedBlock>)
      requires |slots| == poolSize * |allocBlocks| && |ptr| == poolSize > 0 && Linked(ptr)
      modifies this`allocBlocks, this`first, this`slots, this`free
      ensures allocBlocks == old(allocBlocks) + [ptr] && slots == old(slots) + ptr
      ensures |slots| == poolSize * |allocBlocks|
      ensures free == Range(poolSize * old(|allocBlocks|), poolSize) && Chained(first, free, slots)
    {
      BlockIsChain(slots, ptr);
      OneMore(poolSize, |allocBlocks|);
      first, free, slots, allocBlocks := ptr[0], Range(|slots|, poolSize), slots + ptr, allocBlocks + [ptr];
    }

    static lemma OneMore(p: nat, k: nat)
      ensures p * (k + 1) == p * k + p
    {
    }

    static lemma BlockIsChain(older: seq<LinkedBlock>, ptr: seq<LinkedBlock>)
      requires |ptr| > 0 && Linked(ptr)
      ensures Chained(ptr[0], Range(|older|, |ptr|), older + ptr)
    {
      var list := Range(|older|, |ptr|);
      var slots := older + ptr;
      forall i | 0 <= i < |list|
        ensures list[i] < |slots| && slots[list[i]] == At(list, slots, i) == ptr[i]
      {
        assert list[i] == |older| + i;
      }
      forall i | 0 <= i < |list| ensures slots[list[i]].next == At(list, slots, i + 1) {
        assert ptr[i].next == if i + 1 < |ptr| then ptr[i + 1] else null;
        assert slots[list[i]] == ptr[i];
        if i + 1 < |list| {
          assert list[i + 1] < |slots| && slots[list[i + 1]] == ptr[i + 1];
          assert At(list, slots, i + 1) == ptr[i + 1];
        } else {
          assert At(list, slots, i + 1) == null;
        }
      }
    }

    static ghost predicate Linked(ptr: seq<LinkedBlock>)
      reads ptr
    {
      forall i :: 0 <= i < |ptr| ==> ptr[i].next == if i + 1 < |ptr| then ptr[i + 1] else null
    }

    method LinkBlock(ptr: seq<LinkedBlock>)
      requires |ptr| > 0 && forall i, j :: 0 <= i < j < |ptr| ==> ptr[i] != ptr[j]
      modifies ptr
      ensures Linked(ptr)
    {
      for i := 0 to |ptr| - 1
        invariant forall k :: 0 <= k < i ==> ptr[k].next == ptr[k + 1]
      {
        ptr[i].next := ptr[i + 1];
      }
      ptr[|ptr| - 1].next := null;
    }

    /** new LinkedBlock[n] */
    method MakeBlock(n: nat) returns (block: seq<LinkedBlock>)
      ensures |block| == n && fresh(block)
      ensures forall i, j :: 0 <= i < j < n ==> block[i] != block[j]
    {
      block := [];
      while |block| < n
        invariant |block| <= n && fresh(block)
        invariant forall i, j :: 0 <= i < j < |block| ==> block[i] != block[j]
      {
        var slot := new LinkedBlock();
        block := block + [slot];
      }
    }

    method CountNewRef()
      requires Valid()
      modifies this`refCount, this`totalRefs, this`maxRefs
      ensures Valid() && State() == CountNew(old(State()), debug)
    {
      if debug {
        refCount := refCount + 1;
        totalRefs := totalRefs + 1;
        maxRefs := if refCount > maxRefs then refCount else maxRefs;
      }
    }

    method New() returns (p: LinkedBlock, ghost n: nat)
      requires Valid()
      modifies this
      ensures Valid() && (State(), n) == BlockStore.New(old(State()), poolSize, debug)
      ensures n < |slots| && p == slots[n] && n !in old(live)
      ensures old(slots) <= slots && forall i :: |old(slots)| <= i < |slots| ==> fresh(slots[i])
    {
      CountNewRef();
      if first == null { AllocBlockPushBack(); }
      p, n := PopFront();
    }

    method PopFront() returns (p: LinkedBlock, ghost n: nat)
      requires Valid() && free != []
      modifies this`first, this`free, this`live
      ensures Valid() && n == old(free)[0] < |slots| && p == slots[n] && n !in old(live)
      ensures State() == old(State()).(free := old(free)[1..], live := old(live) + {n})
    {
      TakeInv(State(), poolSize);
      p, n := first, free[0];
      first := p.next;
      free, live := free[1..], live + {n};
      assert forall i :: 0 <= i < |free| ==> free[i] == old(free)[i + 1];
    }

    method Delete(p: LinkedBlock, ghost n: nat)
      requires Valid() && n in live && n < |slots| && p == slots[n]
      modifies this`refCount, this`first, this`free, this`live, p
      ensures Valid() && State() == BlockStore.Delete(old(State()), n, debug)
    {
      DeleteInv(State(), poolSize, n, debug);
      if debug { refCount := refCount - 1; }
      PushFront(p, n);
      live := live - {n};
    }

    method PushFront(p: LinkedBlock, ghost n: nat)
      requires n < |slots| && p == slots[n] && n !in free && Chained(first, free, slots)
      requires forall i, j :: 0 <= i < j < |slots| ==> slots[i] != slots[j]
      modifies this`first, this`free, p
      ensures first == p && free == [n] + old(free) && Chained(first, free, slots)
    {
      p.next := first;
      first := p;
      free := [n] + free;
      assert forall i :: 1 <= i < |free| ==> free[i] == old(free)[i - 1];
    }

    /** The client fills a live slot with data, over its `next`: the free list is not
        affected. */
    method Write(p: LinkedBlock, ghost n: nat, bytes: LinkedBlock?)
      requires Valid() && n in live && n < |slots| && p == slots[n]
      modifies p
      ensures Valid() && State() == old(State())
    {
      p.next := bytes;
    }
  }
}
