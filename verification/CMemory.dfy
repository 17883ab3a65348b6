/** Allocation as the library sees it: every request may fail, and every block must be
    freed exactly once. A block is named by the number of the request that made it. */
module CMemory {
  import opened PamTypes

  type Block = nat

  /** An owned, NUL-terminated string. */
  datatype CStr = CStr(block: Block, text: string)

  class CHeap {
    const fails: nat -> bool   // whether the k-th request fails
    var clock: nat             // requests made so far
    ghost var live: set<Block> // blocks allocated and not yet freed

    ghost predicate Valid()
      reads this
    {
      forall b :: b in live ==> b < clock
    }

    constructor (fails: nat -> bool)
      ensures Valid() && this.fails == fails && clock == 0 && live == {}
    {
      this.fails := fails;
      clock := 0;
      live := {};
    }

    method Alloc() returns (b: Option<Block>)
      requires Valid()
      modifies this
      ensures Valid() && clock == old(clock) + 1
      ensures b == if fails(old(clock)) then None else Some(old(clock))
      ensures live == if b.Some? then old(live) + {b.value} else old(live)
    {
      b := if fails(clock) then None else Some(clock);
      if b.Some? { live := live + {b.value}; }
      clock := clock + 1;
    }

    /** Freeing needs a live block: a second free of it cannot be written. */
    method Free(b: Block)
      requires Valid() && b in live
      modifies this`live
      ensures Valid() && live == old(live) - {b}
    {
      live := live - {b};
    }
  }
}
