/** Arrays whose slots own at most one string each: conversation answers and the
    string fields of a message. */
module OwnedSlots {
  import opened PamTypes
  import opened CMemory

  function Text(slot: Option<CStr>): Option<string> {
    match slot case Some(s) => Some(s.text) case None => None
  }

  /** The blocks the slots own. */
  ghost function Held(slots: seq<Option<CStr>>): set<Block> {
    set i | 0 <= i < |slots| && slots[i].Some? :: slots[i].value.block
  }

  /** No block is owned twice. */
  ghost predicate OneOwner(slots: seq<Option<CStr>>) {
    forall i, j :: 0 <= i < j < |slots| && slots[i].Some? && slots[j].Some? ==>
      slots[i].value.block != slots[j].value.block
  }

  /** Filling an empty slot adds exactly its block. */
  lemma HeldFill(slots: seq<Option<CStr>>, i: nat, s: CStr)
    requires i < |slots| && slots[i] == None && s.block !in Held(slots) && OneOwner(slots)
    ensures Held(slots[i := Some(s)]) == Held(slots) + {s.block} && OneOwner(slots[i := Some(s)])
  {
    var after := slots[i := Some(s)];
    forall b | b in Held(slots) + {s.block} ensures b in Held(after) {
      if b == s.block {
        assert after[i].value.block == b;
      } else {
        var k :| 0 <= k < |slots| && slots[k].Some? && slots[k].value.block == b;
        assert after[k].value.block == b;
      }
    }
    forall k | 0 <= k < |slots| && slots[k].Some? ensures slots[k].value.block in Held(slots) {}
  }

  /** Emptying a slot gives up exactly its block. */
  lemma HeldEmpty(slots: seq<Option<CStr>>, i: nat)
    requires i < |slots| && slots[i].Some? && OneOwner(slots)
    ensures slots[i].value.block in Held(slots)
    ensures Held(slots[i := None]) == Held(slots) - {slots[i].value.block} && OneOwner(slots[i := None])
  {
    var after := slots[i := None];
    forall b | b in Held(slots) - {slots[i].value.block} ensures b in Held(after) {
      var k :| 0 <= k < |slots| && slots[k].Some? && slots[k].value.block == b;
      assert after[k].value.block == b;
    }
  }

  lemma HeldPrefix(slots: seq<Option<CStr>>, i: nat)
    requires i < |slots| && OneOwner(slots)
    ensures Held(slots[..i + 1]) == Held(slots[..i]) + (if slots[i].Some? then {slots[i].value.block} else {})
    ensures slots[i].Some? ==> slots[i].value.block !in Held(slots[..i]) && slots[i].value.block in Held(slots)
  {
    forall b | b in Held(slots[..i]) ensures b in Held(slots[..i + 1]) {
      var k :| 0 <= k < i && slots[k].Some? && slots[k].value.block == b;
      assert slots[..i + 1][k].value.block == b;
    }
    if slots[i].Some? { assert slots[..i + 1][i].value.block == slots[i].value.block; }
  }

  /** Free slot i when the slots before it have been freed; NULL is nothing to free. */
  method FreeNext(heap: CHeap, slots: array<Option<CStr>>, i: nat, ghost before: set<Block>)
    requires heap.Valid() && i < slots.Length && OneOwner(slots[..])
    requires Held(slots[..]) <= before && heap.live == before - Held(slots[..i])
    modifies heap`live
    ensures heap.Valid() && heap.live == before - Held(slots[..i + 1])
  {
    HeldPrefix(slots[..], i);
    assert slots[..][..i] == slots[..i] && slots[..][..i + 1] == slots[..i + 1];
    if slots[i].Some? { heap.Free(slots[i].value.block); }
  }

  method FreeAll(heap: CHeap, slots: array<Option<CStr>>)
    requires heap.Valid() && OneOwner(slots[..]) && Held(slots[..]) <= heap.live
    modifies heap`live
    ensures heap.Valid() && heap.live == old(heap.live) - Held(slots[..])
  {
    for i := 0 to slots.Length
      invariant heap.Valid() && heap.live == old(heap.live) - Held(slots[..i])
    {
      FreeNext(heap, slots, i, old(heap.live));
    }
    assert slots[..slots.Length] == slots[..];
  }
}
