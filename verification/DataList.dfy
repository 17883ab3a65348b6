/** The handle's module data: a singly linked list of owned nodes, updated in place.
    Cleanup callbacks are recorded in `log`. */
module DataList {
  import opened PamTypes
  import opened CMemory
  import opened DataSpec

  class DataItem {
    const block: Block   // the node's own allocation
    const name: CStr
    var data: int
    var cleanup: Option<int>
    var next: DataItem?
    ghost var id: nat    // the call that registered the current data

    constructor (block: Block, name: CStr, data: int, cleanup: Option<int>, next: DataItem?, ghost id: nat)
      ensures this.block == block && this.name == name && this.data == data
      ensures this.cleanup == cleanup && this.next == next && this.id == id
    {
      this.block, this.name, this.data := block, name, data;
      this.cleanup, this.next, this.id := cleanup, next, id;
    }

    ghost function Value(): Registration
      reads this
    {
      Registration(name.text, data, cleanup, id)
    }
  }

  /** The list the nodes stand for. */
  ghost function Values(nodes: seq<DataItem>): (list: seq<Registration>)
    reads nodes
    ensures |list| == |nodes|
  {
    if nodes == [] then [] else [nodes[0].Value()] + Values(nodes[1..])
  }

  ghost function Blocks(nodes: seq<DataItem>): set<Block> {
    if nodes == [] then {} else {nodes[0].block, nodes[0].name.block} + Blocks(nodes[1..])
  }

  /** Nodes are different objects and share no allocation. */
  ghost predicate Separate(nodes: seq<DataItem>) {
    nodes != [] ==>
      && nodes[0] !in nodes[1..] && nodes[0].block != nodes[0].name.block
      && nodes[0].block !in Blocks(nodes[1..]) && nodes[0].name.block !in Blocks(nodes[1..])
      && Separate(nodes[1..])
  }

  /** Following `next` from `head` visits exactly these nodes. */
  ghost predicate Chain(head: DataItem?, nodes: seq<DataItem>)
    reads (set n | n in nodes)`next
    decreases |nodes|
  {
    if nodes == [] then head == null
    else head == nodes[0] && Chain(nodes[0].next, nodes[1..])
  }

  lemma {:induction false} ValuesAt(nodes: seq<DataItem>, i: nat)
    requires i < |nodes|
    ensures Values(nodes)[i] == nodes[i].Value()
  {
    if i > 0 { ValuesAt(nodes[1..], i - 1); }
  }

  lemma {:induction false} SeparateAt(nodes: seq<DataItem>, i: nat, j: nat)
    requires Separate(nodes) && i < j < |nodes|
    ensures nodes[i] != nodes[j]
  {
    if i == 0 {
      assert nodes[j] == nodes[1..][j - 1];
    } else {
      SeparateAt(nodes[1..], i - 1, j - 1);
    }
  }

  lemma {:induction false} LogStep(log: seq<Cleaned>, r: Registration, rest: seq<Registration>, status: int)
    ensures log + CleanUp(r, Final(status)) + FinalCleanups(rest, status) == log + FinalCleanups([r] + rest, status)
  {
    assert ([r] + rest)[1..] == rest;
  }

  /** Allocate a node and its name; a half-built node is freed. */
  method NewNode(heap: CHeap, name: string, data: int, cleanup: Option<int>, next: DataItem?, ghost id: nat)
    returns (d: DataItem?)
    requires heap.Valid()
    modifies heap
    ensures heap.Valid()
    ensures heap.clock == old(heap.clock) + (if heap.fails(old(heap.clock)) then 1 else 2)
    ensures d == null <==> heap.fails(old(heap.clock)) || heap.fails(old(heap.clock) + 1)
    ensures d == null ==> heap.live == old(heap.live)
    ensures d != null ==>
      && fresh(d) && d.next == next && d.Value() == Registration(name, data, cleanup, id)
      && d.block == old(heap.clock) && d.name.block == old(heap.clock) + 1
      && heap.live == old(heap.live) + {d.block, d.name.block}
  {
    var node := heap.Alloc();
    if node == None { return null; }
    var copy := heap.Alloc();
    if copy == None {
      heap.Free(node.value);
      return null;
    }
    d := new DataItem(node.value, CStr(copy.value, name), data, cleanup, next, id);
  }

  class DataList {
    var head: DataItem?
    ghost var nodes: seq<DataItem>
    ghost var log: seq<Cleaned>
    ghost var codes: seq<int>

    ghost predicate Valid(heap: CHeap)
      reads this, nodes, heap
    {
      && heap.Valid() && Chain(head, nodes) && Separate(nodes) && Blocks(nodes) <= heap.live
    }

    ghost function Owned(): set<Block>
      reads this
    {
      Blocks(nodes)
    }

    ghost function State(heap: CHeap): DataState
      reads this, nodes, heap
    {
      DataState(Values(nodes), log, heap.clock, codes)
    }

    twostate predicate Conserves(heap: CHeap)
      reads this, heap
    {
      && heap.live - Owned() == old(heap.live - Owned())
      && (nodes == old(nodes) || (nodes != [] && nodes[1..] == old(nodes) && fresh(nodes[0])))
    }

    constructor ()
      ensures head == null && nodes == [] && log == [] && codes == []
    {
      head := null;
      nodes, log, codes := [], [], [];
    }

    /** Walk to the node of that name, or to the end. */
    method Find(heap: CHeap, name: string) returns (d: DataItem?, ghost k: nat)
      requires Valid(heap)
      ensures k == IndexOf(Values(nodes), name)
      ensures d == if k < |nodes| then nodes[k] else null
    {
      d, k := head, 0;
      assert nodes[0..] == nodes;
      while d != null
        invariant 0 <= k <= |nodes| && Chain(d, nodes[k..])
        invariant IndexOf(Values(nodes), name) == k + IndexOf(Values(nodes[k..]), name)
        decreases |nodes| - k
      {
        assert nodes[k..][0] == d && nodes[k..][1..] == nodes[k + 1..];
        assert Values(nodes[k..])[1..] == Values(nodes[k + 1..]);
        if d.name.text == name { break; }
        d, k := d.next, k + 1;
      }
    }

    method GetData(heap: CHeap, name: Option<string>) returns (ret: int, data: Option<int>)
      requires Valid(heap)
      ensures (ret, data) == DataSpec.GetData(Values(nodes), name)
    {
      if name == None { return PAM_SYSTEM_ERR, None; }
      var d, k := Find(heap, name.value);
      if d == null { return PAM_NO_MODULE_DATA, None; }
      ValuesAt(nodes, k);
      return PAM_SUCCESS, Some(d.data);
    }

    /** Put new data into an existing node; its old callback runs first. */
    method Overwrite(heap: CHeap, d: DataItem, ghost k: nat, data: int, cleanup: Option<int>)
      requires Valid(heap) && k < |nodes| && d == nodes[k]
      modifies `log, `codes, d`data, d`cleanup, d`id
      ensures Valid(heap) && Conserves(heap)
      ensures Values(nodes) == old(Values(nodes))[k := Registration(d.name.text, data, cleanup, |old(codes)|)]
      ensures log == old(log) + CleanUp(old(d.Value()), Replaced)
      ensures codes == old(codes) + [PAM_SUCCESS]
    {
      ghost var after := Values(nodes)[k := Registration(d.name.text, data, cleanup, |codes|)];
      forall i | 0 <= i < |nodes| ensures Values(nodes)[i] == nodes[i].Value() { ValuesAt(nodes, i); }
      log := log + CleanUp(d.Value(), Replaced);
      d.data, d.cleanup, d.id := data, cleanup, |codes|;
      codes := codes + [PAM_SUCCESS];
      forall i | 0 <= i < |nodes| ensures Values(nodes)[i] == after[i] {
        ValuesAt(nodes, i);
        if i < k { SeparateAt(nodes, i, k); } else if k < i { SeparateAt(nodes, k, i); }
      }
    }

    method Replace(heap: CHeap, d: DataItem, ghost k: nat, name: string, data: int, cleanup: Option<int>)
      requires Valid(heap) && k < |nodes| && d == nodes[k] && k == IndexOf(Values(nodes), name)
      modifies `log, `codes, d`data, d`cleanup, d`id
      ensures Valid(heap) && Conserves(heap)
      ensures State(heap) == DataSpec.SetData(heap.fails, old(State(heap)), Call(Some(name), data, cleanup))
      ensures codes == old(codes) + [PAM_SUCCESS]
    {
      ValuesAt(nodes, k);
      Overwrite(heap, d, k, data, cleanup);
    }

    /** Put a new node, which nobody owns yet, at the head. */
    method Link(heap: CHeap, d: DataItem)
      requires Valid(heap) && d !in nodes && d.next == head && d.id == |codes|
      requires d.block != d.name.block && {d.block, d.name.block} <= heap.live - Owned()
      modifies `head, `nodes, `codes
      ensures Valid(heap) && nodes == [d] + old(nodes) && Owned() == {d.block, d.name.block} + old(Owned())
      ensures State(heap) ==
        old(State(heap)).(list := [d.Value()] + old(State(heap)).list, codes := old(codes) + [PAM_SUCCESS])
    {
      assert ([d] + nodes)[1..] == nodes;
      head := d;
      nodes := [d] + nodes;
      codes := codes + [PAM_SUCCESS];
    }

    /** Add a node at the head, or nothing. */
    method Insert(heap: CHeap, name: string, data: int, cleanup: Option<int>) returns (ret: int)
      requires Valid(heap) && IndexOf(Values(nodes), name) == |nodes|
      modifies this, heap
      ensures Valid(heap) && Conserves(heap)
      ensures State(heap) == DataSpec.SetData(heap.fails, old(State(heap)), Call(Some(name), data, cleanup))
      ensures codes == old(codes) + [ret]
    {
      SetDataNew(heap.fails, State(heap), Call(Some(name), data, cleanup));
      var d := NewNode(heap, name, data, cleanup, head, |codes|);
      if d == null {
        codes := codes + [PAM_BUF_ERR];
        return PAM_BUF_ERR;
      }
      ghost var owned := Owned();
      assert {d.block, d.name.block} !! owned;
      Link(heap, d);
      assert heap.live - Owned() == old(heap.live) - owned;
      return PAM_SUCCESS;
    }

    /** `pam_set_data`. */
    method SetData(heap: CHeap, name: Option<string>, data: int, cleanup: Option<int>) returns (ret: int)
      requires Valid(heap)
      modifies this, nodes, heap
      ensures Valid(heap) && Conserves(heap)
      ensures State(heap) == DataSpec.SetData(heap.fails, old(State(heap)), Call(name, data, cleanup))
      ensures codes == old(codes) + [ret]
    {
      if name == None {
        codes := codes + [PAM_SYSTEM_ERR];
        return PAM_SYSTEM_ERR;
      }
      var d, k := Find(heap, name.value);
      if d != null {
        Replace(heap, d, k, name.value, data, cleanup);
        return PAM_SUCCESS;
      }
      ret := Insert(heap, name.value, data, cleanup);
    }

    /** Run a node's callback, then free the node. */
    method Drop(heap: CHeap, d: DataItem, status: int) returns (next: DataItem?)
      requires heap.Valid() && d.block in heap.live && d.name.block in heap.live && d.block != d.name.block
      modifies `log, heap`live
      ensures heap.Valid() && heap.live == old(heap.live) - {d.block, d.name.block}
      ensures next == d.next && log == old(log) + CleanUp(d.Value(), Final(status))
    {
      next := d.next;
      log := log + CleanUp(d.Value(), Final(status));
      heap.Free(d.name.block);
      heap.Free(d.block);
    }

    /** The first of the remaining nodes, and what its going leaves to be done. */
    method DropFirst(heap: CHeap, d: DataItem, ghost rest: seq<DataItem>, status: int) returns (next: DataItem?)
      requires heap.Valid() && rest != [] && Chain(d, rest) && Separate(rest) && Blocks(rest) <= heap.live
      modifies `log, heap`live
      ensures heap.Valid() && Chain(next, rest[1..]) && Separate(rest[1..]) && Blocks(rest[1..]) <= heap.live
      ensures heap.live - Blocks(rest[1..]) == old(heap.live) - Blocks(rest)
      ensures log + FinalCleanups(Values(rest[1..]), status) == old(log) + FinalCleanups(Values(rest), status)
    {
      LogStep(log, d.Value(), Values(rest[1..]), status);
      next := Drop(heap, d, status);
    }

    /** The part of `pam_end` that concerns module data. */
    method Destroy(heap: CHeap, status: int)
      requires Valid(heap)
      modifies `log, heap`live
      ensures heap.Valid() && heap.live == old(heap.live) - Owned()
      ensures log == old(log) + FinalCleanups(Values(nodes), status)
    {
      var d := head;
      ghost var rest := nodes;
      while d != null
        invariant heap.Valid() && Chain(d, rest) && Separate(rest) && Blocks(rest) <= heap.live
        invariant heap.live - Blocks(rest) == old(heap.live) - Owned()
        invariant log + FinalCleanups(Values(rest), status) == old(log) + FinalCleanups(Values(nodes), status)
        decreases |rest|
      {
        d := DropFirst(heap, d, rest, status);
        rest := rest[1..];
      }
    }
  }
}
