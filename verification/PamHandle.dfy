/** The handle: its item slots, environment, module data and fail delay, and the
    conservation of every block it owns from `pam_start` to `pam_end`. */
module PamHandle {
  import opened PamTypes
  import opened CMemory
  import opened ItemSpec
  import ItemTable
  import EnvSpec
  import EnvTable
  import DataSpec
  import DataList
  import opened HandleSpec

  /** One part of what is owned changes and the rest stays. */
  lemma Rejoin(before: set<Block>, own: set<Block>, after: set<Block>, own': set<Block>, rest: set<Block>)
    requires own <= before && rest <= before && own !! rest
    requires own' <= after && after - own' == before - own
    ensures rest <= after && rest !! own' && after - (rest + own') == before - (rest + own)
  {
    assert rest <= before - own;
    assert after - (rest + own') == (after - own') - rest;
    assert before - (rest + own) == (before - own) - rest;
  }

  class Handle {
    const block: Block
    const items: ItemTable.ItemTable
    const env: EnvTable.EnvTable
    const data: DataList.DataList
    var failDelay: nat

    ghost predicate Valid(heap: CHeap)
      reads this, items, items.slots, env, env.env, data, data.nodes, heap
    {
      && items.Valid(heap) && env.Valid(heap) && data.Valid(heap)
      && block in heap.live
      && block !in items.Owned() && block !in env.Owned() && block !in data.Owned()
      && items.Owned() !! env.Owned() && items.Owned() !! data.Owned() && env.Owned() !! data.Owned()
    }

    ghost function Owned(): set<Block>
      reads this, items, items.slots, env, data
    {
      {block} + items.Owned() + env.Owned() + data.Owned()
    }

    ghost function State(heap: CHeap): HandleState
      requires items.slots.Length == MAX_ITEM + 1
      reads this, items, items.slots, env, data, data.nodes, heap
    {
      HandleState(items.State(heap).values, env.Table(), DataList.Values(data.nodes), data.log, data.codes,
                  failDelay, heap.clock)
    }

    /** The objects that make up the handle. */
    ghost function Repr(): set<object>
      reads this, env, data
    {
      {this, items.slots, env, data} + (if env.env == null then {} else {env.env}) + (set n | n in data.nodes)
    }

    /** No block outside the handle has been allocated or freed for good. */
    twostate predicate Conserves(heap: CHeap)
      reads this, items, items.slots, env, data, heap
    {
      && heap.live - Owned() == old(heap.live - Owned())
      && fresh(Repr() - old(Repr()))
    }

    /** The module data and its log are as they were. */
    twostate predicate SameData()
      reads this, data, data.nodes
    {
      && data.nodes == old(data.nodes) && data.log == old(data.log) && data.codes == old(data.codes)
      && DataList.Values(data.nodes) == old(DataList.Values(data.nodes))
    }

    constructor (heap: CHeap, block: Block)
      requires heap.Valid() && block in heap.live
      ensures Valid(heap) && this.block == block && Owned() == {block} && fresh(Repr())
      ensures State(heap) == Blank(heap.clock)
    {
      this.block := block;
      items := new ItemTable.ItemTable(heap);
      env := new EnvTable.EnvTable();
      data := new DataList.DataList();
      failDelay := 0;
    }

    method SetItem(heap: CHeap, item: int, v: Option<ItemValue>) returns (ret: int)
      requires Valid(heap)
      requires 1 <= item <= MAX_ITEM && v.Some? ==> Suits(item, v.value)
      modifies items.slots, heap
      ensures Valid(heap) && Conserves(heap) && SameData()
      ensures (items.State(heap), ret) == ItemSpec.SetItem(heap.fails, old(items.State(heap)), item, v)
    {
      ghost var rest := {block} + env.Owned() + data.Owned();
      ghost var live, own := heap.live, items.Owned();
      assert Owned() == rest + own;
      ret := items.SetItem(heap, item, v);
      Rejoin(live, own, heap.live, items.Owned(), rest);
      assert Owned() == rest + items.Owned();
    }

    method PutEnv(heap: CHeap, nameValue: Option<string>) returns (ret: int)
      requires Valid(heap)
      modifies env, env.env, heap
      ensures Valid(heap) && Conserves(heap) && SameData()
      ensures (EnvSpec.EnvState(env.Table(), heap.clock), ret) ==
        EnvSpec.PutEnv(heap.fails, EnvSpec.EnvState(old(env.Table()), old(heap.clock)), nameValue)
    {
      ghost var rest := {block} + items.Owned() + data.Owned();
      ghost var live, own := heap.live, env.Owned();
      assert Owned() == rest + own;
      ret := env.PutEnv(heap, nameValue);
      Rejoin(live, own, heap.live, env.Owned(), rest);
      assert Owned() == rest + env.Owned();
    }

    method SetEnv(heap: CHeap, name: Option<string>, value: Option<string>) returns (ret: int)
      requires Valid(heap)
      modifies env, env.env, heap
      ensures Valid(heap) && Conserves(heap) && SameData()
      ensures (EnvSpec.EnvState(env.Table(), heap.clock), ret) ==
        EnvSpec.SetEnv(heap.fails, EnvSpec.EnvState(old(env.Table()), old(heap.clock)), name, value)
    {
      ghost var rest := {block} + items.Owned() + data.Owned();
      ghost var live, own := heap.live, env.Owned();
      assert Owned() == rest + own;
      ret := env.SetEnv(heap, name, value);
      Rejoin(live, own, heap.live, env.Owned(), rest);
      assert Owned() == rest + env.Owned();
    }

    method PasteEnv(heap: CHeap, list: Option<seq<string>>) returns (ret: int)
      requires Valid(heap)
      modifies env, env.env, heap
      ensures Valid(heap) && Conserves(heap) && SameData()
      ensures (EnvSpec.EnvState(env.Table(), heap.clock), ret) ==
        if list.None? then (EnvSpec.EnvState(old(env.Table()), old(heap.clock)), PAM_SUCCESS)
        else EnvSpec.PasteEnv(heap.fails, EnvSpec.EnvState(old(env.Table()), old(heap.clock)), list.value)
    {
      ghost var rest := {block} + items.Owned() + data.Owned();
      ghost var live, own := heap.live, env.Owned();
      assert Owned() == rest + own;
      ret := env.PasteEnv(heap, list);
      Rejoin(live, own, heap.live, env.Owned(), rest);
      assert Owned() == rest + env.Owned();
    }

    method SetData(heap: CHeap, name: Option<string>, value: int, cleanup: Option<int>) returns (ret: int)
      requires Valid(heap)
      modifies data, data.nodes, heap
      ensures Valid(heap) && Conserves(heap)
      ensures data.State(heap) ==
        DataSpec.SetData(heap.fails, old(data.State(heap)), DataSpec.Call(name, value, cleanup))
      ensures data.codes == old(data.codes) + [ret]
    {
      ghost var rest := {block} + items.Owned() + env.Owned();
      ghost var live, own := heap.live, data.Owned();
      assert Owned() == rest + own;
      ret := data.SetData(heap, name, value, cleanup);
      Rejoin(live, own, heap.live, data.Owned(), rest);
      assert Owned() == rest + data.Owned();
    }

    /** `pam_fail_delay`: the largest delay asked for. */
    method FailDelay(delay: nat) returns (ret: int)
      modifies `failDelay
      ensures failDelay >= old(failDelay) && failDelay >= delay
      ensures failDelay == old(failDelay) || failDelay == delay
      ensures ret == PAM_SUCCESS
    {
      if delay > failDelay { failDelay := delay; }
      return PAM_SUCCESS;
    }

    /** `pam_end`: each block the handle owns is freed, once, and no other. */
    method End(heap: CHeap, status: int)
      requires Valid(heap)
      modifies data`log, heap`live
      ensures heap.Valid() && heap.live == old(heap.live) - old(Owned())
      ensures data.log == old(data.log) + DataSpec.FinalCleanups(old(DataList.Values(data.nodes)), status)
    {
      items.Destroy(heap);
      env.Destroy(heap);
      data.Destroy(heap, status);
      heap.Free(block);
    }
  }

  /** `pam_start`: a usable handle, or no handle and nothing left allocated. */
  method Start(heap: CHeap, service: Option<string>, user: Option<string>, conv: Option<bool>)
    returns (ret: int, h: Handle?)
    requires heap.Valid()
    modifies heap
    ensures heap.Valid()
    ensures h == null <==> ret != PAM_SUCCESS
    ensures ret == PAM_SYSTEM_ERR <==> service.None? || conv.None?
    ensures ret == PAM_SUCCESS || ret == PAM_SYSTEM_ERR || ret == PAM_BUF_ERR
    ensures ret == PAM_BUF_ERR ==> FailedSince(heap, old(heap.clock))
    ensures h == null ==> heap.live == old(heap.live)
    ensures h != null ==> fresh(h.Repr()) && h.Valid(heap)
    ensures h != null ==> heap.live - h.Owned() == old(heap.live) && h.Owned() !! old(heap.live)
    ensures h != null ==>
      && service.Some? && conv.Some?
      && heap.clock == old(heap.clock) + (if user.Some? then 4 else 3)
      && h.State(heap) == Started(service.value, user, conv.value, heap.clock)
      && HoldsJust(h.State(heap), service.value, user, conv.value)
  {
    if service == None || conv == None { return PAM_SYSTEM_ERR, null; }
    var b := heap.Alloc();
    if b == None { return PAM_BUF_ERR, null; }
    ret, h := Furnish(heap, b.value, service.value, user, conv.value);
    StartedHolds(service.value, user, conv.value, heap.clock);
  }

  /** A handle in a block of its own, with its first items. */
  method Furnish(heap: CHeap, block: Block, service: string, user: Option<string>, conv: bool)
    returns (ret: int, h: Handle?)
    requires heap.Valid() && block in heap.live
    modifies heap
    ensures heap.Valid() && heap.clock >= old(heap.clock)
    ensures h == null <==> ret != PAM_SUCCESS
    ensures ret == PAM_SUCCESS || (ret == PAM_BUF_ERR && FailedSince(heap, old(heap.clock)))
    ensures h == null ==> heap.live == old(heap.live) - {block}
    ensures h != null ==> fresh(h.Repr()) && h.Valid(heap)
    ensures h != null ==> heap.live - h.Owned() == old(heap.live) - {block} && h.Owned() !! old(heap.live) - {block}
    ensures h != null ==>
      && heap.clock == old(heap.clock) + (if user.Some? then 3 else 2)
      && h.State(heap) == Started(service, user, conv, heap.clock)
  {
    ret, h := Build(heap, block, service, user, conv);
    if ret != PAM_SUCCESS {
      h.End(heap, ret);
      return ret, null;
    }
  }

  /** A handle with as many of its first items as could be copied. */
  method Build(heap: CHeap, block: Block, service: string, user: Option<string>, conv: bool)
    returns (ret: int, h: Handle)
    requires heap.Valid() && block in heap.live
    modifies heap
    ensures ret == PAM_SUCCESS || (ret == PAM_BUF_ERR && FailedSince(heap, old(heap.clock)))
    ensures h.Valid(heap) && fresh(h.Repr()) && heap.clock >= old(heap.clock)
    ensures heap.live - h.Owned() == old(heap.live) - {block} && h.Owned() !! old(heap.live) - {block}
    ensures ret == PAM_SUCCESS ==>
      && heap.clock == old(heap.clock) + (if user.Some? then 3 else 2)
      && h.State(heap) == Started(service, user, conv, heap.clock)
  {
    h := new Handle(heap, block);
    ret := FirstItems(heap, h, service, user, conv);
  }

  /** One of the allocations requested since the given one failed. */
  ghost predicate FailedSince(heap: CHeap, first: nat)
    reads heap
  {
    exists k :: first <= k < heap.clock && heap.fails(k)
  }

  /** Set an item whose copy is one block. */
  method SetFirst(heap: CHeap, h: Handle, item: int, v: ItemValue) returns (ret: int)
    requires h.Valid(heap) && ((v.Text? && StringItem(item)) || (v.Conv? && item == PAM_CONV))
    modifies h.items.slots, heap
    ensures h.Valid(heap) && h.Conserves(heap) && heap.clock == old(heap.clock) + 1
    ensures ret == if heap.fails(old(heap.clock)) then PAM_BUF_ERR else PAM_SUCCESS
    ensures ret == PAM_SUCCESS ==>
      h.State(heap) == old(h.State(heap)).(items := old(h.State(heap)).items[item := Some(v)], clock := heap.clock)
  {
    assert ItemSpec.Ask(heap.fails, heap.clock, 1) == (!heap.fails(heap.clock), heap.clock + 1);
    ret := h.SetItem(heap, item, Some(v));
  }

  method FirstItems(heap: CHeap, h: Handle, service: string, user: Option<string>, conv: bool) returns (ret: int)
    requires h.Valid(heap) && h.State(heap) == Blank(heap.clock)
    modifies h.items.slots, heap
    ensures h.Valid(heap) && h.Conserves(heap)
    ensures ret == PAM_SUCCESS ==> h.State(heap) == Started(service, user, conv, heap.clock)
    ensures ret == PAM_SUCCESS || (ret == PAM_BUF_ERR && FailedSince(heap, old(heap.clock)))
    ensures heap.clock >= old(heap.clock)
    ensures ret == PAM_SUCCESS ==> heap.clock == old(heap.clock) + (if user.Some? then 3 else 2)
  {
    ret := SetFirst(heap, h, PAM_SERVICE, Text(service));
    if ret == PAM_SUCCESS && user.Some? { ret := SetFirst(heap, h, PAM_USER, Text(user.value)); }
    if ret == PAM_SUCCESS { ret := SetFirst(heap, h, PAM_CONV, Conv(conv)); }
  }

  // -------------------------------------------------------------------- whole runs

  /** One call, exactly as specified. */
  method Perform(heap: CHeap, h: Handle, op: Op) returns (ret: int)
    requires h.Valid(heap) && LegalOp(op)
    modifies h.Repr(), heap
    ensures h.Valid(heap) && h.Conserves(heap)
    ensures (h.State(heap), ret) == Apply(heap.fails, old(h.State(heap)), op)
  {
    if op.OpItem? {
      ret := PerformItem(heap, h, op);
    } else if op.OpData? {
      ret := PerformData(heap, h, op);
    } else if op.OpDelay? {
      ret := h.FailDelay(op.delay);
    } else {
      ret := PerformEnv(heap, h, op);
    }
  }

  method PerformItem(heap: CHeap, h: Handle, op: Op) returns (ret: int)
    requires h.Valid(heap) && LegalOp(op) && op.OpItem?
    modifies h.items.slots, heap
    ensures h.Valid(heap) && h.Conserves(heap)
    ensures (h.State(heap), ret) == Apply(heap.fails, old(h.State(heap)), op)
  {
    ret := h.SetItem(heap, op.item, op.value);
  }

  method PerformData(heap: CHeap, h: Handle, op: Op) returns (ret: int)
    requires h.Valid(heap) && op.OpData?
    modifies h.data, h.data.nodes, heap
    ensures h.Valid(heap) && h.Conserves(heap)
    ensures (h.State(heap), ret) == Apply(heap.fails, old(h.State(heap)), op)
  {
    ret := h.SetData(heap, op.call.name, op.call.data, op.call.cleanup);
  }

  method PerformEnv(heap: CHeap, h: Handle, op: Op) returns (ret: int)
    requires h.Valid(heap) && (op.OpPut? || op.OpSet? || op.OpPaste?)
    modifies h.env, h.env.env, heap
    ensures h.Valid(heap) && h.Conserves(heap)
    ensures (h.State(heap), ret) == Apply(heap.fails, old(h.State(heap)), op)
  {
    match op
    case OpPut(nameValue) => ret := h.PutEnv(heap, nameValue);
    case OpSet(name, value) => ret := h.SetEnv(heap, name, value);
    case OpPaste(list) => ret := h.PasteEnv(heap, list);
  }

  /** `Perform`, keeping a set of objects that covers the handle. */
  method PerformWithin(heap: CHeap, h: Handle, op: Op, ghost outside: set<Block>, ghost within: set<object>)
    returns (ret: int, ghost within': set<object>)
    requires h.Valid(heap) && LegalOp(op) && heap.live - h.Owned() == outside && h.Repr() <= within
    modifies within, heap
    ensures h.Valid(heap) && heap.live - h.Owned() == outside
    ensures h.Repr() <= within' && fresh(within' - within)
    ensures (h.State(heap), ret) == Apply(heap.fails, old(h.State(heap)), op)
  {
    ret := Perform(heap, h, op);
    within' := within + h.Repr();
  }

  lemma {:induction false} RunStep(fails: nat -> bool, h: HandleState, ops: seq<Op>, i: nat)
    requires Wide(h) && Legal(ops) && i < |ops|
    ensures Run(fails, h, ops[..i + 1]) == Apply(fails, Run(fails, h, ops[..i]), ops[i]).0
    ensures Returns(fails, h, ops[..i + 1]) ==
      Returns(fails, h, ops[..i]) + [Apply(fails, Run(fails, h, ops[..i]), ops[i]).1]
  {
    assert ops[..i + 1][..i] == ops[..i];
  }

  /** Any calls on an open handle: its state and every return code are those of the
      specification, and no foreign block is touched. */
  method PerformAll(heap: CHeap, h: Handle, ops: seq<Op>, ghost outside: set<Block>, ghost objects: set<object>)
    returns (codes: seq<int>)
    requires h.Valid(heap) && heap.live - h.Owned() == outside && h.Repr() <= objects && Legal(ops)
    modifies objects, heap
    ensures h.Valid(heap) && heap.live - h.Owned() == outside
    ensures h.State(heap) == Run(heap.fails, old(h.State(heap)), ops)
    ensures codes == Returns(heap.fails, old(h.State(heap)), ops)
  {
    codes := [];
    ghost var start, within := h.State(heap), objects;
    for i := 0 to |ops|
      invariant h.Valid(heap) && heap.live - h.Owned() == outside
      invariant h.Repr() <= within && fresh(within - objects)
      invariant h.State(heap) == Run(heap.fails, start, ops[..i])
      invariant codes == Returns(heap.fails, start, ops[..i])
    {
      RunStep(heap.fails, start, ops, i);
      var code;
      code, within := PerformWithin(heap, h, ops[i], outside, within);
      codes := codes + [code];
    }
    assert ops[..|ops|] == ops;
  }

  /** Any calls on an open handle, then `pam_end`. */
  method UseAndEnd(heap: CHeap, h: Handle, ops: seq<Op>, status: int, ghost outside: set<Block>,
                   ghost objects: set<object>)
    returns (codes: seq<int>, ghost log: seq<DataSpec.Cleaned>)
    requires h.Valid(heap) && heap.live - h.Owned() == outside && h.Repr() <= objects && Legal(ops)
    modifies objects, heap
    ensures heap.Valid() && heap.live == outside
    ensures (codes, log) == Yield(heap.fails, old(h.State(heap)), ops, status)
  {
    codes := PerformAll(heap, h, ops, outside, objects);
    ghost var end := h.State(heap);
    h.End(heap, status);
    log := h.data.log;
    assert log == end.log + DataSpec.FinalCleanups(end.list, status);
  }

  /** From `pam_start` through any calls to `pam_end`, whatever allocations fail, exactly
      the blocks that were live before are live after, every call returns what the
      specification says, and the callbacks made are those of the specified run followed by
      the final ones. */
  method Session(heap: CHeap, service: Option<string>, user: Option<string>, conv: Option<bool>,
                 ops: seq<Op>, status: int)
    returns (ret: int, codes: seq<int>, ghost log: seq<DataSpec.Cleaned>)
    requires heap.Valid() && Legal(ops)
    modifies heap
    ensures heap.Valid() && heap.live == old(heap.live)
    ensures ret != PAM_SUCCESS ==> log == [] && codes == []
    ensures ret == PAM_SUCCESS ==>
      && service.Some? && conv.Some?
      && var clock := old(heap.clock) + (if user.Some? then 4 else 3);
         (codes, log) == Yield(heap.fails, Started(service.value, user, conv.value, clock), ops, status)
  {
    var h;
    ret, h := Start(heap, service, user, conv);
    codes, log := [], [];
    if h == null { return; }
    ghost var objects, start := h.Repr(), h.State(heap);
    assert start == Started(service.value, user, conv.value, old(heap.clock) + (if user.Some? then 4 else 3));
    assert fresh(objects) && heap.live - h.Owned() == old(heap.live);
    codes, log := UseAndEnd(heap, h, ops, status, old(heap.live), objects);
    assert (codes, log) == Yield(heap.fails, start, ops, status);
  }
}
