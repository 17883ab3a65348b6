/** The handle's typed item slots. Texts, the conversation record and X authority data
    are copied on the way in and owned by the slot; any other item is stored as given. */
module ItemTable {
  import opened PamTypes
  import opened CMemory
  import opened ItemSpec

  datatype Slot =
    | Empty
    | TextSlot(str: CStr)
    | ConvSlot(block: Block, hasFunction: bool)
    | XauthSlot(block: Block, name: Option<CStr>, nameLen: int, data: Option<CStr>, dataLen: int)
    | RawSlot(pointer: int)

  function TextOf(s: Option<CStr>): Option<string> {
    if s.Some? then Some(s.value.text) else None
  }

  function ValueOf(s: Slot): Option<ItemValue> {
    match s
    case Empty => None
    case TextSlot(str) => Some(Text(str.text))
    case ConvSlot(_, hasFunction) => Some(Conv(hasFunction))
    case XauthSlot(_, name, nameLen, data, dataLen) => Some(Xauth(TextOf(name), nameLen, TextOf(data), dataLen))
    case RawSlot(pointer) => Some(Raw(pointer))
  }

  /** A pointer to an item, as callers receive and compare it. */
  datatype Pointer = NullPointer | BlockPointer(block: Block) | RawPointer(address: int)

  function PointerTo(s: Slot): Pointer {
    match s
    case Empty => NullPointer
    case TextSlot(str) => BlockPointer(str.block)
    case ConvSlot(block, _) => BlockPointer(block)
    case XauthSlot(block, _, _, _, _) => BlockPointer(block)
    case RawSlot(address) => RawPointer(address)
  }

  ghost function BlockOf(s: Option<CStr>): set<Block> {
    if s.Some? then {s.value.block} else {}
  }

  ghost function SlotBlocks(s: Slot): set<Block> {
    match s
    case Empty => {}
    case TextSlot(str) => {str.block}
    case ConvSlot(block, _) => {block}
    case XauthSlot(block, name, _, data, _) => {block} + BlockOf(name) + BlockOf(data)
    case RawSlot(_) => {}
  }

  /** The slot fits its item and its own blocks are different. */
  ghost predicate SlotOk(item: int, s: Slot) {
    && (s.XauthSlot? ==>
         && s.block !in BlockOf(s.name) && s.block !in BlockOf(s.data) && BlockOf(s.name) !! BlockOf(s.data))
    && (s != Empty ==> 1 <= item <= MAX_ITEM && Holdable(item, ValueOf(s).value))
  }

  ghost function SlotsBlocks(slots: seq<Slot>): set<Block> {
    if slots == [] then {} else SlotBlocks(slots[0]) + SlotsBlocks(slots[1..])
  }

  ghost predicate Apart(slots: seq<Slot>) {
    slots != [] ==> SlotBlocks(slots[0]) !! SlotsBlocks(slots[1..]) && Apart(slots[1..])
  }

  ghost function SlotValues(slots: seq<Slot>): Values {
    seq(|slots|, i requires 0 <= i < |slots| => ValueOf(slots[i]))
  }

  lemma {:induction false} SlotInside(slots: seq<Slot>, i: nat)
    requires i < |slots|
    ensures SlotBlocks(slots[i]) <= SlotsBlocks(slots)
  {
    if i > 0 { SlotInside(slots[1..], i - 1); }
  }

  /** Replacing one slot's blocks by new ones. */
  lemma {:induction false} SlotReplaced(slots: seq<Slot>, i: nat, s: Slot)
    requires i < |slots| && Apart(slots) && SlotBlocks(s) !! SlotsBlocks(slots)
    ensures Apart(slots[i := s])
    ensures SlotsBlocks(slots[i := s]) == SlotsBlocks(slots) - SlotBlocks(slots[i]) + SlotBlocks(s)
  {
    var after := slots[i := s];
    if i == 0 {
      assert after[1..] == slots[1..];
    } else {
      assert after[1..] == slots[1..][i - 1 := s];
      SlotInside(slots[1..], i - 1);
      SlotReplaced(slots[1..], i - 1, s);
    }
  }

  class ItemTable {
    const slots: array<Slot>

    ghost predicate Valid(heap: CHeap)
      reads this, slots, heap
    {
      && heap.Valid() && slots.Length == MAX_ITEM + 1
      && Apart(slots[..]) && Owned() <= heap.live
      && (forall i :: 0 <= i <= MAX_ITEM ==> SlotOk(i, slots[i]))
    }

    ghost function Owned(): set<Block>
      reads slots
    {
      SlotsBlocks(slots[..])
    }

    ghost function State(heap: CHeap): ItemState
      reads slots, heap
    {
      ItemState(SlotValues(slots[..]), heap.clock)
    }

    twostate predicate Conserves(heap: CHeap)
      reads slots, heap
    {
      && heap.live - Owned() == old(heap.live - Owned())
    }

    constructor (heap: CHeap)
      requires heap.Valid()
      ensures Valid(heap) && fresh(slots) && Owned() == {}
      ensures SlotValues(slots[..]) == NoItems()
    {
      slots := new Slot[MAX_ITEM + 1](_ => Empty);
      new;
      EmptySlots(slots[..]);
    }

    /** `pam_get_item`: the slot's own pointer, not a copy, and what it points to. A
        pointer into the handle's memory points to a live block. */
    method GetItem(heap: CHeap, item: int) returns (ret: int, p: Pointer, v: Option<ItemValue>)
      requires Valid(heap)
      ensures ret == if 1 <= item <= MAX_ITEM then PAM_SUCCESS else PAM_BAD_ITEM
      ensures p == if 1 <= item <= MAX_ITEM then PointerTo(slots[item]) else NullPointer
      ensures v == if 1 <= item <= MAX_ITEM then State(heap).values[item] else None
      ensures p == NullPointer <==> v == None
      ensures p.BlockPointer? ==> p.block in Owned() && p.block in heap.live
    {
      if item <= 0 || item > MAX_ITEM { return PAM_BAD_ITEM, NullPointer, None; }
      SlotInside(slots[..], item);
      return PAM_SUCCESS, PointerTo(slots[item]), ValueOf(slots[item]);
    }

    /** `pam_set_item`: the copy is made before the old value is freed. */
    method SetItem(heap: CHeap, item: int, v: Option<ItemValue>) returns (ret: int)
      requires Valid(heap)
      requires 1 <= item <= MAX_ITEM && v.Some? ==> Suits(item, v.value)
      modifies slots, heap
      ensures Valid(heap) && Conserves(heap)
      ensures (State(heap), ret) == ItemSpec.SetItem(heap.fails, old(State(heap)), item, v)
    {
      if item <= 0 || item > MAX_ITEM { return PAM_BAD_ITEM; }
      var copy;
      ret, copy := DupItem(heap, item, v);
      if ret == PAM_SUCCESS { Store(heap, item, copy); }
    }

    /** Free what the slot holds and put a copy there that nobody owns yet. */
    method Store(heap: CHeap, item: int, copy: Slot)
      requires heap.Valid() && 1 <= item <= MAX_ITEM && SlotOk(item, copy)
      requires slots.Length == MAX_ITEM + 1 && Apart(slots[..])
      requires forall i :: 0 <= i <= MAX_ITEM ==> SlotOk(i, slots[i])
      requires Owned() <= heap.live && SlotBlocks(copy) <= heap.live - Owned()
      modifies slots, heap`live
      ensures Valid(heap)
      ensures heap.live - Owned() == old(heap.live - Owned()) - SlotBlocks(copy)
      ensures State(heap) == old(State(heap)).(values := old(State(heap)).values[item := ValueOf(copy)])
    {
      SlotInside(slots[..], item);
      SlotReplaced(slots[..], item, copy);
      FreeItem(heap, item, slots[item]);
      ghost var before := slots[..];
      slots[item] := copy;
      assert slots[..] == before[item := copy];
      assert SlotValues(slots[..]) == SlotValues(before)[item := ValueOf(copy)];
    }

    /** The part of `pam_end` that concerns items. */
    method Destroy(heap: CHeap)
      requires Valid(heap)
      modifies heap`live
      ensures heap.Valid() && heap.live == old(heap.live) - Owned()
    {
      SlotOkFirst(slots[..]);
      for i := 1 to MAX_ITEM + 1
        invariant heap.Valid() && Apart(slots[i..]) && SlotsBlocks(slots[i..]) <= heap.live
        invariant heap.live - SlotsBlocks(slots[i..]) == old(heap.live) - Owned()
      {
        assert slots[i..][0] == slots[i] && slots[i..][1..] == slots[i + 1..];
        FreeItem(heap, i, slots[i]);
      }
    }
  }

  lemma {:induction false} SlotOkFirst(slots: seq<Slot>)
    requires |slots| > 0 && SlotOk(0, slots[0]) && Apart(slots)
    ensures Apart(slots[1..]) && SlotsBlocks(slots[1..]) == SlotsBlocks(slots)
  {
  }

  lemma {:induction false} EmptySlots(slots: seq<Slot>)
    requires forall i :: 0 <= i < |slots| ==> slots[i] == Empty
    ensures Apart(slots) && SlotsBlocks(slots) == {}
  {
    if slots != [] { EmptySlots(slots[1..]); }
  }

  /** `free_item`: what is freed is decided by the item number. */
  method FreeItem(heap: CHeap, item: int, s: Slot)
    requires heap.Valid() && SlotBlocks(s) <= heap.live && SlotOk(item, s)
    modifies heap`live
    ensures heap.Valid() && heap.live == old(heap.live) - SlotBlocks(s)
  {
    if s == Empty { return; }
    SlotKind(item, s);
    if StringItem(item) {
      heap.Free(s.str.block);
    } else if item == PAM_CONV {
      heap.Free(s.block);
    } else if item == PAM_XAUTHDATA {
      if s.name.Some? { heap.Free(s.name.value.block); }
      if s.data.Some? { heap.Free(s.data.value.block); }
      heap.Free(s.block);
    }
  }

  /** The item number says what kind of slot it is. */
  lemma SlotKind(item: int, s: Slot)
    requires SlotOk(item, s) && s != Empty
    ensures if StringItem(item) then s.TextSlot?
      else if item == PAM_CONV then s.ConvSlot?
      else if item == PAM_XAUTHDATA then s.XauthSlot?
      else s.RawSlot?
  {
    var given :| Suits(item, given) && ValueOf(s).value == Copied(item, given);
  }

  /** A copy takes one allocation for each block the slot then owns. */
  lemma BlockCount(item: int, s: Slot, given: ItemValue)
    requires SlotOk(item, s) && Suits(item, given) && ValueOf(s) == Some(Copied(item, given))
    ensures |SlotBlocks(s)| == Requests(given)
  {
    if s.XauthSlot? {
      assert |{s.block} + BlockOf(s.name)| == 1 + |BlockOf(s.name)|;
      assert |{s.block} + BlockOf(s.name) + BlockOf(s.data)| == 1 + |BlockOf(s.name)| + |BlockOf(s.data)|;
    }
  }

  /** `dup_item`: a failing copy frees what it had already allocated. */
  method DupItem(heap: CHeap, item: int, v: Option<ItemValue>) returns (ret: int, copy: Slot)
    requires heap.Valid() && 1 <= item <= MAX_ITEM && (v.Some? ==> Suits(item, v.value))
    modifies heap
    ensures heap.Valid() && SlotOk(item, copy)
    ensures var (ok, clock) := Ask(heap.fails, old(heap.clock), if v.None? then 0 else Requests(v.value));
      heap.clock == clock && ret == if ok then PAM_SUCCESS else PAM_BUF_ERR
    ensures heap.live == old(heap.live) + SlotBlocks(copy) && SlotBlocks(copy) !! old(heap.live)
    ensures forall b :: b in SlotBlocks(copy) ==> b >= old(heap.clock)
    ensures ValueOf(copy) == if ret != PAM_SUCCESS || v.None? then None else Some(Copied(item, v.value))
  {
    if v == None { return PAM_SUCCESS, Empty; }
    if StringItem(item) {
      var b := heap.Alloc();
      if b == None { return PAM_BUF_ERR, Empty; }
      return PAM_SUCCESS, TextSlot(CStr(b.value, v.value.text));
    } else if item == PAM_CONV {
      var b := heap.Alloc();
      if b == None { return PAM_BUF_ERR, Empty; }
      return PAM_SUCCESS, ConvSlot(b.value, v.value.hasFunction);
    } else if item == PAM_XAUTHDATA {
      ret, copy := DupXauth(heap, v.value.name, v.value.nameLen, v.value.data, v.value.dataLen);
    } else {
      return PAM_SUCCESS, RawSlot(v.value.pointer);
    }
  }

  method DupXauth(heap: CHeap, name: Option<string>, nameLen: int, data: Option<string>, dataLen: int)
    returns (ret: int, copy: Slot)
    requires heap.Valid() && Suits(PAM_XAUTHDATA, Xauth(name, nameLen, data, dataLen))
    modifies heap
    ensures heap.Valid() && SlotOk(PAM_XAUTHDATA, copy)
    ensures var (ok, clock) := Ask(heap.fails, old(heap.clock), Requests(Xauth(name, nameLen, data, dataLen)));
      heap.clock == clock && ret == if ok then PAM_SUCCESS else PAM_BUF_ERR
    ensures heap.live == old(heap.live) + SlotBlocks(copy) && SlotBlocks(copy) !! old(heap.live)
    ensures forall b :: b in SlotBlocks(copy) ==> b >= old(heap.clock)
    ensures ValueOf(copy) ==
      if ret != PAM_SUCCESS then None else Some(Copied(PAM_XAUTHDATA, Xauth(name, nameLen, data, dataLen)))
  {
    var b := heap.Alloc();
    if b == None { return PAM_BUF_ERR, Empty; }
    var nameCopy, dataCopy: Option<CStr> := None, None;
    if name.Some? && nameLen > 0 {
      var n := heap.Alloc();
      if n == None {
        heap.Free(b.value);
        return PAM_BUF_ERR, Empty;
      }
      nameCopy := Some(CStr(n.value, name.value[..nameLen]));
    }
    if data.Some? && dataLen > 0 {
      var d := heap.Alloc();
      if d == None {
        if nameCopy.Some? { heap.Free(nameCopy.value.block); }
        heap.Free(b.value);
        return PAM_BUF_ERR, Empty;
      }
      dataCopy := Some(CStr(d.value, data.value[..dataLen]));
    }
    copy := XauthSlot(b.value, nameCopy, nameLen, dataCopy, dataLen);
    assert ValueOf(copy) == Some(Copied(PAM_XAUTHDATA, Xauth(name, nameLen, data, dataLen)));
    return PAM_SUCCESS, copy;
  }
}
