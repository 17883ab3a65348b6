/** Whole runs of message calls on real messages: the pointers behave as specified, no
    block has two owners, and what is allocated is exactly what live messages own. */
module DBusRuns {
  import opened PamTypes
  import opened CMemory
  import opened DBusMessage
  import Spec = DBusSpec

  /** What a returned pointer stands for, and the blocks it answers for. */
  ghost predicate Stands(heap: CHeap, m: Message?, p: Spec.Pointer, owned: set<Block>)
    reads heap, m, if m == null then {} else {m.texts}
  {
    match p
    case Null => m == null && owned == {}
    case Freed => m != null && owned == {}
    case Live(msg) => m != null && m.Valid(heap) && m.View() == msg && owned == m.Owned()
  }

  /** What a creating call has returned. */
  ghost function PointerOf(m: Message?): Spec.Pointer
    requires m != null ==> m.texts.Length == Spec.FIELDS
    reads m, if m == null then {} else {m.texts}
  {
    if m == null then Spec.Null else Spec.Live(m.View())
  }

  ghost function BlocksOf(m: Message?): set<Block>
    reads m, if m == null then {} else {m.texts}
  {
    if m == null then {} else m.Owned()
  }

  ghost predicate Separate(pool: seq<Message?>) {
    forall i, j :: 0 <= i < j < |pool| && pool[i] != null && pool[j] != null ==>
      pool[i] != pool[j] && pool[i].texts != pool[j].texts
  }

  ghost predicate Apart(owned: seq<set<Block>>) {
    forall i, j :: 0 <= i < j < |owned| ==> owned[i] !! owned[j]
  }

  ghost function All(owned: seq<set<Block>>): set<Block> {
    set i, b | 0 <= i < |owned| && b in owned[i] :: b
  }

  ghost function Objects(pool: seq<Message?>): set<object> {
    (set i | 0 <= i < |pool| && pool[i] != null :: pool[i])
    + (set i | 0 <= i < |pool| && pool[i] != null :: pool[i].texts)
  }

  ghost predicate Represents(heap: CHeap, pool: seq<Message?>, pointers: seq<Spec.Pointer>,
                             owned: seq<set<Block>>, base: set<Block>)
    reads heap, Objects(pool)
  {
    && heap.Valid() && |pool| == |pointers| == |owned|
    && (forall i :: 0 <= i < |pool| ==> Stands(heap, pool[i], pointers[i], owned[i]))
    && Separate(pool) && Apart(owned)
    && heap.live == base + All(owned) && base !! All(owned)
  }

  lemma AllAppend(owned: seq<set<Block>>, last: set<Block>)
    ensures All(owned + [last]) == All(owned) + last
  {
    var after := owned + [last];
    forall b | b in All(owned) + last ensures b in All(after) {
      if b in last {
        assert after[|owned|] == last;
      } else {
        var i :| 0 <= i < |owned| && b in owned[i];
        assert b in after[i];
      }
    }
  }

  lemma AllUpdate(owned: seq<set<Block>>, i: nat, new_: set<Block>)
    requires i < |owned| && Apart(owned)
    ensures All(owned[i := new_]) == All(owned) - owned[i] + new_
  {
    var after := owned[i := new_];
    forall b | b in All(owned) - owned[i] + new_ ensures b in All(after) {
      if b in new_ {
        assert b in after[i];
      } else {
        var k :| 0 <= k < |owned| && b in owned[k];
        assert b in after[k];
      }
    }
    forall b | b in All(after) ensures b in All(owned) - owned[i] + new_ {
      var k :| 0 <= k < |after| && b in after[k];
      if k != i { assert b in owned[k]; }
    }
  }

  /** Run one creating call. */
  method CreateOne(heap: CHeap, subject: Message?, ghost w: Spec.World, op: Spec.Op) returns (m: Message?)
    requires heap.Valid() && w.clock == heap.clock && Spec.Creates(op)
    requires subject != null <==> Spec.At(w.pointers, Spec.Subject(op)).Live?
    requires subject != null ==> subject.Valid(heap) && subject.View() == Spec.At(w.pointers, Spec.Subject(op)).msg
    modifies heap
    ensures Allocated(heap, m)
    ensures Spec.Create(heap.fails, w, op) ==
      Spec.World(w.pointers + [PointerOf(m)], heap.clock)
  {
    match op
    case New(kind) => m := MsgAlloc(heap, kind);
    case NewMethodCall(dest, path, iface, member) => m := NewMethodCall(heap, dest, path, iface, member);
    case NewMethodReturn(_) => m := NewMethodReturn(heap, subject);
    case NewSignal(path, iface, member) => m := NewSignal(heap, path, iface, member);
    case NewError(_, name) => m := NewError(heap, subject, name);
    case Copy(_) => m := Copy(heap, subject);
  }

  /** Run one call on a live message. */
  method ChangeOne(heap: CHeap, m: Message, op: Spec.Op) returns (ghost p: Spec.Pointer)
    requires m.Valid(heap) && !Spec.Creates(op) && Spec.WellFormed(op)
    modifies m, m.texts, heap
    ensures heap.Valid() && (p, heap.clock) == Spec.Change(heap.fails, old(m.View()), old(heap.clock), op)
    ensures p.Live? ==> m.Valid(heap) && m.View() == p.msg && m.Conserves(heap)
    ensures p.Freed? ==> heap.live == old(heap.live) - old(m.Owned())
    ensures !p.Null?
  {
    ghost var freed := false;
    match op {
      case Ref(_) => m.Ref();
      case Unref(_) => freed := m.Unref(heap);
      case SetText(_, k, text) => var _ := m.SetText(heap, k, text);
      case SetSerial(_, value) => m.serial := value;
      case SetReplySerial(_, value) => m.replySerial := value;
      case SetNoReply(_, value) => m.noReply := value;
      case SetAutoStart(_, value) => m.autoStart := value;
    }
    p := if freed then Spec.Freed else Spec.Live(m.View());
  }

  /** The blocks of a new message join the others, which are as before. */
  lemma AppendedBlocks(owned: seq<set<Block>>, blocks: set<Block>, live: set<Block>, base: set<Block>)
    requires Apart(owned) && base !! All(owned) && blocks !! base + All(owned)
    requires live == base + All(owned) + blocks
    ensures Apart(owned + [blocks]) && base !! All(owned + [blocks]) && live == base + All(owned + [blocks])
  {
    AllAppend(owned, blocks);
    assert forall i :: 0 <= i < |owned| ==> owned[i] <= All(owned);
  }

  /** When the blocks of one message change hands, the others keep theirs. */
  lemma UpdatedBlocks(owned: seq<set<Block>>, i: nat, blocks: set<Block>, live: set<Block>, live': set<Block>,
                      base: set<Block>)
    requires i < |owned| && Apart(owned) && base !! All(owned) && live == base + All(owned)
    requires live' - blocks == live - owned[i] && blocks <= live'
    ensures forall j :: 0 <= j < |owned| && j != i ==> owned[j] !! blocks && owned[j] <= live'
    ensures Apart(owned[i := blocks])
    ensures base !! All(owned[i := blocks]) && live' == base + All(owned[i := blocks])
  {
    AllUpdate(owned, i, blocks);
    assert owned[i] <= All(owned) && base - owned[i] == base;
    forall j | 0 <= j < |owned| && j != i ensures owned[j] !! blocks && owned[j] <= live' {
      assert if i < j then owned[i] !! owned[j] else owned[j] !! owned[i];
      assert owned[j] <= All(owned) && owned[j] <= live' - blocks;
    }
    var after := owned[i := blocks];
    forall j, k | 0 <= j < k < |after| ensures after[j] !! after[k] { assert owned[j] !! owned[k]; }
    assert live' == live - owned[i] + blocks;
  }

  /** One call of a run. */
  method Perform(heap: CHeap, pool: seq<Message?>, op: Spec.Op, ghost w: Spec.World,
                 ghost owned: seq<set<Block>>, ghost base: set<Block>)
      returns (pool': seq<Message?>, ghost w': Spec.World, ghost owned': seq<set<Block>>)
    requires Represents(heap, pool, w.pointers, owned, base) && w.clock == heap.clock && Spec.MayCall(w, op)
    modifies heap, Objects(pool)
    ensures w' == Spec.Step(heap.fails, w, op) && w'.clock == heap.clock
    ensures Represents(heap, pool', w'.pointers, owned', base)
    ensures fresh(Objects(pool') - Objects(pool))
  {
    pool', w', owned' := pool, w, owned;
    if Spec.Creates(op) {
      var m := CreateNext(heap, pool, op, w, owned, base);
      w' := Spec.Create(heap.fails, w, op);
      pool', owned' := pool + [m], owned + [BlocksOf(m)];
    } else {
      var i := Spec.Subject(op).value;
      assert Stands(heap, pool[i], w.pointers[i], owned[i]);
      if pool[i] != null {
        w', owned' := ChangeNext(heap, pool, op, w, owned, base);
      }
    }
  }

  method CreateNext(heap: CHeap, pool: seq<Message?>, op: Spec.Op, ghost w: Spec.World,
                    ghost owned: seq<set<Block>>, ghost base: set<Block>) returns (m: Message?)
    requires Represents(heap, pool, w.pointers, owned, base) && w.clock == heap.clock
    requires Spec.MayCall(w, op) && Spec.Creates(op)
    modifies heap
    ensures m != null ==> fresh(m) && fresh(m.texts) && m.texts.Length == Spec.FIELDS
    ensures Spec.Create(heap.fails, w, op) ==
      Spec.World(w.pointers + [PointerOf(m)], heap.clock)
    ensures Represents(heap, pool + [m], Spec.Create(heap.fails, w, op).pointers,
              owned + [BlocksOf(m)], base)
  {
    var subject: Message? := null;
    var i := Spec.Subject(op);
    if i.Some? {
      assert Stands(heap, pool[i.value], w.pointers[i.value], owned[i.value]);
      subject := pool[i.value];
    }
    m := CreateOne(heap, subject, w, op);
    AppendedBlocks(owned, BlocksOf(m), heap.live, base);
    forall j | 0 <= j < |pool| ensures Stands(heap, pool[j], w.pointers[j], owned[j]) {
      assert old(Stands(heap, pool[j], w.pointers[j], owned[j]));
      assert owned[j] <= All(owned);
    }
  }

  method ChangeNext(heap: CHeap, pool: seq<Message?>, op: Spec.Op, ghost w: Spec.World,
                    ghost owned: seq<set<Block>>, ghost base: set<Block>)
      returns (ghost w': Spec.World, ghost owned': seq<set<Block>>)
    requires Represents(heap, pool, w.pointers, owned, base) && w.clock == heap.clock
    requires Spec.MayCall(w, op) && !Spec.Creates(op) && pool[Spec.Subject(op).value] != null
    modifies heap, Objects(pool)
    ensures w' == Spec.Step(heap.fails, w, op) && w'.clock == heap.clock
    ensures Represents(heap, pool, w'.pointers, owned', base)
  {
    var i := Spec.Subject(op).value;
    assert Stands(heap, pool[i], w.pointers[i], owned[i]);
    assert pool[i] in Objects(pool) && pool[i].texts in Objects(pool);
    ghost var p := ChangeOne(heap, pool[i], op);
    ghost var blocks := if p.Freed? then {} else pool[i].Owned();
    UpdatedBlocks(owned, i, blocks, old(heap.live), heap.live, base);
    forall j | 0 <= j < |pool| && j != i ensures Stands(heap, pool[j], w.pointers[j], owned[j]) {
      assert old(Stands(heap, pool[j], w.pointers[j], owned[j]));
      if pool[j] != null { assert pool[j] != pool[i] && pool[j].texts != pool[i].texts; }
    }
    w' := Spec.World(w.pointers[i := p], heap.clock);
    owned' := owned[i := blocks];
  }

  /** Any run that does not use a freed message: every pointer ends as specified, whatever
      allocations fail, and what is allocated beyond the start is exactly what the live
      messages own. When every reference has been given back, nothing is left. */
  method PerformAll(heap: CHeap, ops: seq<Spec.Op>) returns (pool: seq<Message?>, ghost owned: seq<set<Block>>)
    requires heap.Valid() && Spec.Disciplined(heap.fails, heap.clock, ops)
    modifies heap
    ensures Represents(heap, pool, Spec.Run(heap.fails, old(heap.clock), ops).pointers, owned, old(heap.live))
    ensures Spec.Run(heap.fails, old(heap.clock), ops).clock == heap.clock
    ensures (forall i :: 0 <= i < |pool| ==> Spec.References(ops, i) <= 0) ==> heap.live == old(heap.live)
  {
    pool, owned := [], [];
    ghost var w := Spec.World([], heap.clock);
    for k := 0 to |ops|
      invariant Represents(heap, pool, w.pointers, owned, old(heap.live)) && w.clock == heap.clock
      invariant w == Spec.Run(heap.fails, old(heap.clock), ops[..k])
      invariant fresh(Objects(pool))
    {
      assert ops[..k + 1][..k] == ops[..k] && Spec.MayCall(w, ops[k]);
      pool, w, owned := Perform(heap, pool, ops[k], w, owned, old(heap.live));
    }
    assert ops[..|ops|] == ops;
    Spec.LiveWhileReferenced(heap.fails, old(heap.clock), ops);
    if forall i :: 0 <= i < |pool| ==> Spec.References(ops, i) <= 0 {
      NothingOwned(heap, pool, w.pointers, owned, old(heap.live));
    }
  }

  lemma NothingOwned(heap: CHeap, pool: seq<Message?>, pointers: seq<Spec.Pointer>, owned: seq<set<Block>>,
                     base: set<Block>)
    requires Represents(heap, pool, pointers, owned, base)
    requires forall i :: 0 <= i < |pointers| ==> !pointers[i].Live?
    ensures heap.live == base
  {
    forall i | 0 <= i < |owned| ensures owned[i] == {} {
      assert Stands(heap, pool[i], pointers[i], owned[i]);
    }
    assert All(owned) == {};
  }
}
