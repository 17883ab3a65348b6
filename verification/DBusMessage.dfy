/** Messages as the library keeps them: a counted block owning up to seven strings. */
module DBusMessage {
  import opened PamTypes
  import opened CMemory
  import opened OwnedSlots
  import Spec = DBusSpec

  ghost function TextsOf(slots: seq<Option<CStr>>): (t: Spec.Texts)
    requires |slots| == Spec.FIELDS
    ensures forall i :: 0 <= i < Spec.FIELDS ==> t[i] == Text(slots[i])
  {
    seq(Spec.FIELDS, i requires 0 <= i < Spec.FIELDS => Text(slots[i]))
  }

  class Message {
    const block: Block                // the allocation of the message itself
    var refcount: int
    const kind: int
    var serial: nat
    var replySerial: nat
    const texts: array<Option<CStr>>  // path, interface, member, error name, destination, sender, signature
    var noReply: nat
    var autoStart: nat

    ghost function Owned(): set<Block>
      reads this, texts
    {
      {block} + Held(texts[..])
    }

    ghost predicate Valid(heap: CHeap)
      reads this, texts, heap
    {
      && heap.Valid() && texts.Length == Spec.FIELDS
      && OneOwner(texts[..]) && block !in Held(texts[..]) && Owned() <= heap.live
    }

    ghost function View(): Spec.Msg
      requires texts.Length == Spec.FIELDS
      reads this, texts
    {
      Spec.Msg(refcount, kind, serial, replySerial, TextsOf(texts[..]), noReply, autoStart)
    }

    ghost function Filling(heap: CHeap): Spec.Filling
      requires texts.Length == Spec.FIELDS
      reads this, texts, heap
    {
      Spec.Filling(View(), heap.clock)
    }

    /** Only this message's own blocks have changed hands since the old state. */
    twostate predicate Conserves(heap: CHeap)
      reads this, texts, heap
    {
      heap.live - Owned() == old(heap.live - Owned())
    }

    /** The zeroed block `msg_alloc` starts from. */
    constructor (heap: CHeap, block: Block, kind: int)
      requires heap.Valid() && block in heap.live
      ensures Valid(heap) && this.block == block && Owned() == {block} && fresh(texts)
      ensures View() == Spec.Blank(kind, 0)
    {
      this.block := block;
      this.kind := kind;
      refcount := 1;
      serial, replySerial, noReply, autoStart := 0, 0, 0, 0;
      texts := new Option<CStr>[Spec.FIELDS](_ => None);
    }

    /** `msg_free`: the strings in field order, then the message. */
    method Free(heap: CHeap)
      requires Valid(heap)
      modifies heap`live
      ensures heap.Valid() && heap.live == old(heap.live) - Owned()
    {
      FreeNext(heap, texts, Spec.PATH, old(heap.live));
      FreeNext(heap, texts, Spec.INTERFACE, old(heap.live));
      FreeNext(heap, texts, Spec.MEMBER, old(heap.live));
      FreeNext(heap, texts, Spec.ERROR_NAME, old(heap.live));
      FreeNext(heap, texts, Spec.DESTINATION, old(heap.live));
      FreeNext(heap, texts, Spec.SENDER, old(heap.live));
      FreeNext(heap, texts, Spec.SIGNATURE, old(heap.live));
      assert texts[..7] == texts[..];
      heap.Free(block);
    }

    /** Free what field k holds. */
    method Clear(heap: CHeap, k: nat)
      requires Valid(heap) && k < Spec.FIELDS
      modifies texts, heap`live
      ensures Valid(heap) && Conserves(heap) && texts[k] == None
      ensures TextsOf(texts[..]) == TextsOf(old(texts[..]))[k := None]
    {
      if texts[k].Some? {
        ghost var before := texts[..];
        HeldEmpty(before, k);
        heap.Free(texts[k].value.block);
        texts[k] := None;
        assert texts[..] == before[k := None];
      }
    }

    /** Give the empty field k its own copy of a text: `xstrdup`. */
    method Dup(heap: CHeap, k: nat, text: Option<string>)
      requires Valid(heap) && k < Spec.FIELDS && texts[k] == None
      modifies texts, heap
      ensures Valid(heap) && Conserves(heap)
      ensures Filling(heap) == Spec.Put(heap.fails, old(Filling(heap)), k, text)
    {
      if text == None {
        assert TextsOf(texts[..]) == TextsOf(texts[..])[k := None];
        return;
      }
      ghost var before := texts[..];
      var copy := heap.Alloc();
      if copy == None {
        assert TextsOf(texts[..]) == TextsOf(before)[k := None];
        return;
      }
      HeldFill(before, k, CStr(copy.value, text.value));
      texts[k] := Some(CStr(copy.value, text.value));
      assert texts[..] == before[k := texts[k]];
      assert TextsOf(texts[..]) == TextsOf(before)[k := text];
    }

    /** `msg_set_str`: the old text goes first, and the answer is always 1. */
    method SetText(heap: CHeap, k: nat, text: Option<string>) returns (ok: int)
      requires Valid(heap) && k < Spec.FIELDS
      modifies texts, heap
      ensures Valid(heap) && Conserves(heap) && ok == 1
      ensures Filling(heap) == Spec.Put(heap.fails, old(Filling(heap)), k, text)
    {
      ghost var before := TextsOf(texts[..]);
      Clear(heap, k);
      ghost var between := TextsOf(texts[..]);
      Dup(heap, k, text);
      ghost var kept := TextsOf(texts[..])[k];
      assert between[k := kept] == before[k := kept];
      ok := 1;
    }

    method Ref()
      modifies `refcount
      ensures refcount == old(refcount) + 1
    {
      refcount := refcount + 1;
    }

    /** `dbus_message_unref`: the last reference frees everything the message owns. */
    method Unref(heap: CHeap) returns (ghost freed: bool)
      requires Valid(heap)
      modifies `refcount, heap`live
      ensures heap.Valid() && refcount == old(refcount) - 1
      ensures freed == (old(refcount) <= 1)
      ensures heap.live == if freed then old(heap.live) - old(Owned()) else old(heap.live)
    {
      refcount := refcount - 1;
      freed := false;
      if refcount <= 0 {
        Free(heap);
        freed := true;
      }
    }
  }

  /** A new message or NULL: with NULL nothing is left allocated. */
  twostate predicate Allocated(heap: CHeap, new m: Message?)
    reads heap, m, if m == null then {} else {m.texts}
  {
    if m == null then heap.Valid() && heap.live == old(heap.live)
    else
      && m.Valid(heap) && fresh(m) && fresh(m.texts)
      && heap.live - m.Owned() == old(heap.live) && m.Owned() !! old(heap.live)
  }

  /** `msg_alloc`. */
  method MsgAlloc(heap: CHeap, kind: int) returns (m: Message?)
    requires heap.Valid()
    modifies heap
    ensures Allocated(heap, m) && heap.clock == old(heap.clock) + 1
    ensures m == null <==> heap.fails(old(heap.clock))
    ensures m != null ==> m.View() == Spec.Blank(kind, 0)
  {
    var block := heap.Alloc();
    if block == None { return null; }
    m := new Message(heap, block.value, kind);
  }

  method NewMethodCall(heap: CHeap, dest: Option<string>, path: Option<string>, iface: Option<string>,
                       member: Option<string>) returns (m: Message?)
    requires heap.Valid()
    modifies heap
    ensures Allocated(heap, m)
    ensures m == null <==> heap.fails(old(heap.clock))
    ensures m == null ==> heap.clock == old(heap.clock) + 1
    ensures m != null ==>
      m.Filling(heap) == Spec.MethodCall(heap.fails, old(heap.clock) + 1, dest, path, iface, member)
  {
    m := MsgAlloc(heap, Spec.METHOD_CALL);
    if m == null { return; }
    m.Dup(heap, Spec.DESTINATION, dest);
    m.Dup(heap, Spec.PATH, path);
    m.Dup(heap, Spec.INTERFACE, iface);
    m.Dup(heap, Spec.MEMBER, member);
  }

  method NewSignal(heap: CHeap, path: Option<string>, iface: Option<string>, member: Option<string>)
      returns (m: Message?)
    requires heap.Valid()
    modifies heap
    ensures Allocated(heap, m)
    ensures m == null <==> heap.fails(old(heap.clock))
    ensures m == null ==> heap.clock == old(heap.clock) + 1
    ensures m != null ==>
      m.Filling(heap) == Spec.Signal(heap.fails, old(heap.clock) + 1, path, iface, member)
  {
    m := MsgAlloc(heap, Spec.SIGNAL);
    if m == null { return; }
    m.Dup(heap, Spec.PATH, path);
    m.Dup(heap, Spec.INTERFACE, iface);
    m.Dup(heap, Spec.MEMBER, member);
  }

  method NewMethodReturn(heap: CHeap, call: Message?) returns (m: Message?)
    requires heap.Valid()
    modifies heap
    ensures Allocated(heap, m) && heap.clock == old(heap.clock) + 1
    ensures m == null <==> heap.fails(old(heap.clock))
    ensures m != null ==>
      m.View() == Spec.Blank(Spec.METHOD_RETURN, if call == null then 0 else call.serial)
  {
    m := MsgAlloc(heap, Spec.METHOD_RETURN);
    if m != null && call != null { m.replySerial := call.serial; }
  }

  method NewError(heap: CHeap, replyTo: Message?, name: Option<string>) returns (m: Message?)
    requires heap.Valid()
    modifies heap
    ensures Allocated(heap, m)
    ensures m == null <==> heap.fails(old(heap.clock))
    ensures m == null ==> heap.clock == old(heap.clock) + 1
    ensures m != null ==>
      m.Filling(heap) ==
        Spec.Error(heap.fails, old(heap.clock) + 1, if replyTo == null then 0 else replyTo.serial, name)
  {
    m := MsgAlloc(heap, Spec.ERROR);
    if m == null { return; }
    m.Dup(heap, Spec.ERROR_NAME, name);
    if replyTo != null { m.replySerial := replyTo.serial; }
  }

  /** `dbus_message_copy`: strings are duplicated, never shared. */
  method Copy(heap: CHeap, source: Message?) returns (c: Message?)
    requires heap.Valid() && (source != null ==> source.Valid(heap))
    modifies heap
    ensures Allocated(heap, c)
    ensures c == null <==> source == null || heap.fails(old(heap.clock))
    ensures c == null ==> heap.clock == old(heap.clock) + (if source == null then 0 else 1)
    ensures c != null ==> c.Filling(heap) == Spec.Duplicate(heap.fails, old(heap.clock) + 1, source.View())
  {
    if source == null { return null; }
    c := MsgAlloc(heap, source.kind);
    if c == null { return; }
    c.serial := source.serial;
    c.replySerial := source.replySerial;
    c.noReply := source.noReply;
    c.autoStart := source.autoStart;
    assert c.Filling(heap) == Spec.Filling(source.View().(count := 1, texts := Spec.NoTexts()), heap.clock);
    CopyStrings(heap, c, source);
  }

  method CopyStrings(heap: CHeap, c: Message, source: Message)
    requires c.Valid(heap) && source.texts.Length == Spec.FIELDS && source.texts != c.texts && source != c
    requires c.View().texts == Spec.NoTexts()
    modifies c.texts, heap
    ensures c.Valid(heap) && c.Conserves(heap)
    ensures c.Filling(heap) ==
      Spec.CopyTexts(heap.fails, old(c.Filling(heap)), source.View().texts, Spec.FIELDS)
  {
    ghost var start := c.Filling(heap);
    CopyNext(heap, c, source, Spec.PATH, start);
    CopyNext(heap, c, source, Spec.INTERFACE, start);
    CopyNext(heap, c, source, Spec.MEMBER, start);
    CopyNext(heap, c, source, Spec.ERROR_NAME, start);
    CopyNext(heap, c, source, Spec.DESTINATION, start);
    CopyNext(heap, c, source, Spec.SENDER, start);
    CopyNext(heap, c, source, Spec.SIGNATURE, start);
  }

  method CopyNext(heap: CHeap, c: Message, source: Message, k: nat, ghost start: Spec.Filling)
    requires c.Valid(heap) && source.texts.Length == Spec.FIELDS && source.texts != c.texts && source != c
    requires k < Spec.FIELDS && start.msg.texts == Spec.NoTexts()
    requires c.Filling(heap) == Spec.CopyTexts(heap.fails, start, source.View().texts, k)
    modifies c.texts, heap
    ensures c.Valid(heap) && c.Conserves(heap)
    ensures c.Filling(heap) == Spec.CopyTexts(heap.fails, start, source.View().texts, k + 1)
  {
    CopyTextsTail(heap.fails, start, source.View().texts, k);
    assert c.View().texts[k] == None;
    c.Dup(heap, k, Text(source.texts[k]));
  }

  lemma {:induction false} CopyTextsTail(fails: nat -> bool, f: Spec.Filling, from: Spec.Texts, k: nat)
    requires k <= Spec.FIELDS && f.msg.texts == Spec.NoTexts()
    ensures forall i :: k <= i < Spec.FIELDS ==> Spec.CopyTexts(fails, f, from, k).msg.texts[i] == None
  {
    if k > 0 { CopyTextsTail(fails, f, from, k - 1); }
  }
}
