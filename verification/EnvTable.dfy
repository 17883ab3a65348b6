/** The handle's environment: a NULL-terminated array of owned strings, changed in
    place. Slots after the terminator may hold anything. */
module EnvTable {
  import opened PamTypes
  import opened CMemory
  import opened EnvSpec

  ghost function Texts(entries: seq<CStr>): (t: Table)
    ensures |t| == |entries|
  {
    seq(|entries|, i requires 0 <= i < |entries| => entries[i].text)
  }

  ghost function Blocks(entries: seq<CStr>): set<Block> {
    set i | 0 <= i < |entries| :: entries[i].block
  }

  ghost predicate DistinctBlocks(entries: seq<CStr>) {
    forall i, j :: 0 <= i < j < |entries| ==> entries[i].block != entries[j].block
  }

  lemma BlocksReplace(entries: seq<CStr>, k: nat, e: CStr)
    requires k < |entries| && DistinctBlocks(entries) && e.block !in Blocks(entries)
    ensures DistinctBlocks(entries[k := e])
    ensures Blocks(entries[k := e]) == Blocks(entries) - {entries[k].block} + {e.block}
  {
    var after := entries[k := e];
    forall i | 0 <= i < |entries| ensures entries[i].block in Blocks(entries) {}
    forall b | b in Blocks(entries) - {entries[k].block} + {e.block} ensures b in Blocks(after) {
      if b == e.block {
        assert after[k].block == b;
      } else {
        var i :| 0 <= i < |entries| && entries[i].block == b;
        assert after[i].block == b;
      }
    }
  }

  lemma BlocksRemove(entries: seq<CStr>, k: nat)
    requires k < |entries| && DistinctBlocks(entries)
    ensures DistinctBlocks(entries[..k] + entries[k + 1..])
    ensures Blocks(entries[..k] + entries[k + 1..]) == Blocks(entries) - {entries[k].block}
  {
    var after := entries[..k] + entries[k + 1..];
    forall i | 0 <= i < |after| ensures after[i] == entries[if i < k then i else i + 1] {}
    forall b | b in Blocks(entries) - {entries[k].block} ensures b in Blocks(after) {
      var i :| 0 <= i < |entries| && entries[i].block == b;
      assert after[if i < k then i else i - 1].block == b;
    }
  }

  lemma TextsRemove(entries: seq<CStr>, k: nat)
    requires k < |entries|
    ensures Texts(entries[..k] + entries[k + 1..]) == Texts(entries)[..k] + Texts(entries)[k + 1..]
  {
  }

  lemma BlocksAppend(entries: seq<CStr>, e: CStr)
    requires DistinctBlocks(entries) && e.block !in Blocks(entries)
    ensures DistinctBlocks(entries + [e]) && Blocks(entries + [e]) == Blocks(entries) + {e.block}
  {
    var after := entries + [e];
    forall i | 0 <= i < |entries| ensures entries[i].block in Blocks(entries) {}
    assert after[|entries|].block == e.block;
    forall b | b in Blocks(entries) ensures b in Blocks(after) {
      var i :| 0 <= i < |entries| && entries[i].block == b;
      assert after[i].block == b;
    }
  }

  /** The slots hold exactly these strings and a terminator after them. */
  ghost predicate Holds(slots: array<Option<CStr>>, entries: seq<CStr>)
    reads slots
  {
    && |entries| < slots.Length
    && (forall i :: 0 <= i < |entries| ==> slots[i] == Some(entries[i]))
    && slots[|entries|] == None
  }

  lemma BlocksPrefix(entries: seq<CStr>, i: nat)
    requires i < |entries| && DistinctBlocks(entries)
    ensures Blocks(entries[..i + 1]) == Blocks(entries[..i]) + {entries[i].block}
    ensures entries[i].block !in Blocks(entries[..i]) && entries[i].block in Blocks(entries)
  {
    assert entries[..i + 1] == entries[..i] + [entries[i]];
    BlocksAppend(entries[..i], entries[i]);
  }

  /** Free every string up to the terminator. */
  method FreeStrings(heap: CHeap, slots: array<Option<CStr>>, ghost entries: seq<CStr>)
    requires heap.Valid() && Holds(slots, entries)
    requires DistinctBlocks(entries) && Blocks(entries) <= heap.live
    modifies heap`live
    ensures heap.Valid()
    ensures heap.live == old(heap.live) - Blocks(entries)
  {
    var i := 0;
    while slots[i] != None
      invariant 0 <= i <= |entries| && heap.Valid()
      invariant heap.live == old(heap.live) - Blocks(entries[..i])
      decreases |entries| - i
    {
      BlocksPrefix(entries, i);
      heap.Free(slots[i].value.block);
      i := i + 1;
    }
    assert entries[..i] == entries;
  }

  class EnvTable {
    var env: array?<Option<CStr>>
    var arrayBlock: Block         // the allocation `env` points to
    ghost var entries: seq<CStr>  // what precedes the terminator

    ghost predicate Shape()
      reads this, env
    {
      && (env == null ==> entries == [])
      && (env != null ==>
           && |entries| < env.Length
           && (forall i :: 0 <= i < |entries| ==> env[i] == Some(entries[i]))
           && env[|entries|] == None)
    }

    ghost function Owned(): set<Block>
      reads this
    {
      Blocks(entries) + (if env == null then {} else {arrayBlock})
    }

    ghost function Table(): Table
      reads this
    {
      Texts(entries)
    }

    ghost function Arrays(): set<object>
      reads this
    {
      if env == null then {} else {env}
    }

    ghost predicate Valid(heap: CHeap)
      reads this, env, heap
    {
      && heap.Valid() && Shape()
      && Owned() <= heap.live
      && DistinctBlocks(entries) && (env != null ==> arrayBlock !in Blocks(entries))
      && Proper(Table())
    }

    constructor ()
      ensures env == null && entries == []
    {
      env := null;
      arrayBlock := 0;
      entries := [];
    }

    /** The walk every operation starts with: the first entry matching `name`. */
    method Find(heap: CHeap, name: string) returns (k: nat)
      requires Valid(heap)
      ensures k == IndexOf(Table(), name)
    {
      k := 0;
      while env != null && env[k] != None
        invariant 0 <= k <= |entries|
        invariant forall i :: 0 <= i < k ==> !Matches(Table()[i], name)
        decreases |entries| - k
      {
        if Matches(env[k].value.text, name) { break; }
        k := k + 1;
      }
      if k < |entries| { assert Matches(Table()[k], name); }
    }

    method GetEnv(heap: CHeap, name: Option<string>) returns (value: Option<string>)
      requires Valid(heap)
      ensures value == if name.None? then None else EnvSpec.GetEnv(Table(), name.value)
    {
      if name == None { return None; }
      var k := Find(heap, name.value);
      if env == null || env[k] == None { return None; }
      assert Table()[k] == env[k].value.text;
      return Some(env[k].value.text[|name.value| + 1..]);
    }

    /** Free entry k and close the gap, terminator included. */
    method RemoveAt(heap: CHeap, k: nat)
      requires Valid(heap) && k < |entries|
      modifies this, env, heap
      ensures Shape() && heap.Valid() && env == old(env) && arrayBlock == old(arrayBlock)
      ensures entries == old(entries[..k] + entries[k + 1..])
      ensures heap.clock == old(heap.clock) && heap.live == old(heap.live) - {old(entries[k].block)}
    {
      assert entries[k].block in Blocks(entries);
      heap.Free(env[k].value.block);
      CloseGap(k);
    }

    /** Move what follows slot k, terminator included, one slot down. */
    method CloseGap(k: nat)
      requires env != null && Shape() && k < |entries|
      modifies `entries, env
      ensures Shape() && entries == old(entries[..k] + entries[k + 1..])
    {
      var tail := 0;
      while env[k + 1 + tail] != None
        invariant k + 1 + tail <= |entries|
        decreases |entries| - tail
      {
        tail := tail + 1;
      }
      forall i | k <= i < k + tail + 1 { env[i] := env[i + 1]; }
      entries := entries[..k] + entries[k + 1..];
    }

    /** Copy a text into slot k, freeing the old one; the copy is made first. */
    method ReplaceAt(heap: CHeap, k: nat, text: string) returns (ret: int)
      requires Valid(heap) && k < |entries|
      modifies this, env, heap
      ensures Shape() && heap.Valid() && env == old(env) && arrayBlock == old(arrayBlock)
      ensures heap.clock == old(heap.clock) + 1
      ensures ret == if heap.fails(old(heap.clock)) then PAM_BUF_ERR else PAM_SUCCESS
      ensures ret != PAM_SUCCESS ==> entries == old(entries) && heap.live == old(heap.live)
      ensures ret == PAM_SUCCESS ==>
        && entries == old(entries)[k := CStr(old(heap.clock), text)]
        && heap.live == old(heap.live) + {old(heap.clock)} - {old(entries[k].block)}
    {
      assert entries[k].block in Blocks(entries);
      var copy := heap.Alloc();
      if copy == None { return PAM_BUF_ERR; }
      heap.Free(env[k].value.block);
      env[k] := Some(CStr(copy.value, text));
      entries := entries[k := CStr(copy.value, text)];
      return PAM_SUCCESS;
    }

    /** `realloc` to `size` slots: the old slots are kept as far as they fit. */
    method Grow(heap: CHeap, size: nat) returns (ok: bool)
      requires Valid(heap) && size == |entries| + 2
      modifies this, heap
      ensures heap.Valid() && entries == old(entries)
      ensures heap.clock == old(heap.clock) + 1 && ok == !heap.fails(old(heap.clock))
      ensures !ok ==> env == old(env) && arrayBlock == old(arrayBlock) && heap.live == old(heap.live)
      ensures ok ==>
        && env != null && fresh(env) && env.Length == size && arrayBlock == old(heap.clock)
        && (forall i :: 0 <= i < |entries| ==> env[i] == Some(entries[i]))
        && heap.live == old(heap.live) + {arrayBlock} - (if old(env) == null then {} else {old(arrayBlock)})
    {
      var block := heap.Alloc();
      if block == None { return false; }
      var slots := new Option<CStr>[size];
      if env != null {
        forall i | 0 <= i < size && i < env.Length { slots[i] := env[i]; }
        heap.Free(arrayBlock);
      }
      env := slots;
      arrayBlock := block.value;
      return true;
    }

    /** Grow the array and put a copy of the text before a new terminator. If only the
        copy fails, the larger array stays, ending where it did before. */
    method Append(heap: CHeap, count: nat, text: string) returns (ret: int)
      requires Valid(heap) && count == |entries|
      modifies this, env, heap
      ensures Shape() && heap.Valid()
      ensures env == old(env) || (env != null && fresh(env))
      ensures env == old(env) ==> arrayBlock == old(arrayBlock)
      ensures env != old(env) ==> arrayBlock == old(heap.clock)
      ensures ret == if heap.fails(old(heap.clock)) || heap.fails(old(heap.clock) + 1) then PAM_BUF_ERR else PAM_SUCCESS
      ensures heap.clock == old(heap.clock) + (if heap.fails(old(heap.clock)) then 1 else 2)
      ensures var old0 := if old(env) == null then {} else {old(arrayBlock)};
        var new0 := if env == null then {} else {arrayBlock};
        if ret == PAM_SUCCESS then
          && entries == old(entries) + [CStr(old(heap.clock) + 1, text)]
          && heap.live == old(heap.live) - old0 + new0 + {old(heap.clock) + 1}
          && arrayBlock != old(heap.clock) + 1
        else entries == old(entries) && heap.live == old(heap.live) - old0 + new0
    {
      var ok := Grow(heap, count + 2);
      if !ok { return PAM_BUF_ERR; }
      var copy := heap.Alloc();
      if copy == None {
        env[count] := None;
        return PAM_BUF_ERR;
      }
      env[count] := Some(CStr(copy.value, text));
      env[count + 1] := None;
      entries := entries + [CStr(copy.value, text)];
      return PAM_SUCCESS;
    }

    /** Only this table's own blocks have changed hands since the old state. */
    twostate predicate Conserves(heap: CHeap)
      reads this, heap
    {
      && heap.live - Owned() == old(heap.live - Owned())
      && (env == old(env) || (env != null && fresh(env)))
    }

    /** Entry k goes, and its block with it; the rest stays in order. */
    method Drop(heap: CHeap, k: nat)
      requires Valid(heap) && k < |entries| && Proper(Table()[..k] + Table()[k + 1..])
      modifies this, env, heap
      ensures Valid(heap) && Conserves(heap) && heap.clock == old(heap.clock)
      ensures Table() == old(Table()[..k] + Table()[k + 1..])
    {
      ghost var was := entries;
      RemoveAt(heap, k);
      BlocksRemove(was, k);
      TextsRemove(was, k);
    }

    method Delete(heap: CHeap, name: string) returns (ret: int)
      requires Valid(heap) && PlainName(name)
      modifies this, env, heap
      ensures Valid(heap) && Conserves(heap) && heap.clock == old(heap.clock)
      ensures ret == if IndexOf(old(Table()), name) < |old(Table())| then PAM_SUCCESS else PAM_BAD_ITEM
      ensures Table() == Remove(old(Table()), name)
    {
      var k := Find(heap, name);
      if env == null || env[k] == None { return PAM_BAD_ITEM; }
      RemoveProper(Table(), name);
      Drop(heap, k);
      return PAM_SUCCESS;
    }

    method Update(heap: CHeap, k: nat, nv: string) returns (ret: int)
      requires Valid(heap) && k < |entries| && Named(nv) && k == IndexOf(Table(), NameOf(nv))
      modifies this, env, heap
      ensures Valid(heap) && Conserves(heap) && heap.clock == old(heap.clock) + 1
      ensures ret == if heap.fails(old(heap.clock)) then PAM_BUF_ERR else PAM_SUCCESS
      ensures Table() == if ret == PAM_SUCCESS then Store(old(Table()), nv) else old(Table())
    {
      ghost var before, was := Table(), entries;
      StoreProper(before, nv);
      assert heap.clock !in Blocks(was);
      ret := ReplaceAt(heap, k, nv);
      if ret == PAM_SUCCESS {
        BlocksReplace(was, k, entries[k]);
        assert Table() == Store(before, nv);
      }
    }

    method Add(heap: CHeap, k: nat, nv: string) returns (ret: int)
      requires Valid(heap) && k == |entries| && Named(nv) && k == IndexOf(Table(), NameOf(nv))
      modifies this, env, heap
      ensures Valid(heap) && Conserves(heap)
      ensures heap.clock == old(heap.clock) + (if heap.fails(old(heap.clock)) then 1 else 2)
      ensures ret == if heap.fails(old(heap.clock)) || heap.fails(old(heap.clock) + 1) then PAM_BUF_ERR else PAM_SUCCESS
      ensures Table() == if ret == PAM_SUCCESS then Store(old(Table()), nv) else old(Table())
    {
      ghost var before, was := Table(), entries;
      StoreProper(before, nv);
      assert heap.clock + 1 !in Blocks(was) && heap.clock !in Blocks(was);
      ret := Append(heap, k, nv);
      if ret == PAM_SUCCESS {
        BlocksAppend(was, entries[k]);
        assert Table() == Store(before, nv);
      }
    }

    /** `pam_putenv`. Nothing outside the table's own blocks is allocated or freed. */
    method PutEnv(heap: CHeap, nameValue: Option<string>) returns (ret: int)
      requires Valid(heap)
      modifies this, env, heap
      ensures Valid(heap) && Conserves(heap)
      ensures (EnvState(Table(), heap.clock), ret) ==
        EnvSpec.PutEnv(heap.fails, EnvState(old(Table()), old(heap.clock)), nameValue)
    {
      if nameValue == None || nameValue.value == "" { return PAM_SYSTEM_ERR; }
      var nv := nameValue.value;
      var nameLen := NameLen(nv);
      if nameLen < 0 {
        ret := Delete(heap, nv);
        return;
      }
      if nameLen == 0 { return PAM_SYSTEM_ERR; }
      var k := Find(heap, nv[..nameLen]);
      if env != null && env[k] != None {
        ret := Update(heap, k, nv);
      } else {
        ret := Add(heap, k, nv);
      }
    }

    /** `pam_misc_paste_env`: stops at the first text that is not accepted. */
    method PasteEnv(heap: CHeap, list: Option<seq<string>>) returns (ret: int)
      requires Valid(heap)
      modifies this, env, heap
      ensures Valid(heap) && Conserves(heap)
      ensures (EnvState(Table(), heap.clock), ret) ==
        if list.None? then (EnvState(old(Table()), old(heap.clock)), PAM_SUCCESS)
        else EnvSpec.PasteEnv(heap.fails, EnvState(old(Table()), old(heap.clock)), list.value)
    {
      ret := PAM_SUCCESS;
      if list == None { return; }
      var i := 0;
      ghost var start := EnvState(Table(), heap.clock);
      while i < |list.value| && ret == PAM_SUCCESS
        invariant 0 <= i <= |list.value|
        invariant Valid(heap) && Conserves(heap)
        invariant heap.clock >= old(heap.clock)
        invariant EnvSpec.PasteEnv(heap.fails, start, list.value) ==
          if ret == PAM_SUCCESS then EnvSpec.PasteEnv(heap.fails, EnvState(Table(), heap.clock), list.value[i..])
          else (EnvState(Table(), heap.clock), ret)
      {
        assert list.value[i..][0] == list.value[i] && list.value[i..][1..] == list.value[i + 1..];
        ret := PutEnv(heap, Some(list.value[i]));
        i := i + 1;
      }
    }

    /** `pam_misc_setenv`: the temporary text is freed on every path. */
    method SetEnv(heap: CHeap, name: Option<string>, value: Option<string>) returns (ret: int)
      requires Valid(heap)
      modifies this, env, heap
      ensures Valid(heap) && Conserves(heap)
      ensures (EnvState(Table(), heap.clock), ret) ==
        EnvSpec.SetEnv(heap.fails, EnvState(old(Table()), old(heap.clock)), name, value)
    {
      if name == None || value == None { return PAM_SYSTEM_ERR; }
      var buf := heap.Alloc();
      if buf == None { return PAM_BUF_ERR; }
      assert buf.value in heap.live - Owned();
      label Built:
      ret := PutEnv(heap, Some(name.value + "=" + value.value));
      assert heap.live - Owned() == old(heap.live - Owned()) + {buf.value};
      heap.Free(buf.value);
      assert heap.live - Owned() == old(heap.live - Owned());
    }

    /** Copy every text into `out`, or free the copies made so far. */
    method CopyAll(heap: CHeap, out: array<Option<CStr>>) returns (ok: bool, ghost copies: seq<CStr>)
      requires Valid(heap) && out != env && out.Length == |entries| + 1
      requires forall j :: 0 <= j < out.Length ==> out[j] == None
      modifies out, heap
      ensures heap.Valid() && heap.clock >= old(heap.clock)
      ensures !ok ==> heap.live == old(heap.live)
      ensures !ok ==> exists k :: old(heap.clock) <= k < old(heap.clock) + |entries| && heap.fails(k)
      ensures ok ==>
        && Holds(out, copies) && Texts(copies) == Table() && DistinctBlocks(copies)
        && Blocks(copies) !! old(heap.live)
        && heap.live == old(heap.live) + Blocks(copies)
    {
      copies := [];
      for i := 0 to out.Length - 1
        invariant |copies| == i && heap.Valid() && heap.clock == old(heap.clock) + i
        invariant forall j :: 0 <= j < i ==> out[j] == Some(copies[j])
        invariant forall j :: i <= j < out.Length ==> out[j] == None
        invariant forall j :: 0 <= j < i ==> copies[j] == CStr(old(heap.clock) + j, entries[j].text)
        invariant heap.live == old(heap.live) + Blocks(copies)
      {
        var copy := heap.Alloc();
        if copy == None {
          FreeStrings(heap, out, copies);
          return false, [];
        }
        out[i] := Some(CStr(copy.value, env[i].value.text));
        BlocksAppend(copies, out[i].value);
        copies := copies + [out[i].value];
      }
      assert Texts(copies) == Table();
      ok := true;
    }

    /** `pam_getenvlist`: a separate copy of every text, or nothing at all. */
    method GetEnvList(heap: CHeap) returns (out: array?<Option<CStr>>, outBlock: Block, ghost copies: seq<CStr>)
      requires Valid(heap)
      modifies heap
      ensures Valid(heap)
      ensures out == null ==> heap.live == old(heap.live)
      ensures out == null ==> exists k :: old(heap.clock) <= k <= old(heap.clock) + |entries| && heap.fails(k)
      ensures out != null ==>
        && fresh(out) && Holds(out, copies) && Texts(copies) == Table() && DistinctBlocks(copies)
        && outBlock !in Blocks(copies) && (Blocks(copies) + {outBlock}) !! old(heap.live)
        && heap.live == old(heap.live) + Blocks(copies) + {outBlock}
    {
      copies, outBlock := [], 0;
      var count := 0;
      while env != null && env[count] != None
        invariant 0 <= count <= |entries|
        decreases |entries| - count
      {
        count := count + 1;
      }
      var block := heap.Alloc();
      if block == None { return null, 0, []; }
      outBlock := block.value;
      var slots := new Option<CStr>[count + 1](_ => None);
      var ok;
      ok, copies := CopyAll(heap, slots);
      if !ok {
        heap.Free(outBlock);
        return null, 0, [];
      }
      out := slots;
    }

    /** The part of `pam_end` that concerns the environment. */
    method Destroy(heap: CHeap)
      requires Valid(heap)
      modifies heap`live
      ensures heap.Valid() && heap.live == old(heap.live) - Owned()
    {
      if env != null {
        FreeStrings(heap, env, entries);
        heap.Free(arrayBlock);
      }
    }
  }

  /** `pam_misc_drop_env` undoes `pam_getenvlist`: every copied block is freed once. */
  method DropEnv(heap: CHeap, out: array<Option<CStr>>, outBlock: Block, ghost copies: seq<CStr>)
    requires heap.Valid() && Holds(out, copies) && DistinctBlocks(copies)
    requires outBlock !in Blocks(copies) && Blocks(copies) + {outBlock} <= heap.live
    modifies heap`live
    ensures heap.Valid() && heap.live == old(heap.live) - Blocks(copies) - {outBlock}
  {
    FreeStrings(heap, out, copies);
    heap.Free(outBlock);
  }
}
