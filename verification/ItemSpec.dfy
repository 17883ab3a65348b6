/** The item slots of a handle as values, and what storing an item does to them. */
module ItemSpec {
  import opened PamTypes

  const PAM_SERVICE := 1
  const PAM_USER := 2
  const PAM_TTY := 3
  const PAM_RHOST := 4
  const PAM_CONV := 5
  const PAM_AUTHTOK := 6
  const PAM_OLDAUTHTOK := 7
  const PAM_RUSER := 8
  const PAM_USER_PROMPT := 9
  const PAM_FAIL_DELAY := 10
  const PAM_XDISPLAY := 11
  const PAM_XAUTHDATA := 12
  const PAM_AUTHTOK_TYPE := 13
  const MAX_ITEM := PAM_AUTHTOK_TYPE

  /** What a non-NULL item pointer points to. The lengths of X authority data are the
      record's own fields; its buffers may be NULL. */
  datatype ItemValue =
    | Text(text: string)
    | Conv(hasFunction: bool)
    | Xauth(name: Option<string>, nameLen: int, data: Option<string>, dataLen: int)
    | Raw(pointer: int)

  type Values = seq<Option<ItemValue>>
  datatype ItemState = ItemState(values: Values, clock: nat)

  /** No item is set. */
  function NoItems(): (v: Values)
    ensures |v| == MAX_ITEM + 1 && forall i :: 0 <= i <= MAX_ITEM ==> v[i] == None
  {
    seq(MAX_ITEM + 1, i => None)
  }

  predicate StringItem(item: int) {
    item == PAM_SERVICE || item == PAM_USER || item == PAM_TTY || item == PAM_RHOST || item == PAM_AUTHTOK
    || item == PAM_OLDAUTHTOK || item == PAM_RUSER || item == PAM_USER_PROMPT || item == PAM_XDISPLAY
    || item == PAM_AUTHTOK_TYPE
  }

  /** The items with text are 1 to 4, 6 to 9, 11 and 13. */
  lemma StringItems(item: int)
    ensures StringItem(item) <==> 1 <= item <= 13 && item !in {PAM_CONV, PAM_FAIL_DELAY, PAM_XAUTHDATA}
    ensures PAM_CONV == 5 && PAM_FAIL_DELAY == 10 && PAM_XAUTHDATA == 12 && MAX_ITEM == 13
  {
  }

  /** The caller passes the type of data the item calls for. */
  predicate Suits(item: int, v: ItemValue) {
    if StringItem(item) then v.Text?
    else if item == PAM_CONV then v.Conv?
    else if item == PAM_XAUTHDATA then
      && v.Xauth?
      && (v.name.Some? ==> v.nameLen <= |v.name.value|)
      && (v.data.Some? ==> v.dataLen <= |v.data.value|)
    else v.Raw?
  }

  // ---------------------------------------------------------------- on values

  function CopyBuffer(buffer: Option<string>, len: int): Option<string>
    requires buffer.Some? ==> len <= |buffer.value|
  {
    if buffer.Some? && len > 0 then Some(buffer.value[..len]) else None
  }

  /** What the stored copy reads as. */
  function Copied(item: int, v: ItemValue): ItemValue
    requires Suits(item, v)
  {
    match v
    case Xauth(name, nameLen, data, dataLen) =>
      Xauth(CopyBuffer(name, nameLen), nameLen, CopyBuffer(data, dataLen), dataLen)
    case _ => v
  }

  /** How many allocations the copy takes. */
  function Requests(v: ItemValue): nat {
    match v
    case Text(_) => 1
    case Conv(_) => 1
    case Xauth(name, nameLen, data, dataLen) =>
      1 + (if name.Some? && nameLen > 0 then 1 else 0) + (if data.Some? && dataLen > 0 then 1 else 0)
    case Raw(_) => 0
  }

  /** Make n requests, stopping after the first that fails. */
  function Ask(fails: nat -> bool, clock: nat, n: nat): (r: (bool, nat))
    ensures clock <= r.1 <= clock + n
    decreases n
  {
    if n == 0 then (true, clock)
    else if fails(clock) then (false, clock + 1)
    else Ask(fails, clock + 1, n - 1)
  }

  /** It ends at the first failure, if there is one. */
  lemma {:induction false} AskEnds(fails: nat -> bool, clock: nat, n: nat)
    ensures var (ok, clock') := Ask(fails, clock, n);
      if ok then clock' == clock + n && forall k :: clock <= k < clock' ==> !fails(k)
      else clock' > clock && fails(clock' - 1) && forall k :: clock <= k < clock' - 1 ==> !fails(k)
    decreases n
  {
    if n > 0 && !fails(clock) { AskEnds(fails, clock + 1, n - 1); }
  }

  /** `pam_set_item`. */
  function SetItem(fails: nat -> bool, s: ItemState, item: int, v: Option<ItemValue>): (ItemState, int)
    requires |s.values| == MAX_ITEM + 1
    requires 1 <= item <= MAX_ITEM && v.Some? ==> Suits(item, v.value)
  {
    if item <= 0 || item > MAX_ITEM then (s, PAM_BAD_ITEM)
    else if v.None? then (s.(values := s.values[item := None]), PAM_SUCCESS)
    else
      var (ok, clock) := Ask(fails, s.clock, Requests(v.value));
      if ok then (ItemState(s.values[item := Some(Copied(item, v.value))], clock), PAM_SUCCESS)
      else (s.(clock := clock), PAM_BUF_ERR)
  }

  /** Some call stored this value. */
  ghost predicate Holdable(item: int, v: ItemValue) {
    exists given :: Suits(item, given) && v == Copied(item, given)
  }

  /** Every item that is set is something a call stored. */
  ghost predicate AllHoldable(values: Values) {
    |values| == MAX_ITEM + 1
    && forall i :: 0 <= i <= MAX_ITEM && values[i].Some? ==> Holdable(i, values[i].value)
  }

  /** This holds at the start and after every call. */
  lemma HoldableKept(fails: nat -> bool, s: ItemState, item: int, v: Option<ItemValue>)
    requires AllHoldable(s.values) && (1 <= item <= MAX_ITEM && v.Some? ==> Suits(item, v.value))
    ensures AllHoldable(NoItems()) && AllHoldable(SetItem(fails, s, item, v).0.values)
  {
    if 1 <= item <= MAX_ITEM && v.Some? { assert Holdable(item, Copied(item, v.value)); }
  }

  lemma CopyBufferTwice(buffer: Option<string>, len: int)
    requires buffer.Some? ==> len <= |buffer.value|
    ensures CopyBuffer(buffer, len).Some? ==> len <= |CopyBuffer(buffer, len).value|
    ensures CopyBuffer(CopyBuffer(buffer, len), len) == CopyBuffer(buffer, len)
  {
    if buffer.Some? && len > 0 { assert buffer.value[..len][..len] == buffer.value[..len]; }
  }

  /** A copy copies to itself, so storing an item's current value again changes nothing,
      even when the copy cannot be made. */
  lemma ResetIsIdentity(fails: nat -> bool, s: ItemState, item: int)
    requires |s.values| == MAX_ITEM + 1 && 1 <= item <= MAX_ITEM
    requires s.values[item].Some? ==> Holdable(item, s.values[item].value)
    ensures s.values[item].Some? ==> Suits(item, s.values[item].value)
    ensures SetItem(fails, s, item, s.values[item]).0.values == s.values
  {
    if s.values[item].Some? {
      var v :| Suits(item, v) && s.values[item].value == Copied(item, v);
      if v.Xauth? {
        CopyBufferTwice(v.name, v.nameLen);
        CopyBufferTwice(v.data, v.dataLen);
      }
    }
  }

  /** A call fails only on an item number that does not exist or a failed allocation. */
  lemma SetItemErrors(fails: nat -> bool, s: ItemState, item: int, v: Option<ItemValue>)
    requires |s.values| == MAX_ITEM + 1
    requires 1 <= item <= MAX_ITEM && v.Some? ==> Suits(item, v.value)
    ensures var (s', code) := SetItem(fails, s, item, v);
      && s'.clock >= s.clock
      && (code == PAM_SUCCESS || code == PAM_BAD_ITEM || code == PAM_BUF_ERR)
      && (code == PAM_BUF_ERR ==> s'.clock > s.clock && fails(s'.clock - 1))
  {
    if v.Some? { AskEnds(fails, s.clock, Requests(v.value)); }
  }

  /** A buffer of some length was copied whole. */
  predicate SameBytes(copy: Option<string>, given: string, len: nat)
    requires len <= |given|
  {
    copy.Some? && |copy.value| == len && forall i :: 0 <= i < len ==> copy.value[i] == given[i]
  }

  /** What is read back after a successful store: a text, conversation or raw pointer as
      it was given; of X authority data both lengths, and of each buffer that many bytes,
      or none for a missing or empty one. */
  lemma SetThenGet(fails: nat -> bool, s: ItemState, item: int, v: ItemValue)
    requires |s.values| == MAX_ITEM + 1 && 1 <= item <= MAX_ITEM && Suits(item, v)
    requires SetItem(fails, s, item, Some(v)).1 == PAM_SUCCESS
    ensures var held := SetItem(fails, s, item, Some(v)).0.values[item];
      && held.Some?
      && (!v.Xauth? ==> held.value == v)
      && (v.Xauth? ==>
           && held.value.Xauth? && held.value.nameLen == v.nameLen && held.value.dataLen == v.dataLen
           && (if v.name.Some? && v.nameLen > 0 then SameBytes(held.value.name, v.name.value, v.nameLen)
               else held.value.name == None)
           && (if v.data.Some? && v.dataLen > 0 then SameBytes(held.value.data, v.data.value, v.dataLen)
               else held.value.data == None))
  {
  }

  /** A failed call changes no slot; a successful one changes one slot only. */
  lemma SetItemFrame(fails: nat -> bool, s: ItemState, item: int, v: Option<ItemValue>, other: int)
    requires |s.values| == MAX_ITEM + 1 && 0 <= other <= MAX_ITEM
    requires 1 <= item <= MAX_ITEM && v.Some? ==> Suits(item, v.value)
    ensures var (s', code) := SetItem(fails, s, item, v);
      && |s'.values| == MAX_ITEM + 1
      && (code != PAM_SUCCESS || other != item ==> s'.values[other] == s.values[other])
      && (code == PAM_SUCCESS && other == item ==>
           s'.values[other] == if v.None? then None else Some(Copied(item, v.value)))
      && (code == PAM_BAD_ITEM <==> !(1 <= item <= MAX_ITEM))
  {
  }
}
