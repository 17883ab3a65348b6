/** Authentication and password change on a handle, step by step. Each method is tied to
    its function in AuthSpec. */
module Auth {
  import opened PamTypes
  import opened CMemory
  import opened ItemSpec
  import opened AuthSpec
  import opened ItemTable
  import opened ShadowRows
  import opened ShadowUpdate
  import Verdict

  /** The application's conversation function, with a record of what it was asked. */
  class Conversation {
    const replies: nat -> Reply
    var asked: seq<Prompt>

    constructor (replies: nat -> Reply)
      ensures this.replies == replies && asked == []
    {
      this.replies, asked := replies, [];
    }

    method Converse(p: Prompt) returns (r: Reply)
      modifies this
      ensures r == replies(|old(asked)|) && asked == old(asked) + [p]
    {
      r := replies(|asked|);
      asked := asked + [p];
    }
  }

  function TextItem(v: Option<ItemValue>): Option<string> {
    if v.Some? && v.value.Text? then Some(v.value.text) else None
  }

  /** What AuthSpec sees of the items of a handle. */
  function SessionOf(st: ItemState, asked: seq<Prompt>): Session
    requires |st.values| == MAX_ITEM + 1
  {
    Session(TextItem(st.values[PAM_USER]), TextItem(st.values[PAM_AUTHTOK]), TextItem(st.values[PAM_OLDAUTHTOK]),
            st.values[PAM_CONV] == Some(Conv(true)), asked, st.clock)
  }

  function WorldOf(heap: CHeap, c: Conversation, crypt: Crypt): World {
    World(c.replies, heap.fails, crypt)
  }

  /** `ask`. */
  method Ask(heap: CHeap, items: ItemTable, c: Conversation, ghost crypt: Crypt, p: Prompt)
    returns (ret: int, answer: Option<string>)
    requires items.Valid(heap)
    modifies c
    ensures (SessionOf(items.State(heap), c.asked), ret, answer) ==
      AuthSpec.Ask(WorldOf(heap, c, crypt), SessionOf(items.State(heap), old(c.asked)), p)
  {
    var _, _, conv := items.GetItem(heap, PAM_CONV);
    if conv != Some(Conv(true)) { return PAM_CONV_ERR, None; }
    var reply := c.Converse(p);
    match reply
    case Refused(code) => return (if code == PAM_SUCCESS then PAM_CONV_ERR else code), None;
    case NoResponse => return PAM_CONV_ERR, None;
    case Answer(text) => return PAM_SUCCESS, text;
  }

  function AsItem(text: Option<string>): Option<ItemValue> {
    if text.None? then None else Some(Text(text.value))
  }

  /** Storing a nullable text takes at most one allocation. */
  lemma SetText(w: World, st: ItemState, item: int, text: Option<string>)
    requires |st.values| == MAX_ITEM + 1 && 1 <= item <= MAX_ITEM && StringItem(item)
    ensures var (stored, clock) := StoreAnswer(w, st.clock, text);
      ItemSpec.SetItem(w.fails, st, item, AsItem(text)) ==
        (ItemState(if stored == PAM_SUCCESS then st.values[item := AsItem(text)] else st.values, clock), stored)
  {
    if text.Some? { assert ItemSpec.Ask(w.fails, st.clock, 1) == (!w.fails(st.clock), st.clock + 1); }
  }

  /** Ask for a missing text item and store the answer. */
  method AskAndStore(heap: CHeap, items: ItemTable, c: Conversation, ghost crypt: Crypt, item: int, p: Prompt)
    returns (ret: int)
    requires items.Valid(heap) && 1 <= item <= MAX_ITEM && StringItem(item)
    requires items.State(heap).values[item] == None
    modifies items.slots, heap, c
    ensures items.Valid(heap) && items.Conserves(heap)
    ensures var st := old(items.State(heap));
      var (s1, code, value) := AuthSpec.Obtain(WorldOf(heap, c, crypt), SessionOf(st, old(c.asked)), p);
      && ret == code && c.asked == s1.asked
      && items.State(heap) == ItemState(st.values[item := AsItem(value)], s1.clock)
  {
    ghost var st := items.State(heap);
    assert st.values[item := None] == st.values;
    var answer;
    ret, answer := Ask(heap, items, c, crypt, p);
    if ret != PAM_SUCCESS { return; }
    SetText(WorldOf(heap, c, crypt), st, item, answer);
    ret := items.SetItem(heap, item, AsItem(answer));
  }

  /** What fetching an item leaves in the handle: the item is asked for if it is NULL. */
  ghost function Fetched(w: World, st: ItemState, asked: seq<Prompt>, item: int, p: Prompt)
    : (ItemState, seq<Prompt>, int)
    requires |st.values| == MAX_ITEM + 1 && 1 <= item <= MAX_ITEM
  {
    if st.values[item].Some? then (st, asked, PAM_SUCCESS)
    else
      var (s, code, value) := AuthSpec.Obtain(w, SessionOf(st, asked), p);
      (ItemState(st.values[item := AsItem(value)], s.clock), s.asked, code)
  }

  /** A text item, asked for if it is NULL. What is handed out is the item's own pointer,
      whether or not it was asked for. */
  method Fetch(heap: CHeap, items: ItemTable, c: Conversation, ghost crypt: Crypt, item: int, prompt: Prompt)
    returns (ret: int, p: Pointer, text: Option<string>)
    requires items.Valid(heap) && 1 <= item <= MAX_ITEM && StringItem(item)
    modifies items.slots, heap, c
    ensures items.Valid(heap) && items.Conserves(heap)
    ensures (items.State(heap), c.asked, ret) ==
      Fetched(WorldOf(heap, c, crypt), old(items.State(heap)), old(c.asked), item, prompt)
    ensures ret == PAM_SUCCESS ==>
      p == PointerTo(items.slots[item]) && text == TextItem(items.State(heap).values[item])
  {
    var got, held;
    got, p, held := items.GetItem(heap, item);
    if p == NullPointer {
      ret := AskAndStore(heap, items, c, crypt, item, prompt);
      if ret != PAM_SUCCESS { return ret, NullPointer, None; }
      got, p, held := items.GetItem(heap, item);
    }
    return PAM_SUCCESS, p, TextItem(held);
  }

  /** Items and session change together. */
  lemma SessionSet(st: ItemState, item: int, value: Option<string>, clock: nat, asked: seq<Prompt>)
    requires |st.values| == MAX_ITEM + 1 && (item == PAM_USER || item == PAM_AUTHTOK || item == PAM_OLDAUTHTOK)
    ensures var s := SessionOf(st, asked).(clock := clock);
      SessionOf(ItemState(st.values[item := AsItem(value)], clock), asked) ==
        if item == PAM_USER then s.(user := value)
        else if item == PAM_AUTHTOK then s.(token := value)
        else s.(oldToken := value)
  {
  }

  /** In the session, too, a missing text is asked for and one that is there is kept. */
  lemma FetchedSession(w: World, st: ItemState, asked: seq<Prompt>, item: int, p: Prompt)
    requires |st.values| == MAX_ITEM + 1 && (item == PAM_USER || item == PAM_AUTHTOK || item == PAM_OLDAUTHTOK)
    requires st.values[item] == AsItem(TextItem(st.values[item]))
    ensures var (after, asked', code) := Fetched(w, st, asked, item, p);
      var s := SessionOf(st, asked);
      && |after.values| == MAX_ITEM + 1
      && (SessionOf(after, asked'), code) ==
        if item == PAM_AUTHTOK then AuthSpec.GetToken(w, s, p)
        else if item == PAM_OLDAUTHTOK then AuthSpec.GetOldToken(w, s, p)
        else if st.values[item].Some? then (s, PAM_SUCCESS)
        else var (s1, _, value) := AuthSpec.Obtain(w, s, p); (s1.(user := value), code)
  {
    var (s1, _, value) := AuthSpec.Obtain(w, SessionOf(st, asked), p);
    SessionSet(st, item, value, s1.clock, s1.asked);
  }

  /** A text item holds a text or nothing. */
  lemma TextHeld(heap: CHeap, items: ItemTable, item: int)
    requires items.Valid(heap) && 1 <= item <= MAX_ITEM && StringItem(item)
    ensures var v := items.State(heap).values[item]; v == AsItem(TextItem(v))
  {
    assert SlotOk(item, items.slots[item]);
  }

  /** `pam_get_user`. */
  method GetUser(heap: CHeap, items: ItemTable, c: Conversation, ghost crypt: Crypt)
    returns (ret: int, user: Option<string>)
    requires items.Valid(heap)
    modifies items.slots, heap, c
    ensures items.Valid(heap) && items.Conserves(heap)
    ensures (SessionOf(items.State(heap), c.asked), ret) ==
      AuthSpec.GetUser(WorldOf(heap, c, crypt), SessionOf(old(items.State(heap)), old(c.asked)))
    ensures ret == PAM_SUCCESS ==> user == SessionOf(items.State(heap), c.asked).user
  {
    TextHeld(heap, items, PAM_USER);
    FetchedSession(WorldOf(heap, c, crypt), items.State(heap), c.asked, PAM_USER, LOGIN);
    var p;
    ret, p, user := Fetch(heap, items, c, crypt, PAM_USER, LOGIN);
  }

  /** `pam_get_authtok`: the current or the old token. */
  method GetAuthtok(heap: CHeap, items: ItemTable, c: Conversation, ghost crypt: Crypt, item: int,
                    prompt: Option<string>)
    returns (ret: int, p: Pointer, token: Option<string>)
    requires items.Valid(heap)
    modifies items.slots, heap, c
    ensures items.Valid(heap) && items.Conserves(heap)
    ensures (SessionOf(items.State(heap), c.asked), ret) ==
      AuthSpec.GetAuthtok(WorldOf(heap, c, crypt), SessionOf(old(items.State(heap)), old(c.asked)), item, prompt)
    ensures ret == PAM_SUCCESS ==>
      && (item == PAM_AUTHTOK || item == PAM_OLDAUTHTOK)
      && p == PointerTo(items.slots[item])
      && token == TextItem(items.State(heap).values[item])
  {
    if item != PAM_AUTHTOK && item != PAM_OLDAUTHTOK { return PAM_SYSTEM_ERR, NullPointer, None; }
    var question := PromptFor(prompt, if item == PAM_OLDAUTHTOK then CURRENT else PASSWORD);
    TextHeld(heap, items, item);
    FetchedSession(WorldOf(heap, c, crypt), items.State(heap), c.asked, item, question);
    ret, p, token := Fetch(heap, items, c, crypt, item, question);
  }

  /** Drop the token: storing NULL needs no allocation. */
  method DropToken(heap: CHeap, items: ItemTable, ghost asked: seq<Prompt>)
    requires items.Valid(heap)
    modifies items.slots, heap
    ensures items.Valid(heap) && items.Conserves(heap)
    ensures SessionOf(items.State(heap), asked) == SessionOf(old(items.State(heap)), asked).(token := None)
  {
    var _ := items.SetItem(heap, PAM_AUTHTOK, None);
  }

  /** The check of a token against one stored hash, as `pam_authenticate` and
      `verify_password_hash` both make it. */
  method CheckHash(crypt: Crypt, pass: Option<string>, hash: Option<string>) returns (ret: int)
    ensures ret == Verdict.VerifyHash(crypt, pass, hash)
  {
    if LockedHash(hash) { return PAM_AUTH_ERR; }
    var computed := crypt(OrEmpty(pass), hash.value);
    if computed == None { return PAM_AUTHINFO_UNAVAIL; }
    return if computed.value == hash.value then PAM_SUCCESS else PAM_AUTH_ERR;
  }

  /** `pam_authenticate`. */
  method Authenticate(heap: CHeap, items: ItemTable, c: Conversation, crypt: Crypt, getspnam: string -> Lookup,
                      helper: (string, Option<string>) -> int, nonull: bool) returns (ret: int)
    requires items.Valid(heap)
    modifies items.slots, heap, c
    ensures items.Valid(heap) && items.Conserves(heap)
    ensures (SessionOf(items.State(heap), c.asked), ret) ==
      AuthSpec.Authenticate(WorldOf(heap, c, crypt), SessionOf(old(items.State(heap)), old(c.asked)),
                            getspnam, helper, nonull)
  {
    var user, p, pass;
    ret, user := GetUser(heap, items, c, crypt);
    if ret != PAM_SUCCESS { return; }
    if user == None || user.value == "" {
      DropToken(heap, items, c.asked);
      return PAM_USER_UNKNOWN;
    }
    var sp := getspnam(user.value);
    ret, p, pass := GetAuthtok(heap, items, c, crypt, PAM_AUTHTOK, None);
    if ret != PAM_SUCCESS { return; }
    if OrEmpty(pass) == "" && nonull {
      ret := PAM_AUTH_ERR;
    } else if sp.NotFound? {
      ret := if sp.accessDenied then helper(user.value, pass) else PAM_USER_UNKNOWN;
    } else {
      ret := CheckHash(crypt, pass, sp.hash);
      if ret == PAM_SUCCESS { return; }
    }
    DropToken(heap, items, c.asked);
  }

  /** The retype prompt; a different answer drops the token. */
  method Retype(heap: CHeap, items: ItemTable, c: Conversation, ghost crypt: Crypt, token: Option<string>)
    returns (ret: int)
    requires items.Valid(heap) && token == SessionOf(items.State(heap), c.asked).token
    modifies items.slots, heap, c
    ensures items.Valid(heap) && items.Conserves(heap)
    ensures (SessionOf(items.State(heap), c.asked), ret) ==
      AuthSpec.Retype(WorldOf(heap, c, crypt), SessionOf(old(items.State(heap)), old(c.asked)))
  {
    var again;
    ret, again := Ask(heap, items, c, crypt, RETYPE);
    if ret != PAM_SUCCESS { return; }
    if OrEmpty(token) != OrEmpty(again) {
      DropToken(heap, items, c.asked);
      return PAM_AUTHTOK_ERR;
    }
  }

  /** The confirmation of the token just obtained, and what an empty one leads to. The
      retype is asked for if the item's pointer is the pointer obtained; `same` is the
      outcome of that comparison. */
  method Confirm(heap: CHeap, items: ItemTable, c: Conversation, ghost crypt: Crypt, newpass: Pointer,
                 token: Option<string>) returns (ret: int, ghost same: bool)
    requires items.Valid(heap)
    requires token == SessionOf(items.State(heap), c.asked).token
    modifies items.slots, heap, c
    ensures items.Valid(heap) && items.Conserves(heap)
    ensures same <==> newpass == old(PointerTo(items.slots[PAM_AUTHTOK]))
    ensures (SessionOf(items.State(heap), c.asked), ret) ==
      AuthSpec.Confirm(WorldOf(heap, c, crypt), SessionOf(old(items.State(heap)), old(c.asked)), same)
  {
    var _, item, _ := items.GetItem(heap, PAM_AUTHTOK);
    same, ret := item == newpass, PAM_SUCCESS;
    if item == newpass {
      ret := Retype(heap, items, c, crypt, token);
      if ret != PAM_SUCCESS { return; }
    }
    if OrEmpty(token) == "" { return PAM_AUTHTOK_ERR, same; }
  }

  /** The new token and its confirmation. The retype is never left out: after
      `pam_get_authtok` the pointer obtained is always the item's own. */
  method ConfirmToken(heap: CHeap, items: ItemTable, c: Conversation, ghost crypt: Crypt)
    returns (ret: int, token: Option<string>, ghost same: bool)
    requires items.Valid(heap)
    modifies items.slots, heap, c
    ensures items.Valid(heap) && items.Conserves(heap)
    ensures (SessionOf(items.State(heap), c.asked), ret) ==
      AuthSpec.ConfirmToken(WorldOf(heap, c, crypt), SessionOf(old(items.State(heap)), old(c.asked)))
    ensures ret == PAM_SUCCESS ==> token == SessionOf(items.State(heap), c.asked).token && token.Some?
    ensures same
  {
    assert PromptFor(Some(NEW.text), PASSWORD) == NEW;
    same := true;
    var newpass;
    ret, newpass, token := GetAuthtok(heap, items, c, crypt, PAM_AUTHTOK, Some(NEW.text));
    if ret == PAM_SUCCESS { ret, same := Confirm(heap, items, c, crypt, newpass, token); }
  }

  /** `hash_password`: the static result of crypt is copied. The caller frees the copy. */
  method HashPassword(heap: CHeap, crypt: Crypt, token: string, setting: Option<string>) returns (hash: Option<CStr>)
    requires heap.Valid()
    modifies heap
    ensures heap.Valid()
    ensures heap.live == old(heap.live) + (if hash.Some? then {hash.value.block} else {})
    ensures hash.Some? ==> hash.value.block !in old(heap.live)
    ensures var computed := if setting.None? then None else crypt(token, setting.value);
      && heap.clock == old(heap.clock) + (if computed.Some? then 1 else 0)
      && (if computed.None? || heap.fails(old(heap.clock)) then hash == None
          else hash.Some? && hash.value.text == computed.value)
  {
    if setting == None { return None; }
    var computed := crypt(token, setting.value);
    if computed == None { return None; }
    var block := heap.Alloc();
    if block == None { return None; }
    return Some(CStr(block.value, computed.value));
  }

  /** The identity check at the start of `pam_chauthtok`. */
  method CheckOldToken(heap: CHeap, items: ItemTable, c: Conversation, crypt: Crypt, root: bool, sp: Lookup)
    returns (ret: int)
    requires items.Valid(heap)
    modifies items.slots, heap, c
    ensures items.Valid(heap) && items.Conserves(heap)
    ensures (SessionOf(items.State(heap), c.asked), ret) ==
      AuthSpec.CheckOldToken(WorldOf(heap, c, crypt), SessionOf(old(items.State(heap)), old(c.asked)), root, sp)
  {
    if root { return PAM_SUCCESS; }
    if sp.NotFound? { return PAM_USER_UNKNOWN; }
    var p, oldpass;
    ret, p, oldpass := GetAuthtok(heap, items, c, crypt, PAM_OLDAUTHTOK, Some(CURRENT.text));
    if ret != PAM_SUCCESS { return; }
    ret := CheckHash(crypt, oldpass, sp.hash);
  }

  /** A denied change leaves the table and the temporary files alone and is reported as
      such; an admitted one is in the table exactly when it is reported successful, and
      leaves a temporary file only when unlink failed. */
  twostate predicate Written(files: ShadowFiles, gate: Gate, ret: int, unlinkFailed: bool, days: Days)
    reads files
  {
    && files.locked == old(files.locked)
    && (unlinkFailed ==> gate.Admitted? && ret == PAM_AUTHTOK_ERR)
    && (!unlinkFailed ==> files.temps == old(files.temps))
    && match gate
       case Denied(code) => ret == code && files.rows == old(files.rows)
       case Admitted(user, hash) =>
         files.rows == if ret == PAM_SUCCESS then Update(old(files.rows), Change(user, hash, days)) else old(files.rows)
  }

  /** `pam_chauthtok`: the table changes only through an admitted change, and then the
      return code is that of the update. `getspnam` answers before the lock is taken, so
      it need not agree with the table that is updated. */
  method ChangeToken(heap: CHeap, items: ItemTable, c: Conversation, crypt: Crypt, root: bool,
                     getspnam: string -> Lookup, files: ShadowFiles, setting: Option<string>, days: Days)
    returns (ret: int, ghost gate: Gate, ghost unlinkFailed: bool)
    requires items.Valid(heap) && files.Valid()
    modifies items.slots, heap, c, files
    ensures items.Valid(heap) && items.Conserves(heap) && files.Valid()
    ensures (SessionOf(items.State(heap), c.asked), gate) ==
      AuthSpec.ChangeToken(WorldOf(heap, c, crypt), SessionOf(old(items.State(heap)), old(c.asked)),
                           root, getspnam, setting)
    ensures Written(files, gate, ret, unlinkFailed, days)
  {
    var user;
    ret, user := GetUser(heap, items, c, crypt);
    if ret != PAM_SUCCESS { return ret, Denied(ret), false; }
    if user == None || user.value == "" { return PAM_USER_UNKNOWN, Denied(PAM_USER_UNKNOWN), false; }
    ret, gate, unlinkFailed :=
      ChangeFor(heap, items, c, crypt, user.value, root, getspnam(user.value), files, setting, days);
  }

  /** `pam_chauthtok` from the identity check to the confirmed token. */
  method AdmitToken(heap: CHeap, items: ItemTable, c: Conversation, crypt: Crypt, root: bool, sp: Lookup)
    returns (ret: int, token: Option<string>)
    requires items.Valid(heap)
    modifies items.slots, heap, c
    ensures items.Valid(heap) && items.Conserves(heap)
    ensures (SessionOf(items.State(heap), c.asked), ret) ==
      AuthSpec.AdmitToken(WorldOf(heap, c, crypt), SessionOf(old(items.State(heap)), old(c.asked)), root, sp)
    ensures ret == PAM_SUCCESS ==> token == SessionOf(items.State(heap), c.asked).token && token.Some?
  {
    ret := CheckOldToken(heap, items, c, crypt, root, sp);
    if ret != PAM_SUCCESS { return ret, None; }
    ghost var same;
    ret, token, same := ConfirmToken(heap, items, c, crypt);
  }

  /** The rest of `pam_chauthtok`, with the user known. */
  method ChangeFor(heap: CHeap, items: ItemTable, c: Conversation, crypt: Crypt, user: string, root: bool,
                   sp: Lookup, files: ShadowFiles, setting: Option<string>, days: Days)
    returns (ret: int, ghost gate: Gate, ghost unlinkFailed: bool)
    requires items.Valid(heap) && files.Valid()
    modifies items.slots, heap, c, files
    ensures items.Valid(heap) && items.Conserves(heap) && files.Valid()
    ensures (SessionOf(items.State(heap), c.asked), gate) ==
      AuthSpec.ChangeFor(WorldOf(heap, c, crypt), SessionOf(old(items.State(heap)), old(c.asked)),
                         user, root, sp, setting)
    ensures Written(files, gate, ret, unlinkFailed, days)
  {
    var token;
    ret, token := AdmitToken(heap, items, c, crypt, root, sp);
    if ret != PAM_SUCCESS { return ret, Denied(ret), false; }
    ret, gate, unlinkFailed := WriteToken(heap, items, c, crypt, user, token.value, files, setting, days);
  }

  /** Hand a hash to the update. */
  method WriteHash(files: ShadowFiles, user: string, hash: string, days: Days)
    returns (ret: int, ghost unlinkFailed: bool)
    requires files.Valid()
    modifies files
    ensures files.Valid() && Written(files, Admitted(user, hash), ret, unlinkFailed, days)
  {
    ret, unlinkFailed := files.UpdateShadowPassword(Some(user), Some(hash), days);
  }

  /** `hash_password` for the confirmed token. */
  method HashToken(heap: CHeap, items: ItemTable, ghost c: Conversation, crypt: Crypt, token: string,
                   setting: Option<string>) returns (hash: Option<CStr>)
    requires items.Valid(heap) && SessionOf(items.State(heap), c.asked).token == Some(token)
    modifies heap
    ensures items.Valid(heap)
    ensures (SessionOf(items.State(heap), c.asked), TextOf(hash)) ==
      AuthSpec.HashToken(WorldOf(heap, c, crypt), SessionOf(old(items.State(heap)), c.asked), setting)
    ensures BlockOf(hash) <= heap.live && BlockOf(hash) !! old(heap.live) && BlockOf(hash) !! items.Owned()
    ensures heap.live - items.Owned() == old(heap.live - items.Owned()) + BlockOf(hash)
  {
    hash := HashPassword(heap, crypt, token, setting);
  }

  /** Free a block that no item owns. */
  method FreeOther(heap: CHeap, items: ItemTable, block: Block)
    requires items.Valid(heap) && block in heap.live && block !in items.Owned()
    modifies heap`live
    ensures items.Valid(heap) && items.State(heap) == old(items.State(heap))
    ensures heap.live == old(heap.live) - {block}
  {
    heap.Free(block);
  }

  /** Hash the confirmed token and hand it to the update. */
  method WriteToken(heap: CHeap, items: ItemTable, ghost c: Conversation, crypt: Crypt, user: string, token: string,
                    files: ShadowFiles, setting: Option<string>, days: Days)
    returns (ret: int, ghost gate: Gate, ghost unlinkFailed: bool)
    requires items.Valid(heap) && files.Valid()
    requires SessionOf(items.State(heap), c.asked).token == Some(token)
    modifies heap, files
    ensures items.Valid(heap) && items.Conserves(heap) && files.Valid()
    ensures var s := SessionOf(old(items.State(heap)), c.asked);
      var (s', hash) := AuthSpec.HashToken(WorldOf(heap, c, crypt), s, setting);
      && SessionOf(items.State(heap), c.asked) == s'
      && gate == (if hash.None? then Denied(PAM_AUTHTOK_ERR) else Admitted(user, hash.value))
    ensures Written(files, gate, ret, unlinkFailed, days)
  {
    var hash := HashToken(heap, items, c, crypt, token, setting);
    if hash == None { return PAM_AUTHTOK_ERR, Denied(PAM_AUTHTOK_ERR), false; }
    gate := Admitted(user, hash.value.text);
    ret, unlinkFailed := WriteHash(files, user, hash.value.text, days);
    FreeOther(heap, items, hash.value.block);
  }
}
