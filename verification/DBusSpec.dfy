/** What a client of the message calls can observe: a growing list of message pointers,
    each NULL, live with its contents, or already freed. */
module DBusSpec {
  import opened PamTypes

  const PATH := 0
  const INTERFACE := 1
  const MEMBER := 2
  const ERROR_NAME := 3
  const DESTINATION := 4
  const SENDER := 5
  const SIGNATURE := 6
  const FIELDS := 7

  const METHOD_CALL := 1
  const METHOD_RETURN := 2
  const ERROR := 3
  const SIGNAL := 4

  type Texts = t: seq<Option<string>> | |t| == FIELDS witness NoTexts()

  function NoTexts(): seq<Option<string>> {
    seq(FIELDS, _ => None)
  }

  datatype Msg = Msg(count: int, kind: int, serial: nat, replySerial: nat, texts: Texts, noReply: nat, autoStart: nat)

  /** A message being given its strings, and the number of allocations made so far. */
  datatype Filling = Filling(msg: Msg, clock: nat)

  /** Give field k a copy of a text; NULL is copied as NULL, a failed copy is NULL. */
  function Put(fails: nat -> bool, f: Filling, k: nat, text: Option<string>): Filling
    requires k < FIELDS
  {
    if text == None then f.(msg := f.msg.(texts := f.msg.texts[k := None]))
    else Filling(f.msg.(texts := f.msg.texts[k := if fails(f.clock) then None else text]), f.clock + 1)
  }

  datatype Pointer = Null | Live(msg: Msg) | Freed

  datatype World = World(pointers: seq<Pointer>, clock: nat)

  /** One call. Numbers name earlier results of creating calls; None is a NULL argument. */
  datatype Op =
    | New(kind: int)
    | NewMethodCall(dest: Option<string>, path: Option<string>, iface: Option<string>, member: Option<string>)
    | NewMethodReturn(call: Option<nat>)
    | NewSignal(path: Option<string>, iface: Option<string>, member: Option<string>)
    | NewError(replyTo: Option<nat>, name: Option<string>)
    | Copy(source: nat)
    | Ref(m: nat)
    | Unref(m: nat)
    | SetText(m: nat, field: nat, text: Option<string>)
    | SetSerial(m: nat, value: nat)
    | SetReplySerial(m: nat, value: nat)
    | SetNoReply(m: nat, value: nat)
    | SetAutoStart(m: nat, value: nat)

  predicate Creates(op: Op) {
    op.New? || op.NewMethodCall? || op.NewMethodReturn? || op.NewSignal? || op.NewError? || op.Copy?
  }

  /** The pointer a call is made on or reads from. */
  function Subject(op: Op): Option<nat> {
    match op
    case NewMethodReturn(call) => call
    case NewError(replyTo, _) => replyTo
    case Copy(source) => Some(source)
    case New(_) => None
    case NewMethodCall(_, _, _, _) => None
    case NewSignal(_, _, _) => None
    case Ref(m) => Some(m)
    case Unref(m) => Some(m)
    case SetText(m, _, _) => Some(m)
    case SetSerial(m, _) => Some(m)
    case SetReplySerial(m, _) => Some(m)
    case SetNoReply(m, _) => Some(m)
    case SetAutoStart(m, _) => Some(m)
  }

  function Blank(kind: int, replySerial: nat): Msg {
    Msg(1, kind, 0, replySerial, NoTexts(), 0, 0)
  }

  /** The serial a reply refers to: none for a NULL message. */
  function SerialOf(p: Pointer): nat {
    if p.Live? then p.msg.serial else 0
  }

  function At(pointers: seq<Pointer>, i: Option<nat>): Pointer {
    if i.Some? && i.value < |pointers| then pointers[i.value] else Null
  }

  function MethodCall(fails: nat -> bool, clock: nat, dest: Option<string>, path: Option<string>,
                      iface: Option<string>, member: Option<string>): Filling
  {
    var f := Put(fails, Filling(Blank(METHOD_CALL, 0), clock), DESTINATION, dest);
    var f := Put(fails, f, PATH, path);
    var f := Put(fails, f, INTERFACE, iface);
    Put(fails, f, MEMBER, member)
  }

  function Signal(fails: nat -> bool, clock: nat, path: Option<string>, iface: Option<string>,
                  member: Option<string>): Filling
  {
    var f := Put(fails, Filling(Blank(SIGNAL, 0), clock), PATH, path);
    var f := Put(fails, f, INTERFACE, iface);
    Put(fails, f, MEMBER, member)
  }

  function Error(fails: nat -> bool, clock: nat, replySerial: nat, name: Option<string>): Filling {
    var f := Put(fails, Filling(Blank(ERROR, 0), clock), ERROR_NAME, name);
    f.(msg := f.msg.(replySerial := replySerial))
  }

  /** What a field ends with when its text is copied by this allocation. */
  function Kept(fails: nat -> bool, clock: nat, text: Option<string>): Option<string> {
    if text.Some? && fails(clock) then None else text
  }

  /** How many allocations copying a text takes. */
  function Copies(text: Option<string>): nat {
    if text.Some? then 1 else 0
  }

  /** A method call: where each argument ends up, given the first allocation for a string. */
  predicate IsMethodCall(fails: nat -> bool, clock: nat, m: Msg, dest: Option<string>, path: Option<string>,
                         iface: Option<string>, member: Option<string>)
  {
    && m.count == 1 && m.kind == METHOD_CALL && m.serial == m.replySerial == m.noReply == m.autoStart == 0
    && m.texts[DESTINATION] == Kept(fails, clock, dest)
    && m.texts[PATH] == Kept(fails, clock + Copies(dest), path)
    && m.texts[INTERFACE] == Kept(fails, clock + Copies(dest) + Copies(path), iface)
    && m.texts[MEMBER] == Kept(fails, clock + Copies(dest) + Copies(path) + Copies(iface), member)
    && m.texts[ERROR_NAME] == m.texts[SENDER] == m.texts[SIGNATURE] == None
  }

  predicate IsSignal(fails: nat -> bool, clock: nat, m: Msg, path: Option<string>, iface: Option<string>,
                     member: Option<string>)
  {
    && m.count == 1 && m.kind == SIGNAL && m.serial == m.replySerial == m.noReply == m.autoStart == 0
    && m.texts[PATH] == Kept(fails, clock, path)
    && m.texts[INTERFACE] == Kept(fails, clock + Copies(path), iface)
    && m.texts[MEMBER] == Kept(fails, clock + Copies(path) + Copies(iface), member)
    && m.texts[ERROR_NAME] == m.texts[DESTINATION] == m.texts[SENDER] == m.texts[SIGNATURE] == None
  }

  predicate IsError(fails: nat -> bool, clock: nat, m: Msg, replySerial: nat, name: Option<string>) {
    && m.count == 1 && m.kind == ERROR && m.replySerial == replySerial
    && m.serial == m.noReply == m.autoStart == 0
    && m.texts[ERROR_NAME] == Kept(fails, clock, name)
    && m.texts[PATH] == m.texts[INTERFACE] == m.texts[MEMBER] == m.texts[DESTINATION] == None
    && m.texts[SENDER] == m.texts[SIGNATURE] == None
  }

  /** Each argument of a creating call ends in its own field, or is missing if its own
      allocation failed; nothing else is set. */
  lemma MethodCallFields(fails: nat -> bool, clock: nat, dest: Option<string>, path: Option<string>,
                         iface: Option<string>, member: Option<string>)
    ensures IsMethodCall(fails, clock, MethodCall(fails, clock, dest, path, iface, member).msg,
                         dest, path, iface, member)
  {
  }

  lemma SignalFields(fails: nat -> bool, clock: nat, path: Option<string>, iface: Option<string>,
                     member: Option<string>)
    ensures IsSignal(fails, clock, Signal(fails, clock, path, iface, member).msg, path, iface, member)
  {
  }

  lemma ErrorFields(fails: nat -> bool, clock: nat, replySerial: nat, name: Option<string>)
    ensures IsError(fails, clock, Error(fails, clock, replySerial, name).msg, replySerial, name)
  {
  }

  /** Copy the first k strings of `from` in field order. */
  function CopyTexts(fails: nat -> bool, f: Filling, from: Texts, k: nat): (r: Filling)
    requires k <= FIELDS
    ensures r.msg == f.msg.(texts := r.msg.texts)
    ensures forall i :: 0 <= i < k ==> r.msg.texts[i] == from[i] || r.msg.texts[i] == None
  {
    if k == 0 then f else Put(fails, CopyTexts(fails, f, from, k - 1), k - 1, from[k - 1])
  }

  function Duplicate(fails: nat -> bool, clock: nat, m: Msg): Filling {
    CopyTexts(fails, Filling(m.(count := 1, texts := NoTexts()), clock), m.texts, FIELDS)
  }

  /** The message a creating call builds once its own block is allocated. */
  function Build(fails: nat -> bool, w: World, op: Op): Filling
    requires Creates(op) && (op.Copy? ==> At(w.pointers, Subject(op)).Live?)
  {
    var subject := At(w.pointers, Subject(op));
    match op
    case New(kind) => Filling(Blank(kind, 0), w.clock)
    case NewMethodCall(dest, path, iface, member) => MethodCall(fails, w.clock, dest, path, iface, member)
    case NewMethodReturn(_) => Filling(Blank(METHOD_RETURN, SerialOf(subject)), w.clock)
    case NewSignal(path, iface, member) => Signal(fails, w.clock, path, iface, member)
    case NewError(_, name) =>
      Error(fails, w.clock, SerialOf(subject), name)
    case Copy(_) => Duplicate(fails, w.clock, subject.msg)
  }

  /** A creating call appends its result. */
  function Create(fails: nat -> bool, w: World, op: Op): World
    requires Creates(op)
  {
    if op.Copy? && !At(w.pointers, Subject(op)).Live? then World(w.pointers + [Null], w.clock)
    else if fails(w.clock) then World(w.pointers + [Null], w.clock + 1)
    else
      var f := Build(fails, w.(clock := w.clock + 1), op);
      World(w.pointers + [Live(f.msg)], f.clock)
  }

  /** What a call does to the live message it is made on. */
  function Change(fails: nat -> bool, m: Msg, clock: nat, op: Op): (Pointer, nat)
    requires !Creates(op) && (op.SetText? ==> op.field < FIELDS)
  {
    match op
    case Ref(_) => (Live(m.(count := m.count + 1)), clock)
    case Unref(_) => (if m.count - 1 <= 0 then Freed else Live(m.(count := m.count - 1)), clock)
    case SetText(_, k, text) => var f := Put(fails, Filling(m, clock), k, text); (Live(f.msg), f.clock)
    case SetSerial(_, value) => (Live(m.(serial := value)), clock)
    case SetReplySerial(_, value) => (Live(m.(replySerial := value)), clock)
    case SetNoReply(_, value) => (Live(m.(noReply := value)), clock)
    case SetAutoStart(_, value) => (Live(m.(autoStart := value)), clock)
  }

  predicate WellFormed(op: Op) {
    op.SetText? ==> op.field < SIGNATURE
  }

  /** One call; NULL pointers are accepted and left alone. */
  function Step(fails: nat -> bool, w: World, op: Op): World
    requires WellFormed(op)
  {
    if Creates(op) then Create(fails, w, op)
    else
      var i := Subject(op).value;
      if At(w.pointers, Subject(op)).Live? then
        var (p, clock) := Change(fails, w.pointers[i].msg, w.clock, op);
        World(w.pointers[i := p], clock)
      else w
  }

  predicate AllWellFormed(ops: seq<Op>) {
    forall i :: 0 <= i < |ops| ==> WellFormed(ops[i])
  }

  function Run(fails: nat -> bool, clock: nat, ops: seq<Op>): World
    requires AllWellFormed(ops)
  {
    if ops == [] then World([], clock)
    else Step(fails, Run(fails, clock, ops[..|ops| - 1]), ops[|ops| - 1])
  }

  /** How many pointers the calls have returned. */
  function Created(ops: seq<Op>): nat {
    if ops == [] then 0
    else Created(ops[..|ops| - 1]) + (if Creates(ops[|ops| - 1]) then 1 else 0)
  }

  /** What one call adds to the references of pointer i. */
  function Gain(created: nat, op: Op, i: nat): int {
    if Creates(op) && created == i then 1
    else if op == Ref(i) then 1
    else if op == Unref(i) then -1
    else 0
  }

  /** References to pointer i: one for its creation, plus its refs, minus its unrefs. */
  function References(ops: seq<Op>, i: nat): int {
    if ops == [] then 0
    else
      var before, op := ops[..|ops| - 1], ops[|ops| - 1];
      References(before, i) + Gain(Created(before), op, i)
  }

  /** Calls are made on pointers that earlier calls returned, and not on freed ones. */
  predicate MayCall(w: World, op: Op) {
    WellFormed(op)
    && (Subject(op).Some? ==> Subject(op).value < |w.pointers| && !w.pointers[Subject(op).value].Freed?)
  }

  predicate Disciplined(fails: nat -> bool, clock: nat, ops: seq<Op>) {
    AllWellFormed(ops)
    && forall k :: 0 <= k < |ops| ==> MayCall(Run(fails, clock, ops[..k]), ops[k])
  }

  lemma DisciplinedPrefix(fails: nat -> bool, clock: nat, ops: seq<Op>, k: nat)
    requires Disciplined(fails, clock, ops) && k <= |ops|
    ensures Disciplined(fails, clock, ops[..k])
  {
    forall j | 0 <= j < k ensures MayCall(Run(fails, clock, ops[..k][..j]), ops[..k][j]) {
      assert ops[..k][..j] == ops[..j];
    }
  }

  lemma StepCounted(fails: nat -> bool, w: World, op: Op, i: nat, references: int)
    requires MayCall(w, op) && i < |Step(fails, w, op).pointers|
    requires if i < |w.pointers| then Counted(w.pointers[i], references) else references == 0
    ensures Counted(Step(fails, w, op).pointers[i], references + Gain(|w.pointers|, op, i))
  {
  }

  lemma StepLength(fails: nat -> bool, w: World, op: Op)
    requires WellFormed(op)
    ensures |Step(fails, w, op).pointers| == |w.pointers| + (if Creates(op) then 1 else 0)
  {
  }

  /** The pointers that calls have returned, counted. */
  ghost predicate Tallied(w: World, ops: seq<Op>) {
    && |w.pointers| == Created(ops)
    && (forall i :: 0 <= i < |w.pointers| ==> Counted(w.pointers[i], References(ops, i)))
    && (forall i :: i >= |w.pointers| ==> References(ops, i) == 0)
  }

  lemma {:induction false} StepTallied(fails: nat -> bool, w: World, ops: seq<Op>)
    requires ops != [] && MayCall(w, ops[|ops| - 1]) && Tallied(w, ops[..|ops| - 1])
    ensures Tallied(Step(fails, w, ops[|ops| - 1]), ops)
  {
    var before, op := ops[..|ops| - 1], ops[|ops| - 1];
    var w' := Step(fails, w, op);
    StepLength(fails, w, op);
    forall i | 0 <= i < |w'.pointers| ensures Counted(w'.pointers[i], References(ops, i)) {
      StepCounted(fails, w, op, i, References(before, i));
    }
    forall i | i >= |w'.pointers| ensures References(ops, i) == 0 {
      assert References(before, i) == 0;
    }
  }

  /** A message is live exactly while one plus its refs exceeds its unrefs, and its own
      count is that difference. */
  lemma {:induction false} LiveWhileReferenced(fails: nat -> bool, clock: nat, ops: seq<Op>)
    requires Disciplined(fails, clock, ops)
    ensures |Run(fails, clock, ops).pointers| == Created(ops)
    ensures forall i :: 0 <= i < Created(ops) ==> Counted(Run(fails, clock, ops).pointers[i], References(ops, i))
    ensures forall i :: i >= Created(ops) ==> References(ops, i) == 0
  {
    if ops == [] { return; }
    DisciplinedPrefix(fails, clock, ops, |ops| - 1);
    LiveWhileReferenced(fails, clock, ops[..|ops| - 1]);
    StepTallied(fails, Run(fails, clock, ops[..|ops| - 1]), ops);
  }

  predicate Counted(p: Pointer, references: int) {
    match p
    case Null => true
    case Live(m) => references > 0 && m.count == references
    case Freed => references == 0
  }

  /** Calls on other pointers leave a pointer alone: a copy and its original share nothing. */
  lemma {:induction false} OthersUntouched(fails: nat -> bool, clock: nat, ops: seq<Op>, more: seq<Op>, i: nat)
    requires AllWellFormed(ops + more) && AllWellFormed(ops)
    requires i < |Run(fails, clock, ops).pointers|
    requires forall k :: 0 <= k < |more| ==> Creates(more[k]) || Subject(more[k]) != Some(i)
    ensures |Run(fails, clock, ops + more).pointers| >= |Run(fails, clock, ops).pointers|
    ensures Run(fails, clock, ops + more).pointers[i] == Run(fails, clock, ops).pointers[i]
    decreases |more|
  {
    if more == [] {
      assert ops + more == ops;
    } else {
      var last := |more| - 1;
      assert (ops + more)[..|ops + more| - 1] == ops + more[..last];
      OthersUntouched(fails, clock, ops, more[..last], i);
    }
  }

  /** What a copy is: equal in all but the count, except that strings whose allocation
      failed are missing. */
  lemma CopyAgrees(fails: nat -> bool, w: World, i: nat)
    requires i < |w.pointers| && w.pointers[i].Live?
    ensures var after := Step(fails, w, Copy(i));
      && after.pointers[..|w.pointers|] == w.pointers && |after.pointers| == |w.pointers| + 1
      && (after.pointers[|w.pointers|].Null? <==> fails(w.clock))
      && (!fails(w.clock) ==> CopyOf(after.pointers[|w.pointers|], w.pointers[i].msg))
      && ((forall c :: w.clock <= c < after.clock ==> !fails(c)) ==>
            after.pointers[|w.pointers|] == Live(w.pointers[i].msg.(count := 1)))
  {
    if !fails(w.clock) {
      var m := w.pointers[i].msg;
      var start := Filling(m.(count := 1, texts := NoTexts()), w.clock + 1);
      CopyTextsComplete(fails, start, m.texts, FIELDS);
      var f := CopyTexts(fails, start, m.texts, FIELDS);
      assert (forall c :: start.clock <= c < f.clock ==> !fails(c)) ==> f.msg.texts == m.texts;
    }
  }

  predicate CopyOf(p: Pointer, m: Msg) {
    && p.Live? && p.msg == m.(count := 1, texts := p.msg.texts)
    && forall k :: 0 <= k < FIELDS ==> p.msg.texts[k] == m.texts[k] || p.msg.texts[k] == None
  }

  lemma {:induction false} CopyTextsComplete(fails: nat -> bool, f: Filling, from: Texts, k: nat)
    requires k <= FIELDS
    ensures var r := CopyTexts(fails, f, from, k);
      && r.clock >= f.clock
      && ((forall c :: f.clock <= c < r.clock ==> !fails(c)) ==>
            forall i :: 0 <= i < k ==> r.msg.texts[i] == from[i])
  {
    if k > 0 { CopyTextsComplete(fails, f, from, k - 1); }
  }

  /** A setter reports success always, but the text is there if and only if it was NULL
      or its copy could be made; otherwise the field is left NULL, the old text gone. */
  lemma SetTextKeepsIff(fails: nat -> bool, w: World, i: nat, k: nat, text: Option<string>)
    requires i < |w.pointers| && w.pointers[i].Live? && k < SIGNATURE
    ensures var after := Step(fails, w, SetText(i, k, text)).pointers[i];
      && after.Live?
      && (after.msg.texts[k] == text <==> text.None? || !fails(w.clock))
      && (after.msg.texts[k] != text ==> after.msg.texts[k] == None)
      && forall j :: 0 <= j < FIELDS && j != k ==> after.msg.texts[j] == w.pointers[i].msg.texts[j]
  {
  }

  /** A new message is empty but for its kind, and has one reference; if it cannot be
      allocated there is none, and that took one allocation. */
  lemma NewIsEmpty(fails: nat -> bool, w: World, kind: int)
    ensures var after := Step(fails, w, New(kind));
      && after.clock == w.clock + 1 && |after.pointers| == |w.pointers| + 1
      && after.pointers[..|w.pointers|] == w.pointers
      && var p := after.pointers[|w.pointers|];
         if fails(w.clock) then p == Null
         else
           && p.Live? && p.msg.kind == kind && p.msg.count == 1
           && p.msg.serial == p.msg.replySerial == p.msg.noReply == p.msg.autoStart == 0
           && forall k :: 0 <= k < FIELDS ==> p.msg.texts[k] == None
  {
  }

  /** A reply is a method return that refers to the serial of the message it answers, or
      to none for NULL, and is empty otherwise. */
  lemma ReplyRefers(fails: nat -> bool, w: World, call: Option<nat>)
    requires !fails(w.clock) && (call.Some? ==> call.value < |w.pointers| && w.pointers[call.value].Live?)
    ensures var after := Step(fails, w, NewMethodReturn(call)).pointers;
      && |after| == |w.pointers| + 1 && after[..|w.pointers|] == w.pointers && after[|w.pointers|].Live?
      && var m := after[|w.pointers|].msg;
         && m.kind == METHOD_RETURN && m.count == 1
         && m.replySerial == (if call.Some? then w.pointers[call.value].msg.serial else 0)
         && m.serial == m.noReply == m.autoStart == 0 && forall k :: 0 <= k < FIELDS ==> m.texts[k] == None
  {
  }

  /** Setting a number sets that one and changes nothing else, of this message or any. */
  lemma NumberSet(fails: nat -> bool, w: World, i: nat, value: nat)
    requires i < |w.pointers| && w.pointers[i].Live?
    ensures var m := w.pointers[i].msg;
      && Step(fails, w, SetSerial(i, value)) == w.(pointers := w.pointers[i := Live(m.(serial := value))])
      && Step(fails, w, SetReplySerial(i, value)) == w.(pointers := w.pointers[i := Live(m.(replySerial := value))])
      && Step(fails, w, SetNoReply(i, value)) == w.(pointers := w.pointers[i := Live(m.(noReply := value))])
      && Step(fails, w, SetAutoStart(i, value)) == w.(pointers := w.pointers[i := Live(m.(autoStart := value))])
  {
  }

  /** A concrete lost text. */
  lemma SetTextLoses()
    ensures var w := World([Live(Blank(SIGNAL, 0).(texts := NoTexts()[PATH := Some("/old")]))], 5);
      var after := Step(n => n == 5, w, SetText(0, PATH, Some("/new"))).pointers[0];
      after.Live? && after.msg.texts[PATH] == None
  {
  }

  /** Nothing ever gives a message a signature. */
  lemma {:induction false} SignatureNeverSet(fails: nat -> bool, clock: nat, ops: seq<Op>)
    requires AllWellFormed(ops)
    ensures forall p :: p in Run(fails, clock, ops).pointers && p.Live? ==> p.msg.texts[SIGNATURE] == None
  {
    if ops != [] { SignatureNeverSet(fails, clock, ops[..|ops| - 1]); }
  }
}
