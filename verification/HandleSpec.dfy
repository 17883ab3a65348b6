/** A handle as a value, and what any sequence of calls makes of it. */
module HandleSpec {
  import opened PamTypes
  import opened ItemSpec
  import EnvSpec
  import DataSpec

  /** Items, environment, module data with its callback log, fail delay, and the number of
      allocation requests made so far. */
  datatype HandleState = HandleState(
    items: Values,
    env: EnvSpec.Table,
    list: seq<DataSpec.Registration>,
    log: seq<DataSpec.Cleaned>,
    codes: seq<int>,
    delay: nat,
    clock: nat
  )

  /** One library call on an open handle. */
  datatype Op =
    | OpItem(item: int, value: Option<ItemValue>)
    | OpPut(nameValue: Option<string>)
    | OpSet(name: Option<string>, text: Option<string>)
    | OpPaste(list: Option<seq<string>>)
    | OpData(call: DataSpec.Call)
    | OpDelay(delay: nat)

  predicate LegalOp(op: Op) {
    op.OpItem? && 1 <= op.item <= MAX_ITEM && op.value.Some? ==> Suits(op.item, op.value.value)
  }

  predicate Legal(ops: seq<Op>) {
    forall i :: 0 <= i < |ops| ==> LegalOp(ops[i])
  }

  predicate Wide(h: HandleState) {
    |h.items| == MAX_ITEM + 1
  }

  function Paste(fails: nat -> bool, s: EnvSpec.EnvState, list: Option<seq<string>>): (EnvSpec.EnvState, int) {
    if list.None? then (s, PAM_SUCCESS) else EnvSpec.PasteEnv(fails, s, list.value)
  }

  function EnvOp(fails: nat -> bool, s: EnvSpec.EnvState, op: Op): (EnvSpec.EnvState, int)
    requires op.OpPut? || op.OpSet? || op.OpPaste?
  {
    match op
    case OpPut(nameValue) => EnvSpec.PutEnv(fails, s, nameValue)
    case OpSet(name, text) => EnvSpec.SetEnv(fails, s, name, text)
    case OpPaste(list) => Paste(fails, s, list)
  }

  /** One call: the new state and the return code. */
  function Apply(fails: nat -> bool, h: HandleState, op: Op): (r: (HandleState, int))
    requires Wide(h) && LegalOp(op)
    ensures Wide(r.0)
  {
    match op
    case OpItem(item, value) =>
      var (s, code) := SetItem(fails, ItemState(h.items, h.clock), item, value);
      (h.(items := s.values, clock := s.clock), code)
    case OpData(call) =>
      var s := DataSpec.SetData(fails, DataSpec.DataState(h.list, h.log, h.clock, h.codes), call);
      (h.(list := s.list, log := s.log, clock := s.clock, codes := s.codes), s.codes[|h.codes|])
    case OpDelay(delay) => (h.(delay := if delay > h.delay then delay else h.delay), PAM_SUCCESS)
    case _ =>
      var (s, code) := EnvOp(fails, EnvSpec.EnvState(h.env, h.clock), op);
      (h.(env := s.table, clock := s.clock), code)
  }

  function Run(fails: nat -> bool, h: HandleState, ops: seq<Op>): (r: HandleState)
    requires Wide(h) && Legal(ops)
    ensures Wide(r)
  {
    if ops == [] then h
    else Apply(fails, Run(fails, h, ops[..|ops| - 1]), ops[|ops| - 1]).0
  }

  /** The return codes of the calls. */
  function Returns(fails: nat -> bool, h: HandleState, ops: seq<Op>): (codes: seq<int>)
    requires Wide(h) && Legal(ops)
    ensures |codes| == |ops|
  {
    if ops == [] then []
    else
      var front := ops[..|ops| - 1];
      Returns(fails, h, front) + [Apply(fails, Run(fails, h, front), ops[|ops| - 1]).1]
  }

  /** A handle with nothing in it. */
  function Blank(clock: nat): HandleState {
    HandleState(NoItems(), [], [], [], [], 0, clock)
  }

  /** A handle as `pam_start` leaves it. */
  function Started(service: string, user: Option<string>, conv: bool, clock: nat): (h: HandleState)
    ensures Wide(h)
  {
    Blank(clock).(items := StartValues(service, user, conv))
  }

  function StartValues(service: string, user: Option<string>, conv: bool): (v: Values)
    ensures |v| == MAX_ITEM + 1
  {
    var named := NoItems()[PAM_SERVICE := Some(Text(service))];
    (if user.Some? then named[PAM_USER := Some(Text(user.value))] else named)[PAM_CONV := Some(Conv(conv))]
  }

  /** What a new handle holds, item by item, and nothing else. */
  ghost predicate HoldsJust(h: HandleState, service: string, user: Option<string>, conv: bool) {
    && Wide(h)
    && h.items[PAM_SERVICE] == Some(Text(service))
    && h.items[PAM_USER] == (if user.Some? then Some(Text(user.value)) else None)
    && h.items[PAM_CONV] == Some(Conv(conv))
    && (forall i :: 0 <= i <= MAX_ITEM && i != PAM_SERVICE && i != PAM_USER && i != PAM_CONV ==> h.items[i] == None)
    && h.env == [] && h.list == [] && h.log == [] && h.codes == [] && h.delay == 0
  }

  lemma StartedHolds(service: string, user: Option<string>, conv: bool, clock: nat)
    ensures HoldsJust(Started(service, user, conv, clock), service, user, conv)
  {
  }

  // ---------------------------------------------------------- every reachable handle

  lemma {:induction false} PasteProper(fails: nat -> bool, s: EnvSpec.EnvState, list: seq<string>)
    requires EnvSpec.Proper(s.table)
    ensures EnvSpec.Proper(EnvSpec.PasteEnv(fails, s, list).0.table)
    decreases |list|
  {
    if list != [] {
      EnvSpec.PutEnvProper(fails, s, Some(list[0]));
      var (s', code) := EnvSpec.PutEnv(fails, s, Some(list[0]));
      if code == PAM_SUCCESS { PasteProper(fails, s', list[1..]); }
    }
  }

  lemma EnvOpProper(fails: nat -> bool, s: EnvSpec.EnvState, op: Op)
    requires EnvSpec.Proper(s.table) && (op.OpPut? || op.OpSet? || op.OpPaste?)
    ensures EnvSpec.Proper(EnvOp(fails, s, op).0.table)
  {
    match op
    case OpPut(nameValue) => EnvSpec.PutEnvProper(fails, s, nameValue);
    case OpSet(name, text) => EnvSpec.SetEnvProper(fails, s, name, text);
    case OpPaste(list) => if list.Some? { PasteProper(fails, s, list.value); }
  }

  ghost predicate ProperHandle(h: HandleState) {
    EnvSpec.Proper(h.env) && AllHoldable(h.items)
  }

  lemma StepProper(fails: nat -> bool, h: HandleState, op: Op)
    requires ProperHandle(h) && LegalOp(op)
    ensures ProperHandle(Apply(fails, h, op).0)
  {
    match op
    case OpItem(item, value) => HoldableKept(fails, ItemState(h.items, h.clock), item, value);
    case OpData(_) =>
    case OpDelay(_) =>
    case _ => EnvOpProper(fails, EnvSpec.EnvState(h.env, h.clock), op);
  }

  /** Whatever was called before, environment names are non-empty and different, and every
      item is the copy of something a caller passed. */
  lemma {:induction false} AlwaysProper(fails: nat -> bool, h: HandleState, ops: seq<Op>)
    requires Legal(ops) && ProperHandle(h)
    ensures ProperHandle(Run(fails, h, ops))
    decreases |ops|
  {
    if ops != [] {
      AlwaysProper(fails, h, ops[..|ops| - 1]);
      StepProper(fails, Run(fails, h, ops[..|ops| - 1]), ops[|ops| - 1]);
    }
  }

  // ------------------------------------------------------ what a run leaves behind

  lemma {:induction false} ReturnsFront(fails: nat -> bool, h: HandleState, ops: seq<Op>, k: nat)
    requires Wide(h) && Legal(ops) && k + 1 < |ops|
    ensures Returns(fails, h, ops)[k] == Returns(fails, h, ops[..|ops| - 1])[k]
  {
  }

  /** The delay is the largest that was asked for, and asking for one never fails. */
  lemma {:induction false} DelayIsLargest(fails: nat -> bool, h: HandleState, ops: seq<Op>)
    requires Wide(h) && Legal(ops)
    ensures var end := Run(fails, h, ops);
      && end.delay >= h.delay && (forall i :: 0 <= i < |ops| && ops[i].OpDelay? ==> end.delay >= ops[i].delay)
      && (end.delay == h.delay || exists i :: 0 <= i < |ops| && ops[i] == OpDelay(end.delay))
    ensures forall i :: 0 <= i < |ops| && ops[i].OpDelay? ==> Returns(fails, h, ops)[i] == PAM_SUCCESS
    decreases |ops|
  {
    if ops == [] { return; }
    var front, op := ops[..|ops| - 1], ops[|ops| - 1];
    DelayIsLargest(fails, h, front);
    var before, end := Run(fails, h, front), Run(fails, h, ops);
    if end.delay != h.delay && end.delay == before.delay {
      var i :| 0 <= i < |front| && front[i] == OpDelay(end.delay);
      assert ops[i] == OpDelay(end.delay);
    }
    forall i | 0 <= i < |ops| && ops[i].OpDelay?
      ensures end.delay >= ops[i].delay && Returns(fails, h, ops)[i] == PAM_SUCCESS
    {
      if i < |front| { assert front[i] == ops[i]; ReturnsFront(fails, h, ops, i); }
    }
  }

  /** Some later call stored something else in the item. */
  predicate StoresItem(op: Op, code: int, item: int) {
    op.OpItem? && op.item == item && code == PAM_SUCCESS
  }

  /** An item holds what the last successful call for it stored, whatever else was called
      since. */
  lemma {:induction false} LastItem(fails: nat -> bool, h: HandleState, ops: seq<Op>, i: nat, item: int)
    requires Wide(h) && Legal(ops) && i < |ops| && 1 <= item <= MAX_ITEM
    requires StoresItem(ops[i], Returns(fails, h, ops)[i], item)
    requires forall j :: i < j < |ops| ==> !StoresItem(ops[j], Returns(fails, h, ops)[j], item)
    ensures Run(fails, h, ops).items[item] ==
      if ops[i].value.None? then None else Some(Copied(item, ops[i].value.value))
    decreases |ops|
  {
    var front, op := ops[..|ops| - 1], ops[|ops| - 1];
    var before := Run(fails, h, front);
    if op.OpItem? { SetItemFrame(fails, ItemState(before.items, before.clock), op.item, op.value, item); }
    if i < |front| {
      assert front[i] == ops[i];
      ReturnsFront(fails, h, ops, i);
      forall j | i < j < |front| ensures !StoresItem(front[j], Returns(fails, h, front)[j], item) {
        ReturnsFront(fails, h, ops, j);
        assert front[j] == ops[j];
      }
      LastItem(fails, h, front, i, item);
    }
  }

  /** The call does not touch this environment variable. */
  predicate LeavesName(op: Op, name: string) {
    if op.OpPut? then
      var nv := OrEmpty(op.nameValue);
      if EnvSpec.Named(nv) then EnvSpec.NameOf(nv) != name else nv != name
    else !op.OpSet? && !op.OpPaste?
  }

  lemma StepLeavesName(fails: nat -> bool, h: HandleState, op: Op, name: string)
    requires ProperHandle(h) && LegalOp(op) && EnvSpec.PlainName(name) && LeavesName(op, name)
    ensures EnvSpec.GetEnv(Apply(fails, h, op).0.env, name) == EnvSpec.GetEnv(h.env, name)
  {
    if op.OpPut? { EnvSpec.PutEnvRefines(fails, EnvSpec.EnvState(h.env, h.clock), op.nameValue, name); }
  }

  lemma {:induction false} StepSetsName(fails: nat -> bool, h: HandleState, nv: string)
    requires ProperHandle(h) && EnvSpec.Named(nv) && Apply(fails, h, OpPut(Some(nv))).1 == PAM_SUCCESS
    ensures EnvSpec.GetEnv(Apply(fails, h, OpPut(Some(nv))).0.env, EnvSpec.NameOf(nv)) ==
      Some(nv[EnvSpec.NameLen(nv) + 1..])
  {
    EnvSpec.NameOfSet(nv);
    EnvSpec.PutEnvRefines(fails, EnvSpec.EnvState(h.env, h.clock), Some(nv), EnvSpec.NameOf(nv));
  }

  /** A variable keeps the value of the last successful `pam_putenv` for it, whatever else
      was called since. */
  lemma {:induction false} LastSet(fails: nat -> bool, h: HandleState, ops: seq<Op>, i: nat, nv: string)
    requires ProperHandle(h) && Legal(ops) && i < |ops| && EnvSpec.Named(nv)
    requires ops[i] == OpPut(Some(nv)) && Returns(fails, h, ops)[i] == PAM_SUCCESS
    requires forall j :: i < j < |ops| ==> LeavesName(ops[j], EnvSpec.NameOf(nv))
    ensures EnvSpec.GetEnv(Run(fails, h, ops).env, EnvSpec.NameOf(nv)) == Some(nv[EnvSpec.NameLen(nv) + 1..])
    decreases |ops|
  {
    var front, op := ops[..|ops| - 1], ops[|ops| - 1];
    AlwaysProper(fails, h, front);
    if i < |front| {
      assert front[i] == ops[i] && forall j :: i < j < |front| ==> front[j] == ops[j];
      ReturnsFront(fails, h, ops, i);
      LastSet(fails, h, front, i, nv);
      EnvSpec.NameOfSet(nv);
      StepLeavesName(fails, Run(fails, h, front), op, EnvSpec.NameOf(nv));
    } else {
      StepSetsName(fails, Run(fails, h, front), nv);
    }
  }

  lemma {:induction false} PasteAllocates(fails: nat -> bool, s: EnvSpec.EnvState, list: seq<string>)
    ensures var (s', code) := EnvSpec.PasteEnv(fails, s, list);
      s'.clock >= s.clock && (code == PAM_BUF_ERR ==> s'.clock > s.clock && fails(s'.clock - 1))
    decreases |list|
  {
    if list != [] {
      var (s', code) := EnvSpec.PutEnv(fails, s, Some(list[0]));
      if code == PAM_SUCCESS { PasteAllocates(fails, s', list[1..]); }
    }
  }

  /** A call reports a full memory only if the allocation it made last failed; allocations
      are counted and never taken back. */
  lemma BufferError(fails: nat -> bool, h: HandleState, op: Op)
    requires Wide(h) && LegalOp(op)
    ensures var (h', code) := Apply(fails, h, op);
      && h'.clock >= h.clock
      && (code == PAM_BUF_ERR ==> h'.clock > h.clock && fails(h'.clock - 1))
      && (op.OpItem? && code == PAM_SUCCESS ==>
            h'.clock == h.clock + (if op.value.Some? then Requests(op.value.value) else 0))
      && (op == OpPaste(None) ==> (h', code) == (h, PAM_SUCCESS))
  {
    match op
    case OpItem(item, value) =>
      if value.Some? { AskEnds(fails, h.clock, Requests(value.value)); }
    case OpPaste(list) => if list.Some? { PasteAllocates(fails, EnvSpec.EnvState(h.env, h.clock), list.value); }
    case _ =>
  }

  // ----------------------------------------------------------- module data in a run

  /** The module-data calls of a run, ... */
  function DataCalls(ops: seq<Op>): seq<DataSpec.Call> {
    if ops == [] then []
    else DataCalls(ops[..|ops| - 1]) + (if ops[|ops| - 1].OpData? then [ops[|ops| - 1].call] else [])
  }

  /** ... how many allocations had been requested when each was made, ... */
  function Clocks(fails: nat -> bool, h: HandleState, ops: seq<Op>): (clocks: seq<nat>)
    requires Wide(h) && Legal(ops)
    ensures |clocks| == |DataCalls(ops)|
  {
    if ops == [] then []
    else
      var front := ops[..|ops| - 1];
      Clocks(fails, h, front) + (if ops[|ops| - 1].OpData? then [Run(fails, h, front).clock] else [])
  }

  /** ... and what they returned. */
  function DataReturns(ops: seq<Op>, codes: seq<int>): seq<int>
    requires |codes| == |ops|
  {
    if ops == [] then []
    else
      var n := |ops| - 1;
      DataReturns(ops[..n], codes[..n]) + (if ops[n].OpData? then [codes[n]] else [])
  }

  lemma {:induction false} RunCallsPrefix(fails: nat -> bool, clocks: seq<nat>, more: seq<nat>,
                                          calls: seq<DataSpec.Call>)
    requires |calls| <= |clocks|
    ensures DataSpec.RunCalls(fails, clocks + more, calls) == DataSpec.RunCalls(fails, clocks, calls)
    decreases |calls|
  {
    if calls != [] { RunCallsPrefix(fails, clocks, more, calls[..|calls| - 1]); }
  }

  lemma {:induction false} RunCallsStep(fails: nat -> bool, clocks: seq<nat>, clock: nat,
                                        calls: seq<DataSpec.Call>, call: DataSpec.Call)
    requires |calls| == |clocks|
    ensures DataSpec.RunCalls(fails, clocks + [clock], calls + [call]) ==
      DataSpec.SetData(fails, DataSpec.RunCalls(fails, clocks, calls).(clock := clock), call)
  {
    assert (calls + [call])[..|calls|] == calls;
    RunCallsPrefix(fails, clocks, [clock], calls);
  }

  /** List, log and codes of a handle that started without data. */
  predicate SameData(h: HandleState, s: DataSpec.DataState) {
    h.list == s.list && h.log == s.log && h.codes == s.codes
  }

  lemma {:induction false} DataStep(fails: nat -> bool, h: HandleState, clocks: seq<nat>,
                                    calls: seq<DataSpec.Call>, op: Op)
    requires Wide(h) && LegalOp(op) && |clocks| == |calls| && SameData(h, DataSpec.RunCalls(fails, clocks, calls))
    ensures op.OpData? ==>
      SameData(Apply(fails, h, op).0, DataSpec.RunCalls(fails, clocks + [h.clock], calls + [op.call]))
    ensures !op.OpData? ==> SameData(Apply(fails, h, op).0, DataSpec.RunCalls(fails, clocks, calls))
  {
    if op.OpData? { RunCallsStep(fails, clocks, h.clock, calls, op.call); }
  }

  /** The data calls of a run have the effect they have alone, whatever stands between
      them, ... */
  lemma {:induction false} DataOfRun(fails: nat -> bool, h: HandleState, ops: seq<Op>)
    requires Wide(h) && Legal(ops) && h.list == [] && h.log == [] && h.codes == []
    ensures SameData(Run(fails, h, ops), DataSpec.RunCalls(fails, Clocks(fails, h, ops), DataCalls(ops)))
    decreases |ops|
  {
    if ops == [] { return; }
    var front, op := ops[..|ops| - 1], ops[|ops| - 1];
    DataOfRun(fails, h, front);
    var clocks, calls, before := Clocks(fails, h, front), DataCalls(front), Run(fails, h, front);
    DataStep(fails, before, clocks, calls, op);
    if op.OpData? {
      assert Clocks(fails, h, ops) == clocks + [before.clock] && DataCalls(ops) == calls + [op.call];
    } else {
      assert Clocks(fails, h, ops) == clocks && DataCalls(ops) == calls;
    }
  }

  /** ... and the codes recorded are the codes they returned. */
  lemma {:induction false} CodesOfRun(fails: nat -> bool, h: HandleState, ops: seq<Op>)
    requires Wide(h) && Legal(ops) && h.codes == []
    ensures Run(fails, h, ops).codes == DataReturns(ops, Returns(fails, h, ops))
    decreases |ops|
  {
    if ops == [] { return; }
    var front, op := ops[..|ops| - 1], ops[|ops| - 1];
    CodesOfRun(fails, h, front);
    var before, codes := Run(fails, h, front), Returns(fails, h, ops);
    assert codes[..|front|] == Returns(fails, h, front);
    LastCode(fails, before, op);
  }

  lemma LastCode(fails: nat -> bool, h: HandleState, op: Op)
    requires Wide(h) && LegalOp(op)
    ensures var (h', code) := Apply(fails, h, op); h'.codes == h.codes + (if op.OpData? then [code] else [])
  {
  }

  /** A whole session: each registration that a call reported as accepted and that has a
      callback gets exactly one, with the right reason, and no other callback is made. */
  lemma {:induction false} SessionCleansOnce(fails: nat -> bool, h: HandleState, ops: seq<Op>, status: int)
    requires Wide(h) && Legal(ops) && h.list == [] && h.log == [] && h.codes == []
    ensures var r := Run(fails, h, ops);
      DataSpec.ExactlyOnce(DataCalls(ops), DataReturns(ops, Returns(fails, h, ops)),
                           r.log + DataSpec.FinalCleanups(r.list, status), status)
  {
    DataOfRun(fails, h, ops);
    CodesOfRun(fails, h, ops);
    DataSpec.CleanedExactlyOnce(fails, Clocks(fails, h, ops), DataCalls(ops), status);
  }

  /** What a session yields: the return codes of its calls and the callbacks made by the
      time the handle is gone. */
  function Yield(fails: nat -> bool, h: HandleState, ops: seq<Op>, status: int)
    : (seq<int>, seq<DataSpec.Cleaned>)
    requires Wide(h) && Legal(ops)
  {
    var end := Run(fails, h, ops);
    (Returns(fails, h, ops), end.log + DataSpec.FinalCleanups(end.list, status))
  }
}
