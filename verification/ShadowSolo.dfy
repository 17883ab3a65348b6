/** Runs of the step system in which one caller moves and no other. */
module ShadowSolo {
  import opened PamTypes
  import opened ShadowRows
  import opened ShadowProtocol

  /** A step of this caller other than its death. */
  predicate Own(a: Action, pid: nat) {
    (a.Start? || a.Succeed? || a.Fail?) && a.pid == pid
  }

  ghost predicate OwnStep(s: State, s': State, pid: nat) {
    exists a :: Own(a, pid) && Enabled(s, a) && Apply(s, a) == s'
  }

  /** Step k of a path is the caller's own. */
  ghost predicate StepAt(path: seq<State>, k: nat, pid: nat)
    requires k + 1 < |path|
  {
    OwnStep(path[k], path[k + 1], pid)
  }

  /** Each state follows from the one before by a step of the caller. */
  ghost predicate Path(path: seq<State>, pid: nat) {
    path != [] && forall k: nat :: k + 1 < |path| ==> StepAt(path, k, pid)
  }

  /** The caller alone can take the system from one state to the other. */
  ghost predicate Solo(s: State, s': State, pid: nat) {
    exists path :: Path(path, pid) && path[0] == s && path[|path| - 1] == s'
  }

  lemma SoloNone(s: State, pid: nat)
    ensures Solo(s, s, pid)
  {
    assert Path([s], pid);
  }

  lemma SoloStep(s: State, t: State, a: Action, pid: nat)
    requires Solo(s, t, pid) && Enabled(t, a) && Own(a, pid)
    ensures Solo(s, Apply(t, a), pid)
  {
    var path :| Path(path, pid) && path[0] == s && path[|path| - 1] == t;
    var longer := path + [Apply(t, a)];
    forall k: nat | k + 1 < |longer| ensures StepAt(longer, k, pid) {
      if k + 1 < |path| { assert StepAt(path, k, pid); } else { assert OwnStep(t, Apply(t, a), pid); }
    }
    assert Path(longer, pid);
  }

  ghost predicate AllOwn(actions: seq<Action>, pid: nat) {
    forall i :: 0 <= i < |actions| ==> Own(actions[i], pid)
  }

  lemma PathTail(path: seq<State>, pid: nat)
    requires Path(path, pid) && |path| > 1
    ensures OwnStep(path[0], path[1], pid) && Path(path[1..], pid)
  {
    assert StepAt(path, 0, pid);
    forall k: nat | k + 1 < |path[1..]| ensures StepAt(path[1..], k, pid) {
      assert StepAt(path, k + 1, pid);
    }
  }

  /** Such a path is a run in which every step is the caller's own. */
  lemma {:induction false} PathRun(path: seq<State>, pid: nat) returns (actions: seq<Action>)
    requires Path(path, pid)
    ensures ValidRun(path[0], actions) && Exec(path[0], actions) == path[|path| - 1] && AllOwn(actions, pid)
    decreases |path|
  {
    actions := [];
    if |path| > 1 {
      PathTail(path, pid);
      var a :| Own(a, pid) && Enabled(path[0], a) && Apply(path[0], a) == path[1];
      var more := PathRun(path[1..], pid);
      actions := [a] + more;
      assert actions[0] == a && actions[1..] == more;
    }
  }

  lemma {:induction false} RunThen(s: State, actions: seq<Action>, more: seq<Action>)
    requires ValidRun(s, actions) && ValidRun(Exec(s, actions), more)
    ensures ValidRun(s, actions + more) && Exec(s, actions + more) == Exec(Exec(s, actions), more)
    decreases |actions|
  {
    if actions == [] {
      assert actions + more == more;
    } else {
      assert (actions + more)[1..] == actions[1..] + more;
      RunThen(Apply(s, actions[0]), actions[1..], more);
    }
  }

  /** What one caller does alone happens in some run of them all. */
  lemma SoloReachable(rows: seq<Row>, s: State, s': State, pid: nat)
    requires Reachable(rows, s) && Solo(s, s', pid)
    ensures Reachable(rows, s')
  {
    var before :| ValidRun(Boot(rows), before) && Exec(Boot(rows), before) == s;
    var path :| Path(path, pid) && path[0] == s && path[|path| - 1] == s';
    var actions := PathRun(path, pid);
    RunThen(Boot(rows), before, actions);
  }

  /** What processes can see: the table, the files under temporary names by inode, how
      many inodes have been used, and whether the lock is taken. */
  datatype View = View(rows: seq<Row>, temps: map<nat, seq<Row>>, inodes: nat, locked: bool)

  ghost predicate Shows(s: State, v: View) {
    && v.rows == Current(s) && v.inodes == |s.files| && v.locked == s.holder.Some?
    && v.temps.Keys == s.temps && (forall t :: t in v.temps ==> t < |s.files| && v.temps[t] == s.files[t].cached)
    && |s.dir| > 0 && s.dir[|s.dir| - 1] < |s.files| && s.dir[|s.dir| - 1] !in s.temps
  }

  /** From one state to the other a new caller has gone alone, with this change, from its
      start to its return with this code. */
  ghost predicate SoloCall(s: State, s': State, change: Change, code: int) {
    exists pid :: pid !in s.callers && Solo(s, s', pid) && pid in s'.callers
      && s'.callers[pid].pc == Returned(code) && s'.callers[pid].change == change
  }

  /** Where a caller started, where it has come alone, and what can be seen there. */
  datatype Travel = Travel(from: State, to: State, pid: nat, view: View)

  ghost predicate Travelled(t: Travel) {
    Solo(t.from, t.to, t.pid) && t.pid in t.to.callers && Shows(t.to, t.view)
  }

  type Journey = t: Travel | Travelled(t) ghost witness FirstJourney()

  /** The caller's own entry. */
  ghost function Me(t: Travel): Caller
    requires t.pid in t.to.callers
  {
    t.to.callers[t.pid]
  }

  /** The same caller, further on, with this entry, seeing this. */
  ghost predicate Reached(j: Journey, j': Journey, c: Caller, v: View) {
    j'.from == j.from && j'.pid == j.pid && Me(j') == c && j'.view == v
  }

  function NewCaller(change: Change, pc: Pc): Caller {
    Caller(pc, change, 0, false, false, [], [], false)
  }

  ghost function FirstJourney(): (t: Travel)
    ensures Travelled(t)
  {
    var s := Boot([]);
    var change := Change("", "", i => 0);
    var t := Travel(s, Apply(s, Start(0, change)), 0, View([], map[], 1, false));
    SoloNone(s, 0);
    SoloStep(s, s, Start(0, change), 0);
    t
  }

  /** There is always a caller that has not started. */
  lemma {:induction false} UnusedPid(pids: set<nat>) returns (pid: nat)
    ensures pid !in pids && forall p :: p in pids ==> p < pid
    decreases |pids|
  {
    pid := 0;
    if pids != {} {
      var p :| p in pids;
      var q := UnusedPid(pids - {p});
      pid := if p < q then q else p + 1;
      assert forall x :: x in pids ==> x == p || x in pids - {p};
    }
  }

  // ------------------------------------------------------ the caller's possible steps

  /** A step of the caller, after which this can be seen. */
  lemma Go(j: Journey, a: Action, v: View) returns (j': Journey)
    requires (a.Succeed? || a.Fail?) && Own(a, j.pid) && Enabled(j.to, a) && Shows(Apply(j.to, a), v)
    ensures j' == Travel(j.from, Apply(j.to, a), j.pid, v)
  {
    SoloStep(j.from, j.to, a, j.pid);
    j' := Travel(j.from, Apply(j.to, a), j.pid, v);
  }

  /** A new caller starts. */
  lemma GoStart(s: State, v: View, change: Change) returns (j: Journey)
    requires Shows(s, v)
    ensures j.from == s && j.pid !in s.callers && j.view == v
    ensures Me(j) == NewCaller(change, if change.user == "" then Returned(PAM_AUTHTOK_ERR) else Trying(0))
  {
    var pid := UnusedPid(s.callers.Keys);
    SoloNone(s, pid);
    SoloStep(s, s, Start(pid, change), pid);
    j := Travel(s, Apply(s, Start(pid, change)), pid, v);
  }

  lemma GoLock(j: Journey) returns (j': Journey)
    requires Me(j).pc.Trying? && !j.view.locked
    ensures Reached(j, j', Me(j).(pc := Locked), j.view.(locked := true))
  {
    j' := Go(j, Succeed(j.pid), j.view.(locked := true));
  }

  /** Where n failed attempts leave a caller. */
  function AfterAttempts(n: nat): Pc {
    if n < MAX_ATTEMPTS then Trying(n) else Returned(PAM_AUTHTOK_LOCK_BUSY)
  }

  lemma GoBusy(j: Journey, attempt: nat) returns (j': Journey)
    requires Me(j).pc == Trying(attempt)
    ensures Reached(j, j', Me(j).(pc := AfterAttempts(attempt + 1)), j.view)
  {
    j' := Go(j, Fail(j.pid, 0), j.view);
  }

  /** A call fails with the lock held. */
  lemma GoFailing(j: Journey, left: nat) returns (j': Journey)
    requires CanFail(Me(j)) && Holds(Me(j).pc) && !Me(j).pc.Failing?
    ensures Reached(j, j', Me(j).(pc := Failing, tmp := if Me(j).pc.Locked? then left else Me(j).tmp), j.view)
  {
    j' := Go(j, Fail(j.pid, left), j.view);
  }

  lemma GoFile(j: Journey) returns (j': Journey)
    requires Me(j).pc.Locked?
    ensures Reached(j, j', Me(j).(pc := Created, tmp := j.view.inodes, made := true), AddFile(j.view, []))
  {
    j' := Go(j, Succeed(j.pid), AddFile(j.view, []));
  }

  /** One more file, under a temporary name. */
  function AddFile(v: View, rows: seq<Row>): View {
    v.(temps := v.temps[v.inodes := rows], inodes := v.inodes + 1)
  }

  lemma GoStream(j: Journey) returns (j': Journey)
    requires Me(j).pc.Created?
    ensures Reached(j, j', Me(j).(pc := Opening), j.view)
  {
    j' := Go(j, Succeed(j.pid), j.view);
  }

  lemma GoTable(j: Journey) returns (j': Journey)
    requires Me(j).pc.Opening?
    ensures Reached(j, j', Me(j).(pc := Copying(0), snapshot := j.view.rows), j.view)
  {
    j' := Go(j, Succeed(j.pid), j.view);
  }

  lemma GoOpen(j: Journey) returns (j': Journey)
    requires Me(j).pc.Created?
    ensures Reached(j, j', Me(j).(pc := Copying(0), snapshot := j.view.rows), j.view)
  {
    j' := GoStream(j);
    j' := GoTable(j');
  }

  lemma GoRow(j: Journey, k: nat) returns (j': Journey)
    requires Me(j).pc == Copying(k) && k < |Me(j).snapshot|
    ensures var row := Me(j).snapshot[k];
      Reached(j, j', Me(j).(pc := Copying(k + 1), buffer := Me(j).buffer + [RewriteRow(row, k, Me(j).change)],
                            wrote := Me(j).wrote || row.name == Me(j).change.user), j.view)
  {
    j' := Go(j, Succeed(j.pid), j.view);
  }

  /** At the end of the table, a row for a user who had none. */
  function LastRow(c: Caller): seq<Row> {
    if c.wrote then [] else [NewRow(c.change, c.change.days(|c.snapshot|))]
  }

  lemma GoLast(j: Journey) returns (j': Journey)
    requires Me(j).pc == Copying(|Me(j).snapshot|)
    ensures Reached(j, j', Me(j).(pc := Filled, buffer := Me(j).buffer + LastRow(Me(j))), j.view)
  {
    j' := Go(j, Succeed(j.pid), j.view);
    assert Me(j).buffer + [] == Me(j).buffer;
  }

  lemma GoFlush(j: Journey) returns (j': Journey)
    requires Me(j).pc.Filled? && Me(j).tmp in j.view.temps
    ensures Reached(j, j', Me(j).(pc := Flushed), j.view.(temps := j.view.temps[Me(j).tmp := Me(j).buffer]))
  {
    j' := Go(j, Succeed(j.pid), j.view.(temps := j.view.temps[Me(j).tmp := Me(j).buffer]));
  }

  lemma GoSync(j: Journey) returns (j': Journey)
    requires Me(j).pc.Flushed? && Me(j).tmp in j.view.temps && j.view.temps[Me(j).tmp] == Me(j).buffer
    ensures Reached(j, j', Me(j).(pc := Synced), j.view)
  {
    j' := Go(j, Succeed(j.pid), j.view);
  }

  lemma GoClose(j: Journey) returns (j': Journey)
    requires Me(j).pc.Synced?
    ensures Reached(j, j', Me(j).(pc := Closed), j.view)
  {
    j' := Go(j, Succeed(j.pid), j.view);
  }

  lemma GoRename(j: Journey) returns (j': Journey)
    requires Me(j).pc.Closed? && Me(j).tmp in j.view.temps
    ensures Reached(j, j', Me(j).(pc := Unlocking(PAM_SUCCESS)),
                    j.view.(rows := j.view.temps[Me(j).tmp], temps := j.view.temps - {Me(j).tmp}))
  {
    j' := Go(j, Succeed(j.pid), j.view.(rows := j.view.temps[Me(j).tmp], temps := j.view.temps - {Me(j).tmp}));
  }

  lemma GoUnlink(j: Journey) returns (j': Journey)
    requires Me(j).pc.Failing?
    ensures Reached(j, j', Me(j).(pc := Unlocking(PAM_AUTHTOK_ERR)), j.view.(temps := j.view.temps - {Me(j).tmp}))
  {
    j' := Go(j, Succeed(j.pid), j.view.(temps := j.view.temps - {Me(j).tmp}));
  }

  lemma GoWithoutUnlink(j: Journey) returns (j': Journey)
    requires Me(j).pc.Failing?
    ensures Reached(j, j', Me(j).(pc := Unlocking(PAM_AUTHTOK_ERR), unlinkFailed := true), j.view)
  {
    j' := Go(j, Fail(j.pid, 0), j.view);
  }

  lemma GoReturn(j: Journey, ret: int) returns (j': Journey)
    requires Me(j).pc == Unlocking(ret)
    ensures Reached(j, j', Me(j).(pc := Returned(ret)), j.view.(locked := false))
  {
    j' := Go(j, Succeed(j.pid), j.view.(locked := false));
  }

  // ------------------------------------------------------ what a call can come to

  /** How a call can end, as far as anyone can see: nothing but its own temporary file and,
      on success, the table has changed. A file left behind is empty or complete. */
  ghost predicate Outcome(v: View, change: Change, ret: int, v': View) {
    var left := v.(inodes := v.inodes + 1);
    if change.user == "" then ret == PAM_AUTHTOK_ERR && v' == v
    else if ret == PAM_SUCCESS then !v.locked && v' == left.(rows := Update(v.rows, change))
    else if ret == PAM_AUTHTOK_LOCK_BUSY then v' == v
    else
      && ret == PAM_AUTHTOK_ERR && !v.locked
      && (v' == v || v' == left || v' == AddFile(v, []) || v' == AddFile(v, Update(v.rows, change)))
  }

  lemma {:induction false} GiveUpLocking(j: Journey, n: nat) returns (j': Journey)
    requires n <= MAX_ATTEMPTS && Me(j).pc == AfterAttempts(n)
    ensures Reached(j, j', Me(j).(pc := Returned(PAM_AUTHTOK_LOCK_BUSY)), j.view)
    decreases MAX_ATTEMPTS - n
  {
    j' := j;
    if n < MAX_ATTEMPTS {
      j' := GoBusy(j, n);
      j' := GiveUpLocking(j', n + 1);
    }
  }

  /** The caller has copied the first k rows. */
  ghost predicate Copied(c: Caller, rows: seq<Row>, k: nat)
    requires k <= |rows|
  {
    && c.pc == Copying(k) && c.snapshot == rows && c.buffer == Rewrite(rows[..k], c.change)
    && (c.wrote <==> Mentions(rows[..k], c.change.user))
  }

  /** The same place, change and view; only the copy has grown. */
  ghost predicate Grown(j: Journey, j': Journey) {
    && j'.from == j.from && j'.pid == j.pid && j'.view == j.view
    && Me(j').tmp == Me(j).tmp && Me(j').change == Me(j).change
  }

  /** The rest of the copy loop. */
  lemma {:induction false} CopyRest(j: Journey, k: nat) returns (j': Journey)
    requires k <= |j.view.rows| && Copied(Me(j), j.view.rows, k)
    ensures Grown(j, j') && Me(j').pc == Filled && Me(j').buffer == Update(j.view.rows, Me(j).change)
    decreases |j.view.rows| - k
  {
    var rows := j.view.rows;
    if k < |rows| {
      RewriteExtends(rows, k, Me(j).change);
      j' := GoRow(j, k);
      j' := CopyRest(j', k + 1);
    } else {
      assert rows[..k] == rows;
      j' := GoLast(j);
    }
  }

  /** From the lock to an empty temporary file. */
  lemma MakeFile(j: Journey) returns (j': Journey)
    requires Me(j) == NewCaller(Me(j).change, Locked)
    ensures Reached(j, j', NewCaller(Me(j).change, Created).(tmp := j.view.inodes, made := true), AddFile(j.view, []))
  {
    j' := GoFile(j);
  }

  /** From there to the complete table in the stream. */
  lemma FillStream(j: Journey) returns (j': Journey)
    requires Me(j) == NewCaller(Me(j).change, Created).(tmp := Me(j).tmp, made := true)
    ensures Grown(j, j') && Me(j').pc == Filled && Me(j').buffer == Update(j.view.rows, Me(j).change)
  {
    j' := GoOpen(j);
    j' := CopyRest(j', 0);
  }

  /** From there to the file, durably. */
  lemma EmptyStream(j: Journey) returns (j': Journey)
    requires Me(j).pc == Filled && Me(j).tmp in j.view.temps
    ensures Reached(j, j', Me(j).(pc := Closed), j.view.(temps := j.view.temps[Me(j).tmp := Me(j).buffer]))
  {
    j' := GoFlush(j);
    j' := GoSync(j');
    j' := GoClose(j');
  }

  lemma FileWritten(v: View, rows: seq<Row>)
    ensures AddFile(v, []).temps[v.inodes := rows] == AddFile(v, rows).temps
    ensures v.inodes !in v.temps ==> AddFile(v, rows).temps - {v.inodes} == v.temps
  {
  }

  /** From an empty temporary file to a complete, durable one. */
  lemma WriteFile(j: Journey, start: View) returns (j': Journey)
    requires j.view == AddFile(start, [])
    requires Me(j) == NewCaller(Me(j).change, Created).(tmp := start.inodes, made := true)
    ensures j'.from == j.from && j'.pid == j.pid && j'.view == AddFile(start, Update(start.rows, Me(j).change))
    ensures Me(j').pc == Closed && Me(j').tmp == start.inodes && Me(j').change == Me(j).change
  {
    j' := FillStream(j);
    FileWritten(start, Me(j').buffer);
    j' := EmptyStream(j');
  }

  /** From a failure to the return, with or without the temporary file. */
  lemma Fall(j: Journey, unlinked: bool) returns (j': Journey)
    requires Me(j).pc.Failing?
    ensures j'.from == j.from && j'.pid == j.pid
    ensures Me(j').change == Me(j).change && Me(j').pc == Returned(PAM_AUTHTOK_ERR)
    ensures j'.view ==
      (if unlinked then j.view.(temps := j.view.temps - {Me(j).tmp}) else j.view).(locked := false)
  {
    if unlinked { j' := GoUnlink(j); } else { j' := GoWithoutUnlink(j); }
    j' := GoReturn(j', PAM_AUTHTOK_ERR);
  }

  /** The caller has returned with this code, and this can be seen. */
  ghost predicate Back(j: Journey, j': Journey, code: int, v: View) {
    && j'.from == j.from && j'.pid == j.pid && j'.view == v
    && Me(j').change == Me(j).change && Me(j').pc == Returned(code)
  }

  /** From the lock to success. */
  lemma Win(j: Journey) returns (j': Journey)
    requires Me(j) == NewCaller(Me(j).change, Locked) && j.view.inodes !in j.view.temps
    ensures Back(j, j', PAM_SUCCESS,
      j.view.(rows := Update(j.view.rows, Me(j).change), inodes := j.view.inodes + 1, locked := false))
  {
    var v := j.view;
    j' := MakeFile(j);
    j' := WriteFile(j', v);
    FileWritten(v, Update(v.rows, Me(j).change));
    j' := GoRename(j');
    j' := GoReturn(j', PAM_SUCCESS);
  }

  /** From the lock to failure, before there is a file... */
  lemma LoseEarly(j: Journey) returns (j': Journey)
    requires Me(j) == NewCaller(Me(j).change, Locked)
    ensures Back(j, j', PAM_AUTHTOK_ERR, j.view.(locked := false))
  {
    j' := GoFailing(j, 0);
    j' := Fall(j', false);
  }

  /** ... with an empty one, which may or may not be left behind... */
  lemma LoseEmpty(j: Journey, unlinked: bool) returns (j': Journey)
    requires Me(j) == NewCaller(Me(j).change, Locked) && j.view.inodes !in j.view.temps
    ensures Back(j, j', PAM_AUTHTOK_ERR,
      (if unlinked then j.view.(inodes := j.view.inodes + 1) else AddFile(j.view, [])).(locked := false))
  {
    FileWritten(j.view, []);
    j' := MakeFile(j);
    j' := GoFailing(j', 0);
    j' := Fall(j', unlinked);
  }

  /** ... or with a complete one left behind. */
  lemma LoseLate(j: Journey) returns (j': Journey)
    requires Me(j) == NewCaller(Me(j).change, Locked)
    ensures Back(j, j', PAM_AUTHTOK_ERR, AddFile(j.view, Update(j.view.rows, Me(j).change)).(locked := false))
  {
    j' := MakeFile(j);
    j' := WriteFile(j', j.view);
    j' := GoFailing(j', 0);
    j' := Fall(j', false);
  }

  lemma ViewFresh(j: Journey)
    ensures j.view.inodes !in j.view.temps
  {
  }

  /** Once the lock is taken, any such ending can come. */
  lemma LockedRun(j: Journey, v: View, ret: int, v': View) returns (j': Journey)
    requires j.view == v.(locked := true) && Me(j) == NewCaller(Me(j).change, Locked)
    requires ret != PAM_AUTHTOK_LOCK_BUSY && Me(j).change.user != "" && Outcome(v, Me(j).change, ret, v')
    ensures Back(j, j', ret, v')
  {
    ViewFresh(j);
    if ret == PAM_SUCCESS {
      j' := Win(j);
    } else if v' == v {
      j' := LoseEarly(j);
    } else if v' == AddFile(v, Update(v.rows, Me(j).change)) {
      j' := LoseLate(j);
    } else {
      j' := LoseEmpty(j, v' == v.(inodes := v.inodes + 1));
    }
  }

  /** From the start to any such ending. */
  lemma WholeRun(j: Journey, change: Change, ret: int, v': View) returns (j': Journey)
    requires Me(j) == NewCaller(change, if change.user == "" then Returned(PAM_AUTHTOK_ERR) else Trying(0))
    requires Outcome(j.view, change, ret, v')
    ensures Back(j, j', ret, v')
  {
    if change.user == "" {
      j' := j;
    } else if ret == PAM_AUTHTOK_LOCK_BUSY {
      j' := GiveUpLocking(j, 0);
    } else {
      j' := GoLock(j);
      j' := LockedRun(j', j.view, ret, v');
    }
  }

  /** Every such ending is the ending of a run in which a new caller moves alone. */
  lemma OutcomeRun(s: State, v: View, change: Change, ret: int, v': View) returns (s': State)
    requires Shows(s, v) && Outcome(v, change, ret, v')
    ensures SoloCall(s, s', change, ret) && Shows(s', v')
  {
    var j := GoStart(s, v, change);
    var end := WholeRun(j, change, ret, v');
    s' := end.to;
    assert end.pid !in s.callers && Me(end).pc == Returned(ret);
  }

  /** Whatever such calls do, one after the other or among others, is reachable, so all
      that holds of reachable states holds there. */
  lemma SoloCallReachable(rows: seq<Row>, s: State, s': State, change: Change, code: int)
    requires Reachable(rows, s) && SoloCall(s, s', change, code)
    ensures Reachable(rows, s')
  {
    var pid :| Solo(s, s', pid) && pid !in s.callers;
    SoloReachable(rows, s, s', pid);
  }
}
