/** Any number of processes running `update_shadow_password` at once, each stopped
    by its own death or by a power failure between any two of its steps.

    A step is one system call (or one turn of the copy loop) of one caller. A caller
    builds the new table in a stdio buffer; flushing moves it to the cached contents
    of its temporary file, syncing makes those contents durable, and renaming makes
    the file the current /etc/shadow. A power failure loses everything that was not
    durable and may also lose the most recent renames, since the directory itself is
    never synced. */
module ShadowProtocol {
  import opened PamTypes
  import opened ShadowRows

  datatype Pc =
    | Trying(attempt: nat)   // lckpwdf next
    | Locked                 // lock taken; mkstemp next
    | Created                // fdopen next
    | Opening                // fopen of /etc/shadow next
    | Copying(next: nat)     // fgetspent and putspent next
    | Filled                 // fflush next
    | Flushed                // fsync next
    | Synced                 // fclose next
    | Closed                 // rename next
    | Failing                // unlink of the temporary name next
    | Unlocking(result: int) // ulckpwdf next
    | Returned(code: int)
    | Dead

  datatype Caller = Caller(
    pc: Pc,
    change: Change,
    tmp: nat,             // the temporary file, named by its inode
    made: bool,           // mkstemp succeeded
    unlinkFailed: bool,
    snapshot: seq<Row>,   // contents of /etc/shadow when it was opened
    buffer: seq<Row>,     // rows written to the output stream
    wrote: bool
  )

  datatype File = File(cached: seq<Row>, durable: seq<Row>)

  /** A rename, with the position its caller's lock acquisition had among all of them. */
  datatype Commit = Commit(pid: nat, change: Change, turn: nat)

  datatype State = State(
    files: seq<File>,           // by inode
    dir: seq<nat>,              // inodes that have been /etc/shadow, the current one last
    temps: set<nat>,            // inodes linked under a temporary name
    holder: Option<nat>,        // who holds the lock
    callers: map<nat, Caller>,
    commits: seq<Commit>,       // renames, in order
    acquired: seq<nat>          // lock acquisitions, in order
  )

  datatype Action =
    | Start(pid: nat, change: Change)
    | Succeed(pid: nat)
    | Fail(pid: nat, left: nat) // `left`: the name a failed mkstemp leaves in its template
    | Crash(pid: nat)
    | PowerLoss(survives: nat)  // how many renames had reached the disk

  ghost function Current(s: State): seq<Row> {
    if |s.dir| == 0 || s.dir[|s.dir| - 1] >= |s.files| then []
    else s.files[s.dir[|s.dir| - 1]].cached
  }

  predicate Finished(pc: Pc) {
    pc.Returned? || pc.Dead?
  }

  predicate Holds(pc: Pc) {
    !pc.Trying? && !Finished(pc)
  }

  /** Which calls can fail: at the end of the input there is nothing left to write
      when the user was found, and the result of ulckpwdf is ignored. */
  predicate CanFail(c: Caller) {
    match c.pc
    case Copying(next) => next < |c.snapshot| || !c.wrote
    case Unlocking(_) => false
    case _ => !Finished(c.pc)
  }

  ghost predicate Enabled(s: State, a: Action) {
    match a
    case Start(pid, _) => pid !in s.callers
    case Succeed(pid) =>
      pid in s.callers && !Finished(s.callers[pid].pc) && (s.callers[pid].pc.Trying? ==> s.holder == None)
    case Fail(pid, _) => pid in s.callers && CanFail(s.callers[pid])
    case Crash(pid) => pid in s.callers && !Finished(s.callers[pid].pc)
    case PowerLoss(survives) => survives <= |s.commits|
  }

  ghost function WithCaller(s: State, pid: nat, c: Caller): State {
    s.(callers := s.callers[pid := c])
  }

  ghost function WithFile(s: State, inode: nat, f: File): State {
    if inode < |s.files| then s.(files := s.files[inode := f]) else s
  }

  ghost function SucceedStep(s: State, pid: nat): State
    requires pid in s.callers
  {
    var c := s.callers[pid];
    match c.pc
    case Trying(_) =>
      WithCaller(s, pid, c.(pc := Locked)).(holder := Some(pid), acquired := s.acquired + [pid])
    case Locked =>
      WithCaller(s, pid, c.(pc := Created, tmp := |s.files|, made := true))
        .(files := s.files + [File([], [])], temps := s.temps + {|s.files|})
    case Created => WithCaller(s, pid, c.(pc := Opening))
    case Opening => WithCaller(s, pid, c.(pc := Copying(0), snapshot := Current(s)))
    case Copying(next) =>
      if next < |c.snapshot| then
        var row := c.snapshot[next];
        WithCaller(s, pid, c.(
          pc := Copying(next + 1),
          buffer := c.buffer + [RewriteRow(row, next, c.change)],
          wrote := c.wrote || row.name == c.change.user))
      else if c.wrote then WithCaller(s, pid, c.(pc := Filled))
      else WithCaller(s, pid, c.(pc := Filled, buffer := c.buffer + [NewRow(c.change, c.change.days(next))]))
    case Filled =>
      var f := if c.tmp < |s.files| then s.files[c.tmp].durable else [];
      WithFile(WithCaller(s, pid, c.(pc := Flushed)), c.tmp, File(c.buffer, f))
    case Flushed =>
      WithFile(WithCaller(s, pid, c.(pc := Synced)), c.tmp, File(c.buffer, c.buffer))
    case Synced => WithCaller(s, pid, c.(pc := Closed))
    case Closed =>
      WithCaller(s, pid, c.(pc := Unlocking(PAM_SUCCESS)))
        .(dir := s.dir + [c.tmp], temps := s.temps - {c.tmp},
          commits := s.commits + [Commit(pid, c.change, if |s.acquired| == 0 then 0 else |s.acquired| - 1)])
    case Failing =>
      WithCaller(s, pid, c.(pc := Unlocking(PAM_AUTHTOK_ERR))).(temps := s.temps - {c.tmp})
    case Unlocking(result) => WithCaller(s, pid, c.(pc := Returned(result))).(holder := None)
    case _ => s
  }

  ghost function FailStep(s: State, pid: nat, left: nat): State
    requires pid in s.callers
  {
    var c := s.callers[pid];
    match c.pc
    case Trying(attempt) =>
      WithCaller(s, pid, c.(pc := if attempt + 1 < MAX_ATTEMPTS then Trying(attempt + 1)
                                  else Returned(PAM_AUTHTOK_LOCK_BUSY)))
    case Locked => WithCaller(s, pid, c.(pc := Failing, tmp := left))
    case Failing => WithCaller(s, pid, c.(pc := Unlocking(PAM_AUTHTOK_ERR), unlinkFailed := true))
    case _ => WithCaller(s, pid, c.(pc := Failing))
  }

  /** A dead process keeps no lock; the files it left behind stay. */
  ghost function CrashStep(s: State, pid: nat): State
    requires pid in s.callers
  {
    WithCaller(s, pid, s.callers[pid].(pc := Dead)).(holder := if s.holder == Some(pid) then None else s.holder)
  }

  ghost function PowerLossStep(s: State, survives: nat): State
    requires survives <= |s.commits|
  {
    s.(files := seq(|s.files|, i requires 0 <= i < |s.files| => File(s.files[i].durable, s.files[i].durable)),
       dir := if survives + 1 <= |s.dir| then s.dir[..survives + 1] else s.dir,
       holder := None,
       callers := map pid | pid in s.callers :: s.callers[pid].(pc := Dead),
       commits := s.commits[..survives])
  }

  ghost function Apply(s: State, a: Action): State
    requires Enabled(s, a)
  {
    match a
    case Start(pid, change) =>
      var pc := if change.user == "" then Returned(PAM_AUTHTOK_ERR) else Trying(0);
      WithCaller(s, pid, Caller(pc, change, 0, false, false, [], [], false))
    case Succeed(pid) => SucceedStep(s, pid)
    case Fail(pid, left) => FailStep(s, pid, left)
    case Crash(pid) => CrashStep(s, pid)
    case PowerLoss(survives) => PowerLossStep(s, survives)
  }

  ghost function Boot(rows: seq<Row>): State {
    State([File(rows, rows)], [0], {}, None, map[], [], [])
  }

  ghost predicate ValidRun(s: State, actions: seq<Action>)
    decreases |actions|
  {
    actions != [] ==> Enabled(s, actions[0]) && ValidRun(Apply(s, actions[0]), actions[1..])
  }

  ghost function Exec(s: State, actions: seq<Action>): State
    requires ValidRun(s, actions)
    decreases |actions|
  {
    if actions == [] then s else Exec(Apply(s, actions[0]), actions[1..])
  }

  ghost predicate Reachable(rows: seq<Row>, s: State) {
    exists actions :: ValidRun(Boot(rows), actions) && Exec(Boot(rows), actions) == s
  }

  ghost function Changes(commits: seq<Commit>): seq<Change> {
    seq(|commits|, i requires 0 <= i < |commits| => commits[i].change)
  }

  ghost predicate Committed(s: State, pid: nat) {
    exists i :: 0 <= i < |s.commits| && s.commits[i].pid == pid
  }

  // ---------------------------------------------------------------- invariant

  /** Every version /etc/shadow ever had is a complete, durable table. */
  ghost predicate VersionsComplete(rows: seq<Row>, s: State) {
    && |s.dir| == |s.commits| + 1
    && forall i :: 0 <= i < |s.dir| ==>
         && s.dir[i] < |s.files|
         && s.files[s.dir[i]].cached == Replay(rows, Changes(s.commits[..i]))
         && s.files[s.dir[i]].durable == s.files[s.dir[i]].cached
  }

  ghost predicate LockExclusive(s: State) {
    forall pid :: s.holder == Some(pid) <==> pid in s.callers && Holds(s.callers[pid].pc)
  }

  ghost predicate CommitRecorded(s: State, k: Commit) {
    && k.turn < |s.acquired| && s.acquired[k.turn] == k.pid
    && k.pid in s.callers && s.callers[k.pid].change == k.change
  }

  /** Each caller acquires the lock at most once, and commits follow acquisitions. */
  ghost predicate CommitsFollowLock(s: State) {
    && (forall i, j :: 0 <= i < j < |s.acquired| ==> s.acquired[i] != s.acquired[j])
    && (forall i :: 0 <= i < |s.acquired| ==> s.acquired[i] in s.callers && !s.callers[s.acquired[i]].pc.Trying?)
    && (forall pid :: s.holder == Some(pid) ==> |s.acquired| > 0 && s.acquired[|s.acquired| - 1] == pid)
    && (forall i :: 0 <= i < |s.commits| ==> CommitRecorded(s, s.commits[i]))
    && (forall i, j :: 0 <= i < j < |s.commits| ==> s.commits[i].turn < s.commits[j].turn)
  }

  /** Success is recorded exactly for the callers whose rename happened. */
  ghost predicate OutcomeMatches(s: State, pid: nat)
    requires pid in s.callers
  {
    match s.callers[pid].pc
    case Unlocking(r) => (r == PAM_SUCCESS || r == PAM_AUTHTOK_ERR) && (r == PAM_SUCCESS <==> Committed(s, pid))
    case Returned(r) => (r == PAM_SUCCESS || r == PAM_AUTHTOK_ERR || r == PAM_AUTHTOK_LOCK_BUSY)
      && (r == PAM_SUCCESS <==> Committed(s, pid))
    case Dead => true
    case _ => !Committed(s, pid)
  }

  /** A finished caller leaves no temporary file unless unlink itself failed. */
  ghost predicate TempCleaned(s: State, c: Caller) {
    && (c.made ==> c.tmp < |s.files|)
    && (c.made && (c.pc.Unlocking? || c.pc.Returned?) ==> c.tmp !in s.temps || c.unlinkFailed)
  }

  /** How far a caller's private copy has come. */
  ghost predicate WorkInProgress(s: State, c: Caller) {
    match c.pc
    case Trying(attempt) => c.buffer == [] && !c.wrote && !c.made && attempt < MAX_ATTEMPTS
    case Locked => c.buffer == [] && !c.wrote && !c.made
    case Created => c.buffer == [] && !c.wrote && HasTemp(s, c)
    case Opening => c.buffer == [] && !c.wrote && HasTemp(s, c)
    case Copying(next) =>
      && HasTemp(s, c) && c.snapshot == Current(s) && next <= |c.snapshot|
      && c.buffer == Rewrite(c.snapshot[..next], c.change)
      && (c.wrote <==> Mentions(c.snapshot[..next], c.change.user))
    case Filled => HasTemp(s, c) && c.buffer == Update(Current(s), c.change)
    case Flushed => HasTemp(s, c) && c.buffer == Update(Current(s), c.change)
    case Synced => Ready(s, c)
    case Closed => Ready(s, c)
    case _ => true
  }

  ghost predicate HasTemp(s: State, c: Caller) {
    c.made && c.tmp in s.temps
  }

  ghost predicate Ready(s: State, c: Caller) {
    && HasTemp(s, c) && c.tmp < |s.files| && s.files[c.tmp] == File(c.buffer, c.buffer)
    && c.buffer == Update(Current(s), c.change)
  }

  ghost predicate CallerOk(s: State, pid: nat)
    requires pid in s.callers
  {
    OutcomeMatches(s, pid) && TempCleaned(s, s.callers[pid]) && WorkInProgress(s, s.callers[pid])
  }

  ghost predicate TempsPrivate(s: State) {
    forall t :: t in s.temps ==> t < |s.files| && t !in s.dir
  }

  ghost predicate Inv(rows: seq<Row>, s: State) {
    && VersionsComplete(rows, s)
    && LockExclusive(s)
    && CommitsFollowLock(s)
    && TempsPrivate(s)
    && forall pid :: pid in s.callers ==> CallerOk(s, pid)
  }

  // ------------------------------------------------------------- preservation

  /** Everything a step of `pid` that renames nothing leaves alone. */
  ghost predicate LocalStep(s: State, s': State, pid: nat) {
    && pid in s.callers && pid in s'.callers
    && s'.callers == s.callers[pid := s'.callers[pid]]
    && s'.callers[pid].change == s.callers[pid].change
    && s'.dir == s.dir && s'.commits == s.commits
    && |s.files| <= |s'.files|
    && (forall i :: 0 <= i < |s.files| && i !in s.temps ==> s'.files[i] == s.files[i])
    && (forall t :: t in s'.temps ==> t in s.temps || t == |s.files| == |s'.files| - 1)
  }

  lemma LocalVersions(rows: seq<Row>, s: State, s': State, pid: nat)
    requires VersionsComplete(rows, s) && TempsPrivate(s) && LocalStep(s, s', pid)
    ensures VersionsComplete(rows, s') && Current(s') == Current(s) && TempsPrivate(s')
  {
    forall i | 0 <= i < |s.dir| ensures s'.files[s.dir[i]] == s.files[s.dir[i]] {
      assert s.dir[i] in s.dir;
    }
  }

  /** A step of `pid` cannot disturb another caller: either that caller is outside the
      lock, or `pid` touches no file. */
  lemma LocalOthers(s: State, s': State, pid: nat, q: nat)
    requires LocalStep(s, s', pid) && Current(s') == Current(s)
    requires q in s.callers && q != pid && CallerOk(s, q)
    requires Holds(s.callers[q].pc) ==> s'.files == s.files && s'.temps == s.temps
    ensures q in s'.callers && CallerOk(s', q)
  {
    assert Committed(s', q) <==> Committed(s, q);
  }

  lemma LocalCommits(s: State, s': State, pid: nat)
    requires LocalStep(s, s', pid) && CommitsFollowLock(s)
    requires s'.acquired == s.acquired && (s'.holder == s.holder || s'.holder == None)
    requires s'.callers[pid].pc.Trying? ==> s.callers[pid].pc.Trying?
    ensures CommitsFollowLock(s')
  {
    forall i | 0 <= i < |s'.commits| ensures CommitRecorded(s', s'.commits[i]) {
      assert CommitRecorded(s, s.commits[i]);
    }
  }

  /** A step of `pid` that renames nothing keeps the invariant if it keeps the lock
      discipline and the caller's own entry. */
  lemma LocalInv(rows: seq<Row>, s: State, s': State, pid: nat)
    requires Inv(rows, s) && LocalStep(s, s', pid)
    requires s'.acquired == s.acquired
    requires s'.holder == (if Holds(s.callers[pid].pc) && !Holds(s'.callers[pid].pc) then None else s.holder)
    requires Holds(s'.callers[pid].pc) ==> Holds(s.callers[pid].pc)
    requires s'.callers[pid].pc.Trying? ==> s.callers[pid].pc.Trying?
    requires Holds(s.callers[pid].pc) || (s'.files == s.files && s'.temps == s.temps)
    requires Current(s') == Current(s) ==> CallerOk(s', pid)
    ensures Inv(rows, s')
  {
    LocalVersions(rows, s, s', pid);
    LocalCommits(s, s', pid);
    forall q | q in s'.callers ensures CallerOk(s', q) {
      if q != pid { LocalOthers(s, s', pid, q); }
    }
  }

  lemma SameCommitted(s: State, s': State, pid: nat)
    requires s'.commits == s.commits
    ensures Committed(s', pid) <==> Committed(s, pid)
  {
  }

  lemma BootInv(rows: seq<Row>)
    ensures Inv(rows, Boot(rows))
  {
    assert Changes([]) == [];
  }

  lemma StartCommits(s: State, pid: nat, change: Change)
    requires CommitsFollowLock(s) && Enabled(s, Start(pid, change))
    ensures CommitsFollowLock(Apply(s, Start(pid, change))) && !Committed(Apply(s, Start(pid, change)), pid)
  {
    var s' := Apply(s, Start(pid, change));
    forall i | 0 <= i < |s.commits| ensures CommitRecorded(s', s'.commits[i]) && s.commits[i].pid != pid {
      assert CommitRecorded(s, s.commits[i]);
    }
  }

  lemma StartInv(rows: seq<Row>, s: State, pid: nat, change: Change)
    requires Inv(rows, s) && Enabled(s, Start(pid, change))
    ensures Inv(rows, Apply(s, Start(pid, change)))
  {
    var s' := Apply(s, Start(pid, change));
    StartCommits(s, pid, change);
    forall q | q in s'.callers ensures CallerOk(s', q) {
      SameCommitted(s, s', q);
      if q != pid { assert CallerOk(s, q); assert WorkInProgress(s', s'.callers[q]); }
    }
  }

  lemma FailCaller(s: State, pid: nat, left: nat)
    requires Enabled(s, Fail(pid, left)) && CallerOk(s, pid) && Current(Apply(s, Fail(pid, left))) == Current(s)
    ensures CallerOk(Apply(s, Fail(pid, left)), pid)
  {
    SameCommitted(s, Apply(s, Fail(pid, left)), pid);
  }

  /** A failing call touches no file, and gives up the lock only when it returns. */
  lemma FailLocal(s: State, pid: nat, left: nat)
    requires Enabled(s, Fail(pid, left))
    ensures var s' := Apply(s, Fail(pid, left));
      && LocalStep(s, s', pid) && s'.files == s.files && s'.temps == s.temps
      && s'.acquired == s.acquired && s'.holder == s.holder && Current(s') == Current(s)
      && (Holds(s'.callers[pid].pc) <==> Holds(s.callers[pid].pc))
      && (s'.callers[pid].pc.Trying? ==> s.callers[pid].pc.Trying?)
  {
  }

  lemma FailInv(rows: seq<Row>, s: State, pid: nat, left: nat)
    requires Inv(rows, s) && Enabled(s, Fail(pid, left))
    ensures Inv(rows, Apply(s, Fail(pid, left)))
  {
    var s' := Apply(s, Fail(pid, left));
    FailLocal(s, pid, left);
    assert CallerOk(s, pid);
    FailCaller(s, pid, left);
    LocalInv(rows, s, s', pid);
  }

  lemma CrashInv(rows: seq<Row>, s: State, pid: nat)
    requires Inv(rows, s) && Enabled(s, Crash(pid))
    ensures Inv(rows, Apply(s, Crash(pid)))
  {
    var s' := Apply(s, Crash(pid));
    assert CallerOk(s, pid);
    LocalInv(rows, s, s', pid);
  }

  lemma PowerLossVersions(rows: seq<Row>, s: State, survives: nat)
    requires VersionsComplete(rows, s) && survives <= |s.commits|
    ensures VersionsComplete(rows, PowerLossStep(s, survives))
  {
    var s' := PowerLossStep(s, survives);
    forall i | 0 <= i < |s'.dir|
      ensures s'.dir[i] < |s'.files| && s'.files[s'.dir[i]].durable == s'.files[s'.dir[i]].cached
      ensures s'.files[s'.dir[i]].cached == Replay(rows, Changes(s'.commits[..i]))
    {
      assert s'.dir[i] == s.dir[i] && s'.commits[..i] == s.commits[..i];
    }
  }

  lemma PowerLossCommits(s: State, survives: nat)
    requires CommitsFollowLock(s) && survives <= |s.commits|
    ensures CommitsFollowLock(PowerLossStep(s, survives))
  {
    var s' := PowerLossStep(s, survives);
    forall i | 0 <= i < |s'.commits| ensures CommitRecorded(s', s'.commits[i]) {
      assert CommitRecorded(s, s.commits[i]);
    }
  }

  lemma PowerLossInv(rows: seq<Row>, s: State, survives: nat)
    requires Inv(rows, s) && Enabled(s, PowerLoss(survives))
    ensures Inv(rows, Apply(s, PowerLoss(survives)))
  {
    var s' := PowerLossStep(s, survives);
    PowerLossVersions(rows, s, survives);
    PowerLossCommits(s, survives);
    forall q | q in s'.callers ensures CallerOk(s', q) {
      assert CallerOk(s, q);
    }
  }

  lemma AcquireCommits(s: State, pid: nat)
    requires CommitsFollowLock(s) && Enabled(s, Succeed(pid)) && s.callers[pid].pc.Trying?
    ensures CommitsFollowLock(Apply(s, Succeed(pid)))
  {
    var s' := Apply(s, Succeed(pid));
    forall i | 0 <= i < |s'.commits| ensures CommitRecorded(s', s'.commits[i]) {
      assert CommitRecorded(s, s.commits[i]);
    }
    assert forall i :: 0 <= i < |s.acquired| ==> s'.acquired[i] == s.acquired[i];
  }

  lemma AcquireInv(rows: seq<Row>, s: State, pid: nat)
    requires Inv(rows, s) && Enabled(s, Succeed(pid)) && s.callers[pid].pc.Trying?
    ensures Inv(rows, Apply(s, Succeed(pid)))
  {
    var s' := Apply(s, Succeed(pid));
    assert CallerOk(s, pid);
    LocalVersions(rows, s, s', pid);
    forall q | q in s'.callers ensures CallerOk(s', q) {
      SameCommitted(s, s', q);
      if q != pid { LocalOthers(s, s', pid, q); }
    }
    AcquireCommits(s, pid);
  }

  /** What the rename adds to the history. */
  lemma {:induction false} RenameReplay(rows: seq<Row>, s: State, pid: nat)
    requires VersionsComplete(rows, s) && Enabled(s, Succeed(pid)) && s.callers[pid].pc.Closed?
    ensures Replay(rows, Changes(Apply(s, Succeed(pid)).commits)) == Update(Current(s), s.callers[pid].change)
  {
    var s', n := Apply(s, Succeed(pid)), |s.commits|;
    assert s.commits[..n] == s.commits;
    assert Changes(s'.commits)[..n] == Changes(s.commits);
  }

  lemma {:induction false} RenameVersion(rows: seq<Row>, s: State, pid: nat, i: nat)
    requires VersionsComplete(rows, s) && Enabled(s, Succeed(pid)) && s.callers[pid].pc.Closed?
    requires Ready(s, s.callers[pid]) && i <= |s.dir|
    ensures var s' := Apply(s, Succeed(pid));
      && s'.dir[i] < |s'.files|
      && s'.files[s'.dir[i]].cached == Replay(rows, Changes(s'.commits[..i]))
      && s'.files[s'.dir[i]].durable == s'.files[s'.dir[i]].cached
  {
    var s' := Apply(s, Succeed(pid));
    if i < |s.dir| {
      assert s'.dir[i] == s.dir[i] && s'.commits[..i] == s.commits[..i];
    } else {
      RenameReplay(rows, s, pid);
      assert s'.commits[..i] == s'.commits;
    }
  }

  lemma RenameVersions(rows: seq<Row>, s: State, pid: nat)
    requires VersionsComplete(rows, s) && Enabled(s, Succeed(pid)) && s.callers[pid].pc.Closed?
    requires Ready(s, s.callers[pid])
    ensures VersionsComplete(rows, Apply(s, Succeed(pid)))
    ensures Current(Apply(s, Succeed(pid))) == Update(Current(s), s.callers[pid].change)
  {
    var s' := Apply(s, Succeed(pid));
    forall i | 0 <= i < |s'.dir|
      ensures s'.dir[i] < |s'.files|
      ensures s'.files[s'.dir[i]].cached == Replay(rows, Changes(s'.commits[..i]))
      ensures s'.files[s'.dir[i]].durable == s'.files[s'.dir[i]].cached
    {
      RenameVersion(rows, s, pid, i);
    }
    RenameReplay(rows, s, pid);
    assert s'.commits[..|s'.commits|] == s'.commits;
  }

  lemma RenameCommitted(s: State, pid: nat, q: nat)
    requires Enabled(s, Succeed(pid)) && s.callers[pid].pc.Closed?
    ensures Committed(Apply(s, Succeed(pid)), q) <==> Committed(s, q) || q == pid
  {
    var s' := Apply(s, Succeed(pid));
    assert s'.commits[|s.commits|].pid == pid;
    assert forall i :: 0 <= i < |s.commits| ==> s'.commits[i] == s.commits[i];
  }

  lemma RenameCommits(s: State, pid: nat)
    requires CommitsFollowLock(s) && Enabled(s, Succeed(pid)) && s.callers[pid].pc.Closed?
    requires s.holder == Some(pid) && !Committed(s, pid)
    ensures CommitsFollowLock(Apply(s, Succeed(pid)))
  {
    var s' := Apply(s, Succeed(pid));
    var n := |s.commits|;
    forall i | 0 <= i < n
      ensures CommitRecorded(s', s'.commits[i]) && s'.commits[i].turn < |s.acquired| - 1
    {
      assert CommitRecorded(s, s.commits[i]) && s.commits[i].pid != pid;
    }
    assert CommitRecorded(s', s'.commits[n]);
  }

  lemma RenameCallers(s: State, pid: nat, q: nat)
    requires Enabled(s, Succeed(pid)) && s.callers[pid].pc.Closed? && LockExclusive(s)
    requires q in s.callers && CallerOk(s, q)
    ensures CallerOk(Apply(s, Succeed(pid)), q)
  {
    RenameCommitted(s, pid, q);
    assert s.holder == Some(pid);
    if q != pid { assert s.holder != Some(q); }
  }

  lemma RenameInv(rows: seq<Row>, s: State, pid: nat)
    requires Inv(rows, s) && Enabled(s, Succeed(pid)) && s.callers[pid].pc.Closed?
    ensures Inv(rows, Apply(s, Succeed(pid)))
  {
    var s' := Apply(s, Succeed(pid));
    assert CallerOk(s, pid);
    RenameVersions(rows, s, pid);
    RenameCommits(s, pid);
    forall q | q in s'.callers ensures CallerOk(s', q) {
      assert CallerOk(s, q);
      RenameCallers(s, pid, q);
    }
  }

  lemma CopyInv(rows: seq<Row>, s: State, pid: nat)
    requires Inv(rows, s) && Enabled(s, Succeed(pid)) && s.callers[pid].pc.Copying?
    ensures Inv(rows, Apply(s, Succeed(pid)))
  {
    var s' := Apply(s, Succeed(pid));
    var c := s.callers[pid];
    assert CallerOk(s, pid);
    SameCommitted(s, s', pid);
    if c.pc.next < |c.snapshot| {
      RewriteExtends(c.snapshot, c.pc.next, c.change);
    } else {
      assert c.snapshot[..c.pc.next] == c.snapshot;
    }
    LocalInv(rows, s, s', pid);
  }

  lemma FileInv(rows: seq<Row>, s: State, pid: nat)
    requires Inv(rows, s) && Enabled(s, Succeed(pid))
    requires s.callers[pid].pc.Filled? || s.callers[pid].pc.Flushed?
    ensures Inv(rows, Apply(s, Succeed(pid)))
  {
    var s' := Apply(s, Succeed(pid));
    assert CallerOk(s, pid);
    SameCommitted(s, s', pid);
    LocalInv(rows, s, s', pid);
  }

  lemma CreateInv(rows: seq<Row>, s: State, pid: nat)
    requires Inv(rows, s) && Enabled(s, Succeed(pid)) && s.callers[pid].pc.Locked?
    ensures Inv(rows, Apply(s, Succeed(pid)))
  {
    var s' := Apply(s, Succeed(pid));
    assert CallerOk(s, pid);
    SameCommitted(s, s', pid);
    LocalInv(rows, s, s', pid);
  }

  lemma OpenInv(rows: seq<Row>, s: State, pid: nat)
    requires Inv(rows, s) && Enabled(s, Succeed(pid))
    requires s.callers[pid].pc.Created? || s.callers[pid].pc.Synced?
    ensures Inv(rows, Apply(s, Succeed(pid)))
  {
    var s' := Apply(s, Succeed(pid));
    assert CallerOk(s, pid);
    SameCommitted(s, s', pid);
    LocalInv(rows, s, s', pid);
  }

  lemma SnapshotInv(rows: seq<Row>, s: State, pid: nat)
    requires Inv(rows, s) && Enabled(s, Succeed(pid)) && s.callers[pid].pc.Opening?
    ensures Inv(rows, Apply(s, Succeed(pid)))
  {
    var s' := Apply(s, Succeed(pid));
    assert CallerOk(s, pid);
    SameCommitted(s, s', pid);
    assert Rewrite([], s.callers[pid].change) == [];
    LocalInv(rows, s, s', pid);
  }

  lemma CleanUpInv(rows: seq<Row>, s: State, pid: nat)
    requires Inv(rows, s) && Enabled(s, Succeed(pid))
    requires s.callers[pid].pc.Failing? || s.callers[pid].pc.Unlocking?
    ensures Inv(rows, Apply(s, Succeed(pid)))
  {
    var s' := Apply(s, Succeed(pid));
    assert CallerOk(s, pid);
    SameCommitted(s, s', pid);
    assert s.holder == Some(pid);
    assert LocalStep(s, s', pid);
    assert CallerOk(s', pid);
    LocalInv(rows, s, s', pid);
  }

  lemma StepInv(rows: seq<Row>, s: State, a: Action)
    requires Inv(rows, s) && Enabled(s, a)
    ensures Inv(rows, Apply(s, a))
  {
    match a
    case Start(pid, change) => StartInv(rows, s, pid, change);
    case Fail(pid, left) => FailInv(rows, s, pid, left);
    case Crash(pid) => CrashInv(rows, s, pid);
    case PowerLoss(survives) => PowerLossInv(rows, s, survives);
    case Succeed(pid) =>
      match s.callers[pid].pc {
        case Trying(_) => AcquireInv(rows, s, pid);
        case Closed => RenameInv(rows, s, pid);
        case Copying(_) => CopyInv(rows, s, pid);
        case Locked => CreateInv(rows, s, pid);
        case Filled => FileInv(rows, s, pid);
        case Flushed => FileInv(rows, s, pid);
        case Created => OpenInv(rows, s, pid);
        case Opening => SnapshotInv(rows, s, pid);
        case Synced => OpenInv(rows, s, pid);
        case _ => CleanUpInv(rows, s, pid);
      }
  }
}
