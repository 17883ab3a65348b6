/** What the locking, temporary-file and rename protocol of password changes
    guarantees over every run. */
module ShadowTheorems {
  import opened PamTypes
  import opened ShadowRows
  import opened ShadowProtocol

  lemma {:induction false} RunInv(rows: seq<Row>, s: State, actions: seq<Action>)
    requires Inv(rows, s) && ValidRun(s, actions)
    ensures Inv(rows, Exec(s, actions))
    decreases |actions|
  {
    if actions != [] {
      StepInv(rows, s, actions[0]);
      RunInv(rows, Apply(s, actions[0]), actions[1..]);
    }
  }

  lemma ReachableInv(rows: seq<Row>, s: State)
    requires Reachable(rows, s)
    ensures Inv(rows, s)
  {
    var actions :| ValidRun(Boot(rows), actions) && Exec(Boot(rows), actions) == s;
    BootInv(rows);
    RunInv(rows, Boot(rows), actions);
  }

  /** However callers interleave and wherever they stop, the table is the sequential
      replay of the committed changes; commits are ordered by lock acquisition, at most
      one per caller; and among the callers that returned, exactly those reporting
      success are in the replay. */
  lemma {:induction false} Serializable(rows: seq<Row>, s: State)
    requires Reachable(rows, s)
    ensures Current(s) == Replay(rows, Changes(s.commits))
    ensures forall i :: 0 <= i < |s.commits| ==> CommitRecorded(s, s.commits[i])
    ensures forall i, j :: 0 <= i < j < |s.commits| ==>
      s.commits[i].turn < s.commits[j].turn && s.commits[i].pid != s.commits[j].pid
    ensures forall pid :: pid in s.callers && s.callers[pid].pc.Returned? ==>
      (s.callers[pid].pc.code == PAM_SUCCESS <==> Committed(s, pid))
  {
    ReachableInv(rows, s);
    assert s.commits[..|s.commits|] == s.commits;
    forall i, j | 0 <= i < j < |s.commits| ensures s.commits[i].pid != s.commits[j].pid {
      assert CommitRecorded(s, s.commits[i]) && CommitRecorded(s, s.commits[j]);
      assert s.commits[i].turn < s.commits[j].turn;
    }
    forall pid | pid in s.callers && s.callers[pid].pc.Returned?
      ensures s.callers[pid].pc.code == PAM_SUCCESS <==> Committed(s, pid)
    {
      assert CallerOk(s, pid);
    }
  }

  lemma {:induction false} CurrentIsReplay(rows: seq<Row>, s: State)
    requires Inv(rows, s)
    ensures Current(s) == Replay(rows, Changes(s.commits))
  {
    assert s.commits[..|s.commits|] == s.commits;
  }

  /** Only renames and power failures change the history. */
  lemma CommitsKept(s: State, a: Action)
    requires Enabled(s, a) && !a.PowerLoss? && !(a.Succeed? && s.callers[a.pid].pc.Closed?)
    ensures Apply(s, a).commits == s.commits
  {
  }

  /** One step leaves /etc/shadow as it was or replaces it by the complete new table;
      the only step that replaces it is a rename. After a power failure it is the
      complete table that some number of the renames had produced. */
  lemma {:induction false} AtomicStep(rows: seq<Row>, s: State, a: Action)
    requires Reachable(rows, s) && Enabled(s, a)
    ensures a.Succeed? && s.callers[a.pid].pc.Closed? ==>
      Current(Apply(s, a)) == Update(Current(s), s.callers[a.pid].change)
    ensures a.PowerLoss? ==> Current(Apply(s, a)) == Replay(rows, Changes(s.commits[..a.survives]))
    ensures !a.PowerLoss? && !(a.Succeed? && s.callers[a.pid].pc.Closed?) ==> Current(Apply(s, a)) == Current(s)
  {
    ReachableInv(rows, s);
    StepInv(rows, s, a);
    var s' := Apply(s, a);
    if a.Succeed? && s.callers[a.pid].pc.Closed? {
      assert CallerOk(s, a.pid);
      RenameVersions(rows, s, a.pid);
    } else {
      CurrentIsReplay(rows, s);
      CurrentIsReplay(rows, s');
      if !a.PowerLoss? { CommitsKept(s, a); }
    }
  }

  /** The machine may lose power at any time, and any number of the latest renames with it:
      the table is the complete one before them, every file holds what had been synced, no
      caller lives and nobody holds the lock. */
  lemma {:induction false} PowerLossLeaves(rows: seq<Row>, s: State, survives: nat)
    requires Reachable(rows, s) && survives <= |s.commits|
    ensures Enabled(s, PowerLoss(survives))
    ensures var s' := Apply(s, PowerLoss(survives));
      && Current(s') == Replay(rows, Changes(s.commits[..survives]))
      && |s'.files| == |s.files|
      && (forall i :: 0 <= i < |s.files| ==> s'.files[i].cached == s'.files[i].durable == s.files[i].durable)
      && s'.callers.Keys == s.callers.Keys && (forall pid :: pid in s'.callers ==> s'.callers[pid].pc == Dead)
      && s'.holder == None
  {
    AtomicStep(rows, s, PowerLoss(survives));
  }

  /** A caller that has returned holds no lock and has no temporary file unless unlink
      failed; if it reports failure, its change is not in the table's history. */
  lemma ReturnIsClean(rows: seq<Row>, s: State, pid: nat)
    requires Reachable(rows, s) && pid in s.callers && s.callers[pid].pc.Returned?
    ensures s.holder != Some(pid)
    ensures s.callers[pid].made && s.callers[pid].tmp in s.temps ==> s.callers[pid].unlinkFailed
    ensures s.callers[pid].pc.code != PAM_SUCCESS ==> !Committed(s, pid)
    ensures s.callers[pid].pc.code == PAM_SUCCESS || s.callers[pid].pc.code == PAM_AUTHTOK_ERR
      || s.callers[pid].pc.code == PAM_AUTHTOK_LOCK_BUSY
  {
    ReachableInv(rows, s);
    assert CallerOk(s, pid);
  }

  /** At most one live caller is past the lock, so no caller ever deletes or overwrites
      another live caller's temporary file. */
  lemma MutualExclusion(rows: seq<Row>, s: State, p: nat, q: nat)
    requires Reachable(rows, s) && p in s.callers && q in s.callers
    requires Holds(s.callers[p].pc) && Holds(s.callers[q].pc)
    ensures p == q
  {
    ReachableInv(rows, s);
    assert s.holder == Some(p) && s.holder == Some(q);
  }

  /** Each user's stored hash is the one set by that user's last committed change. */
  lemma {:induction false} LastWriterWins(rows: seq<Row>, s: State, user: string)
    requires Reachable(rows, s)
    ensures LookupIn(Current(s), user) ==
      match LastHash(rows, Changes(s.commits), user) case Some(h) => Found(Some(h)) case None => NotFound(false)
  {
    Serializable(rows, s);
    ReplayLookup(rows, Changes(s.commits), user);
  }

  // --------------------------------------------------------------- termination

  ghost function Phase(pc: Pc): int {
    match pc
    case Trying(attempt) => 13 + MAX_ATTEMPTS - attempt
    case Locked => 12
    case Created => 11
    case Opening => 10
    case Copying(_) => 9
    case Filled => 8
    case Flushed => 7
    case Synced => 6
    case Closed => 5
    case Failing => 4
    case Unlocking(_) => 3
    case _ => 0
  }

  ghost function RowsLeft(c: Caller): int {
    if c.pc.Copying? then |c.snapshot| - c.pc.next else 0
  }

  ghost predicate OwnAction(a: Action, pid: nat) {
    (a.Succeed? || a.Fail? || a.Crash?) && a.pid == pid
  }

  ghost predicate Lower(c': Caller, c: Caller) {
    && 0 <= Phase(c.pc) && 0 <= RowsLeft(c)
    && (Phase(c'.pc) < Phase(c.pc) || (Phase(c'.pc) == Phase(c.pc) && RowsLeft(c') < RowsLeft(c)))
  }

  lemma OwnStepLowers(s: State, a: Action, pid: nat)
    requires Enabled(s, a) && OwnAction(a, pid) && WorkInProgress(s, s.callers[pid])
    ensures pid in Apply(s, a).callers
    ensures Lower(Apply(s, a).callers[pid], s.callers[pid])
  {
  }

  lemma OtherSteps(s: State, a: Action, pid: nat)
    requires Enabled(s, a) && pid in s.callers && !OwnAction(a, pid)
    ensures pid in Apply(s, a).callers
    ensures Apply(s, a).callers[pid] == s.callers[pid] || Apply(s, a).callers[pid].pc.Dead?
  {
  }

  lemma OwnStepStays(s: State, a: Action, pid: nat)
    requires Enabled(s, a) && OwnAction(a, pid)
    ensures pid in s.callers && pid in Apply(s, a).callers
  {
  }

  /** A call cannot run forever: each of its own steps lowers (Phase, RowsLeft), two
      natural numbers taken in that order, and no other step changes them except by
      ending the call. */
  lemma CallsTerminate(rows: seq<Row>, s: State, a: Action, pid: nat)
    requires Reachable(rows, s) && Enabled(s, a) && pid in s.callers
    ensures pid in Apply(s, a).callers
    ensures OwnAction(a, pid) ==> Lower(Apply(s, a).callers[pid], s.callers[pid])
    ensures !OwnAction(a, pid) ==>
      Apply(s, a).callers[pid] == s.callers[pid] || Apply(s, a).callers[pid].pc.Dead?
  {
    ReachableInv(rows, s);
    assert CallerOk(s, pid);
    if OwnAction(a, pid) {
      OwnStepStays(s, a, pid);
      OwnStepLowers(s, a, pid);
    } else {
      OtherSteps(s, a, pid);
    }
  }

  lemma {:induction false} RunCons(s: State, a: Action, rest: seq<Action>)
    requires Enabled(s, a) && ValidRun(Apply(s, a), rest)
    ensures ValidRun(s, [a] + rest) && Exec(s, [a] + rest) == Exec(Apply(s, a), rest)
  {
    assert ([a] + rest)[1..] == rest;
  }

  /** The lock is never stuck: its holder alone can run to its return, releasing the
      lock, whatever the others do or do not do. */
  lemma LockNeverStuck(rows: seq<Row>, s: State, pid: nat)
    requires Reachable(rows, s) && s.holder == Some(pid)
    ensures exists n: nat :: ReleasesAfter(s, pid, n)
  {
    ReachableInv(rows, s);
    var n := HolderReleases(rows, s, pid);
    assert ReleasesAfter(s, pid, n);
  }

  ghost function Repeat(a: Action, n: nat): seq<Action> {
    if n == 0 then [] else [a] + Repeat(a, n - 1)
  }

  ghost predicate ReleasesAfter(s: State, pid: nat, n: nat) {
    && ValidRun(s, Repeat(Succeed(pid), n))
    && var end := Exec(s, Repeat(Succeed(pid), n));
       end.holder == None && pid in end.callers && end.callers[pid].pc.Returned?
  }

  /** The holder's next step succeeds, and is its last or leaves it the holder. */
  lemma HolderStep(rows: seq<Row>, s: State, pid: nat)
    requires Inv(rows, s) && s.holder == Some(pid)
    ensures Enabled(s, Succeed(pid))
    ensures var s' := Apply(s, Succeed(pid));
      && Inv(rows, s') && pid in s'.callers && Lower(s'.callers[pid], s.callers[pid])
      && (if s'.callers[pid].pc.Returned? then s'.holder == None else s'.holder == Some(pid))
  {
    var a := Succeed(pid);
    assert CallerOk(s, pid);
    OwnStepLowers(s, a, pid);
    StepInv(rows, s, a);
    assert LockExclusive(Apply(s, a));
  }

  lemma {:induction false} HolderReleases(rows: seq<Row>, s: State, pid: nat) returns (n: nat)
    requires Inv(rows, s) && s.holder == Some(pid)
    ensures ReleasesAfter(s, pid, n)
    decreases Phase(s.callers[pid].pc), RowsLeft(s.callers[pid])
  {
    HolderStep(rows, s, pid);
    var a := Succeed(pid);
    var s' := Apply(s, a);
    if s'.callers[pid].pc.Returned? {
      RunCons(s, a, []);
      assert Repeat(a, 1) == [a];
      n := 1;
    } else {
      var m := HolderReleases(rows, s', pid);
      RunCons(s, a, Repeat(a, m));
      n := m + 1;
    }
  }
}
