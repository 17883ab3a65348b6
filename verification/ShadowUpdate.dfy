/** `update_shadow_password` as one process runs it, any system call failing, and the link
    to the system of all callers: however a call ends here, a run of that system in which
    one new caller moves alone ends the same way. */
module ShadowUpdate {
  import opened PamTypes
  import opened ShadowRows
  import opened ShadowProtocol
  import opened ShadowSolo

  /** The shadow table, the temporary files beside it and the lock. */
  class ShadowFiles {
    const succeeds: nat -> bool       // whether the k-th system call succeeds
    var calls: nat
    var rows: seq<Row>                // /etc/shadow
    var temps: map<nat, seq<Row>>     // files under temporary names, by inode
    var inodes: nat                   // inodes used so far
    var locked: bool
    ghost var world: State            // the step system these files belong to

    ghost function Seen(): View
      reads this
    {
      View(rows, temps, inodes, locked)
    }

    /** The files are those of the step system. */
    ghost predicate Valid()
      reads this
    {
      Shows(world, Seen())
    }

    constructor (succeeds: nat -> bool, rows: seq<Row>)
      ensures Valid() && this.succeeds == succeeds && this.rows == rows && temps == map[] && !locked
      ensures world == Boot(rows)
    {
      this.succeeds, this.rows := succeeds, rows;
      calls, temps, inodes, locked, world := 0, map[], 1, false, Boot(rows);
    }

    /** The last system call made, after the given one, failed. */
    ghost predicate JustFailed(first: nat)
      reads `calls
    {
      first < calls && !succeeds(calls - 1)
    }

    /** One of the system calls made since the given one failed. */
    ghost predicate FailedSince(first: nat)
      reads `calls
    {
      exists k :: first <= k < calls && !succeeds(k)
    }

    ghost predicate NoneSucceeds(first: nat, end: nat) {
      forall k :: first <= k < end ==> !succeeds(k)
    }

    method Try() returns (ok: bool)
      modifies `calls
      ensures calls == old(calls) + 1 && ok == succeeds(old(calls))
    {
      ok := succeeds(calls);
      calls := calls + 1;
    }

    /** `lckpwdf`: refused while anyone holds the lock. */
    method TryLock() returns (ok: bool)
      modifies `calls, `locked
      ensures calls == old(calls) + 1 && ok == (succeeds(old(calls)) && !old(locked))
      ensures locked == (old(locked) || ok)
    {
      ok := Try();
      ok := ok && !locked;
      if ok { locked := true; }
    }

    /** `lock_shadow`: up to 100 attempts. */
    method LockShadow() returns (ret: int)
      modifies `calls, `locked
      ensures ret == PAM_SUCCESS || ret == PAM_AUTHTOK_LOCK_BUSY
      ensures ret == PAM_SUCCESS <==> !old(locked) && !NoneSucceeds(old(calls), old(calls) + MAX_ATTEMPTS)
      ensures ret == PAM_SUCCESS ==> locked && calls > old(calls)
      ensures ret != PAM_SUCCESS ==> locked == old(locked) && calls == old(calls) + MAX_ATTEMPTS
    {
      for i := 0 to MAX_ATTEMPTS
        invariant calls == old(calls) + i && locked == old(locked)
        invariant locked || NoneSucceeds(old(calls), calls)
      {
        var ok := TryLock();
        if ok {
          assert succeeds(calls - 1);
          return PAM_SUCCESS;
        }
      }
      return PAM_AUTHTOK_LOCK_BUSY;
    }

    /** `mkstemp`: a new, empty file that no other name leads to. */
    method MakeTemp() returns (tmp: Option<nat>)
      modifies `calls, `temps, `inodes
      ensures calls == old(calls) + 1 && tmp.Some? == succeeds(old(calls))
      ensures tmp.None? ==> temps == old(temps) && inodes == old(inodes)
      ensures tmp.Some? ==> tmp.value == old(inodes) && Seen() == AddFile(old(Seen()), [])
    {
      var ok := Try();
      if !ok { return None; }
      temps := temps[inodes := []];
      inodes := inodes + 1;
      return Some(inodes - 1);
    }

    /** Copy the rows one by one, rewriting the user's, and append one if there was none. */
    method CopyRows(change: Change) returns (ok: bool, out: seq<Row>)
      modifies `calls
      ensures ok ==> out == Update(rows, change)
      ensures calls >= old(calls) && (!ok ==> JustFailed(old(calls)))
    {
      out := [];
      var wrote := false;
      for k := 0 to |rows|
        invariant out == Rewrite(rows[..k], change)
        invariant wrote <==> Mentions(rows[..k], change.user)
        invariant calls >= old(calls)
      {
        RewriteExtends(rows, k, change);
        var row := rows[k];
        if row.name == change.user {
          row := row.(hash := change.hash, lastChange := Stamp(change.days(k)));
          wrote := true;
        }
        ok := Try();
        if !ok { return; }
        out := out + [row];
      }
      assert rows[..|rows|] == rows;
      if !wrote {
        ok := Try();
        if !ok { return; }
        out := out + [NewRow(change, change.days(|rows|))];
      }
      ok := true;
    }

    /** Write the new table to the empty temporary file and make it durable. */
    method FillTemp(tmp: nat, change: Change) returns (ok: bool)
      requires tmp in temps && temps[tmp] == []
      modifies `calls, `temps
      ensures temps == old(temps)[tmp := Update(rows, change)] || (!ok && temps == old(temps))
      ensures calls >= old(calls) && (!ok ==> JustFailed(old(calls)))
    {
      ok := Try();                     // fdopen
      if ok { ok := Try(); }           // fopen of the table
      if !ok { return; }
      var out;
      ok, out := CopyRows(change);
      if ok { ok := Try(); }           // fflush
      if !ok { return; }
      temps := temps[tmp := out];
      ok := Try();                     // fsync
      if ok { ok := Try(); }           // fclose
    }

    /** From mkstemp to rename; `tmp` is the temporary file made, if any. A failure leaves
        no file, an empty one or a complete one. */
    method Replace(change: Change) returns (ok: bool, tmp: Option<nat>)
      requires inodes !in temps
      modifies `calls, `temps, `inodes, `rows
      ensures tmp.Some? ==> tmp.value == old(inodes)
      ensures ok ==> tmp.Some? && Seen() == old(Seen()).(rows := Update(old(rows), change), inodes := old(inodes) + 1)
      ensures !ok && tmp.None? ==> Seen() == old(Seen())
      ensures !ok && tmp.Some? ==>
        Seen() == AddFile(old(Seen()), []) || Seen() == AddFile(old(Seen()), Update(old(rows), change))
      ensures calls >= old(calls) && (!ok ==> JustFailed(old(calls)))
    {
      ghost var start := Seen();
      tmp := MakeTemp();
      if tmp == None { return false, tmp; }
      ok := FillTemp(tmp.value, change);
      FileWritten(start, Update(rows, change));
      if ok { ok := Try(); }           // rename
      if ok {
        rows := temps[tmp.value];
        temps := temps - {tmp.value};
      }
    }

    /** With the lock held: replace the table, or remove the temporary file. */
    method UpdateLocked(change: Change) returns (ret: int, unlinkFailed: bool)
      requires inodes !in temps && change.user != ""
      modifies `calls, `temps, `inodes, `rows
      ensures ret == PAM_SUCCESS || (ret == PAM_AUTHTOK_ERR && FailedSince(old(calls)))
      ensures Outcome(old(Seen()).(locked := false), change, ret, Seen().(locked := false))
      ensures !unlinkFailed ==> temps == old(temps)
      ensures unlinkFailed ==> ret == PAM_AUTHTOK_ERR && calls > 0 && !succeeds(calls - 1)
    {
      var ok, tmp := Replace(change);
      if ok { return PAM_SUCCESS, false; }
      ghost var failed := calls - 1;
      var gone := Try();               // unlink
      assert old(calls) <= failed < calls && !succeeds(failed);
      FileWritten(old(Seen()), []);
      FileWritten(old(Seen()), Update(rows, change));
      if gone && tmp.Some? { temps := temps - {tmp.value}; }
      return PAM_AUTHTOK_ERR, tmp.Some? && !gone;
    }

    /** The call with all its arguments there. */
    method Run(change: Change) returns (ret: int, unlinkFailed: bool)
      requires inodes !in temps
      modifies `calls, `temps, `inodes, `rows, `locked
      ensures Outcome(old(Seen()), change, ret, Seen())
      ensures ret == PAM_SUCCESS || ret == PAM_AUTHTOK_ERR || ret == PAM_AUTHTOK_LOCK_BUSY
      ensures ret == PAM_SUCCESS ==> change.user != ""
      ensures rows == if ret == PAM_SUCCESS then Update(old(rows), change) else old(rows)
      ensures locked == old(locked)
      ensures ret == PAM_AUTHTOK_ERR ==> change.user == "" || FailedSince(old(calls))
      ensures !unlinkFailed ==> temps == old(temps)
      ensures unlinkFailed ==> ret == PAM_AUTHTOK_ERR && calls > 0 && !succeeds(calls - 1)
      ensures ret == PAM_AUTHTOK_LOCK_BUSY <==>
        change.user != "" && (old(locked) || NoneSucceeds(old(calls), old(calls) + MAX_ATTEMPTS))
    {
      if change.user == "" { return PAM_AUTHTOK_ERR, false; }
      ret := LockShadow();
      if ret != PAM_SUCCESS { return PAM_AUTHTOK_LOCK_BUSY, false; }
      ghost var begun := calls;
      ret, unlinkFailed := UpdateLocked(change);
      locked := false;                 // ulckpwdf
      assert ret == PAM_AUTHTOK_ERR ==> exists k :: begun <= k < calls && !succeeds(k);
    }

    /** The step system has come to where the files are. */
    ghost method Record(before: View, change: Change, ret: int)
      requires Shows(world, before) && Outcome(before, change, ret, Seen())
      modifies `world
      ensures Valid() && SoloCall(old(world), world, change, ret)
    {
      world := OutcomeRun(world, before, change, ret, Seen());
    }

    /** The call with its arguments there, beside the step system. */
    method Call(change: Change) returns (ret: int, ghost unlinkFailed: bool)
      requires Valid()
      modifies `calls, `temps, `inodes, `rows, `locked, `world
      ensures Valid() && SoloCall(old(world), world, change, ret)
      ensures ret == PAM_SUCCESS || ret == PAM_AUTHTOK_ERR || ret == PAM_AUTHTOK_LOCK_BUSY
      ensures ret == PAM_SUCCESS ==> change.user != ""
      ensures rows == if ret == PAM_SUCCESS then Update(old(rows), change) else old(rows)
      ensures locked == old(locked)
      ensures ret == PAM_AUTHTOK_ERR ==> change.user == "" || FailedSince(old(calls))
      ensures !unlinkFailed ==> temps == old(temps)
      ensures unlinkFailed ==> ret == PAM_AUTHTOK_ERR && calls > 0 && !succeeds(calls - 1)
      ensures ret == PAM_AUTHTOK_LOCK_BUSY <==>
        change.user != "" && (old(locked) || NoneSucceeds(old(calls), old(calls) + MAX_ATTEMPTS))
    {
      ghost var before := Seen();
      ret, unlinkFailed := Run(change);
      Record(before, change, ret);
    }

    /** The table is replaced by the updated one exactly when success is reported; the
        lock ends as it began; only a failed unlink leaves a file behind. And the files end
        as they do in a run of the step system in which a new caller moves alone, from its
        start to its return with this code. */
    method UpdateShadowPassword(user: Option<string>, hash: Option<string>, days: Days)
      returns (ret: int, ghost unlinkFailed: bool)
      requires Valid()
      modifies `calls, `temps, `inodes, `rows, `locked, `world
      ensures Valid()
      ensures user.Some? && hash.Some? ==> SoloCall(old(world), world, Change(user.value, hash.value, days), ret)
      ensures ret == PAM_SUCCESS || ret == PAM_AUTHTOK_ERR || ret == PAM_AUTHTOK_LOCK_BUSY
      ensures ret == PAM_SUCCESS ==> user.Some? && user.value != "" && hash.Some?
      ensures ret == PAM_SUCCESS ==> rows == Update(old(rows), Change(user.value, hash.value, days))
      ensures ret != PAM_SUCCESS ==> rows == old(rows)
      ensures ret == PAM_AUTHTOK_ERR ==> user.None? || user.value == "" || hash.None? || FailedSince(old(calls))
      ensures locked == old(locked)
      ensures !unlinkFailed ==> temps == old(temps)
      ensures unlinkFailed ==> ret == PAM_AUTHTOK_ERR && calls > 0 && !succeeds(calls - 1)
      ensures ret == PAM_AUTHTOK_LOCK_BUSY <==>
        && user.Some? && user.value != "" && hash.Some?
        && (old(locked) || NoneSucceeds(old(calls), old(calls) + MAX_ATTEMPTS))
    {
      if user == None || hash == None { return PAM_AUTHTOK_ERR, false; }
      var change := Change(user.value, hash.value, days);
      ret, unlinkFailed := Call(change);
    }
  }
}
