/** Module data: named registrations with cleanup callbacks. A callback is recorded in a
    log. Registrations are numbered by the call that made them. */
module DataSpec {
  import opened PamTypes

  datatype Reason = Replaced | Final(status: int)
  datatype Registration = Registration(name: string, data: int, cleanup: Option<int>, id: nat)
  datatype Cleaned = Cleaned(callback: int, data: int, reason: Reason, id: nat)

  /** One `pam_set_data` call. */
  datatype Call = Call(name: Option<string>, data: int, cleanup: Option<int>)

  datatype DataState = DataState(
    list: seq<Registration>, // head first
    log: seq<Cleaned>,
    clock: nat,              // allocation requests made so far
    codes: seq<int>          // results of the calls so far
  )

  function IndexOf(list: seq<Registration>, name: string): (k: nat)
    ensures k <= |list|
    ensures k < |list| ==> list[k].name == name
    ensures forall i :: 0 <= i < k ==> list[i].name != name
  {
    if list == [] then 0
    else if list[0].name == name then 0
    else 1 + IndexOf(list[1..], name)
  }

  function CleanUp(r: Registration, reason: Reason): seq<Cleaned> {
    if r.cleanup.None? then [] else [Cleaned(r.cleanup.value, r.data, reason, r.id)]
  }

  /** `pam_set_data`. */
  function SetData(fails: nat -> bool, s: DataState, c: Call): DataState {
    if c.name.None? then s.(codes := s.codes + [PAM_SYSTEM_ERR])
    else
      var r := Registration(c.name.value, c.data, c.cleanup, |s.codes|);
      var k := IndexOf(s.list, r.name);
      if k < |s.list| then
        s.(list := s.list[k := r], log := s.log + CleanUp(s.list[k], Replaced), codes := s.codes + [PAM_SUCCESS])
      else if fails(s.clock) then s.(clock := s.clock + 1, codes := s.codes + [PAM_BUF_ERR])
      else if fails(s.clock + 1) then s.(clock := s.clock + 2, codes := s.codes + [PAM_BUF_ERR])
      else s.(list := [r] + s.list, clock := s.clock + 2, codes := s.codes + [PAM_SUCCESS])
  }

  /** A name that is not listed takes two allocations and goes to the head. */
  lemma SetDataNew(fails: nat -> bool, s: DataState, c: Call)
    requires c.name.Some? && IndexOf(s.list, c.name.value) == |s.list|
    ensures var r := Registration(c.name.value, c.data, c.cleanup, |s.codes|);
      SetData(fails, s, c) ==
        if fails(s.clock) then s.(clock := s.clock + 1, codes := s.codes + [PAM_BUF_ERR])
        else if fails(s.clock + 1) then s.(clock := s.clock + 2, codes := s.codes + [PAM_BUF_ERR])
        else s.(list := [r] + s.list, clock := s.clock + 2, codes := s.codes + [PAM_SUCCESS])
  {
  }

  function GetData(list: seq<Registration>, name: Option<string>): (int, Option<int>) {
    if name.None? then (PAM_SYSTEM_ERR, None)
    else
      var k := IndexOf(list, name.value);
      if k < |list| then (PAM_SUCCESS, Some(list[k].data)) else (PAM_NO_MODULE_DATA, None)
  }

  /** Without a name both calls answer with a system error, and nothing is stored. */
  lemma NoName(fails: nat -> bool, s: DataState, c: Call)
    requires c.name == None
    ensures SetData(fails, s, c) == s.(codes := s.codes + [PAM_SYSTEM_ERR])
    ensures GetData(s.list, None) == (PAM_SYSTEM_ERR, None)
  {
  }

  /** The callbacks `pam_end` makes, in list order. */
  function FinalCleanups(list: seq<Registration>, status: int): seq<Cleaned> {
    if list == [] then [] else CleanUp(list[0], Final(status)) + FinalCleanups(list[1..], status)
  }

  /** A run of calls. Other operations allocate in between: `clocks[i]` is the number of
      requests made before call i. */
  function RunCalls(fails: nat -> bool, clocks: seq<nat>, calls: seq<Call>): (s: DataState)
    requires |calls| <= |clocks|
    ensures |s.codes| == |calls|
    decreases |calls|
  {
    if calls == [] then DataState([], [], 0, [])
    else
      var n := |calls| - 1;
      SetData(fails, RunCalls(fails, clocks, calls[..n]).(clock := clocks[n]), calls[n])
  }

  // ------------------------------------------------------------------- what happened

  ghost predicate Accepted(calls: seq<Call>, codes: seq<int>, i: int) {
    0 <= i < |calls| && i < |codes| && calls[i].name.Some? && codes[i] == PAM_SUCCESS
  }

  /** A later accepted call took over call i's name. */
  ghost predicate Superseded(calls: seq<Call>, codes: seq<int>, i: int) {
    Accepted(calls, codes, i)
    && exists j :: i < j && Accepted(calls, codes, j) && calls[j].name == calls[i].name
  }

  ghost function RegistrationOf(calls: seq<Call>, i: nat): Registration
    requires i < |calls| && calls[i].name.Some?
  {
    Registration(calls[i].name.value, calls[i].data, calls[i].cleanup, i)
  }

  /** The names in order of first acceptance. */
  ghost function FirstNames(calls: seq<Call>, codes: seq<int>): seq<string>
    decreases |calls|
  {
    if calls == [] then []
    else
      var last := |calls| - 1;
      var before := FirstNames(calls[..last], codes);
      if Accepted(calls, codes, last) && calls[last].name.value !in before
      then before + [calls[last].name.value] else before
  }

  ghost function ListNames(list: seq<Registration>): seq<string> {
    seq(|list|, i requires 0 <= i < |list| => list[i].name)
  }

  ghost function Reverse(s: seq<string>): (r: seq<string>)
    ensures |r| == |s|
  {
    seq(|s|, i requires 0 <= i < |s| => s[|s| - 1 - i])
  }

  /** The list holds exactly the accepted registrations that nothing has superseded. */
  ghost predicate ListCurrent(calls: seq<Call>, s: DataState) {
    && (forall i, j :: 0 <= i < j < |s.list| ==> s.list[i].name != s.list[j].name)
    && (forall k :: 0 <= k < |s.list| ==>
         && Accepted(calls, s.codes, s.list[k].id) && !Superseded(calls, s.codes, s.list[k].id)
         && s.list[k] == RegistrationOf(calls, s.list[k].id))
    && (forall i: nat :: Accepted(calls, s.codes, i) && !Superseded(calls, s.codes, i) ==>
         RegistrationOf(calls, i) in s.list)
  }

  /** The log holds exactly the superseded registrations that have a callback, each once. */
  ghost predicate LogExact(calls: seq<Call>, s: DataState) {
    && (forall k, l :: 0 <= k < l < |s.log| ==> s.log[k].id != s.log[l].id)
    && (forall k :: 0 <= k < |s.log| ==>
         && Superseded(calls, s.codes, s.log[k].id)
         && [s.log[k]] == CleanUp(RegistrationOf(calls, s.log[k].id), Replaced))
    && (forall i: nat :: Superseded(calls, s.codes, i) && calls[i].cleanup.Some? ==>
         CleanUp(RegistrationOf(calls, i), Replaced)[0] in s.log)
  }

  // ------------------------------------------------------------------------- proofs

  /** Among the accepted calls for a name, the last is not superseded. */
  lemma {:induction false} SomeCurrent(calls: seq<Call>, codes: seq<int>, i: nat) returns (j: nat)
    requires Accepted(calls, codes, i)
    ensures i <= j && Accepted(calls, codes, j) && calls[j].name == calls[i].name && !Superseded(calls, codes, j)
    decreases |calls| - i
  {
    if Superseded(calls, codes, i) {
      var k :| i < k && Accepted(calls, codes, k) && calls[k].name == calls[i].name;
      j := SomeCurrent(calls, codes, k);
    } else {
      j := i;
    }
  }

  /** What one more call changes about acceptance and supersession. */
  lemma OneMore(calls: seq<Call>, codes: seq<int>, c: Call, code: int, i: nat)
    requires |codes| == |calls| && i < |calls|
    ensures Accepted(calls + [c], codes + [code], i) <==> Accepted(calls, codes, i)
    ensures Superseded(calls + [c], codes + [code], i) <==>
      || Superseded(calls, codes, i)
      || (Accepted(calls, codes, i) && code == PAM_SUCCESS && c.name.Some? && c.name == calls[i].name)
    ensures !Superseded(calls + [c], codes + [code], |calls|)
    ensures calls[i].name.Some? ==> RegistrationOf(calls + [c], i) == RegistrationOf(calls, i)
  {
    var calls', codes' := calls + [c], codes + [code];
    forall j | 0 <= j < |calls| ensures Accepted(calls', codes', j) <==> Accepted(calls, codes, j) {}
    if Superseded(calls, codes, i) {
      var j :| i < j && Accepted(calls, codes, j) && calls[j].name == calls[i].name;
      assert Accepted(calls', codes', j);
    }
    if Accepted(calls, codes, i) && code == PAM_SUCCESS && c.name.Some? && c.name == calls[i].name {
      assert Accepted(calls', codes', |calls|);
    }
  }

  /** The list names a name exactly when some accepted call did. */
  lemma {:induction false} ListedIff(calls: seq<Call>, s: DataState, i: nat, name: string)
    requires ListCurrent(calls, s) && |s.codes| == |calls|
    requires Accepted(calls, s.codes, i) && calls[i].name == Some(name)
    ensures IndexOf(s.list, name) < |s.list|
    ensures !Superseded(calls, s.codes, i) ==> s.list[IndexOf(s.list, name)].id == i
  {
    var j := SomeCurrent(calls, s.codes, i);
    assert RegistrationOf(calls, j) in s.list;
    var m :| 0 <= m < |s.list| && s.list[m] == RegistrationOf(calls, j);
    assert IndexOf(s.list, name) == m;
    if !Superseded(calls, s.codes, i) {
      assert i < j ==> Superseded(calls, s.codes, i);
    }
  }

  lemma RefusedKeeps(calls: seq<Call>, s: DataState, c: Call, code: int)
    requires |s.codes| == |calls| && ListCurrent(calls, s) && LogExact(calls, s)
    requires code != PAM_SUCCESS
    ensures var s' := s.(codes := s.codes + [code]);
      ListCurrent(calls + [c], s') && LogExact(calls + [c], s')
  {
    var s' := s.(codes := s.codes + [code]);
    forall i: nat | i < |calls|
      ensures Accepted(calls + [c], s'.codes, i) <==> Accepted(calls, s.codes, i)
      ensures Superseded(calls + [c], s'.codes, i) <==> Superseded(calls, s.codes, i)
    {
      OneMore(calls, s.codes, c, code, i);
    }
  }

  /** The list after an accepted call: one place changed, or one added in front. */
  lemma AcceptedList(fails: nat -> bool, s: DataState, c: Call)
    requires c.name.Some? && SetData(fails, s, c).codes == s.codes + [PAM_SUCCESS]
    ensures var s', k := SetData(fails, s, c), IndexOf(s.list, c.name.value);
      var r := Registration(c.name.value, c.data, c.cleanup, |s.codes|);
      s'.list == if k < |s.list| then s.list[k := r] else [r] + s.list
  {
    assert SetData(fails, s, c).codes[|s.codes|] == PAM_SUCCESS;
  }

  /** Every entry of the new list is current... */
  lemma EntriesCurrent(fails: nat -> bool, calls: seq<Call>, s: DataState, c: Call, m: nat)
    requires |s.codes| == |calls| && ListCurrent(calls, s)
    requires c.name.Some? && SetData(fails, s, c).codes == s.codes + [PAM_SUCCESS]
    requires m < |SetData(fails, s, c).list|
    ensures var s', calls' := SetData(fails, s, c), calls + [c];
      && Accepted(calls', s'.codes, s'.list[m].id) && !Superseded(calls', s'.codes, s'.list[m].id)
      && s'.list[m] == RegistrationOf(calls', s'.list[m].id)
  {
    AcceptedList(fails, s, c);
    var s', k := SetData(fails, s, c), IndexOf(s.list, c.name.value);
    if m != (if k < |s.list| then k else 0) {
      var m0 := if k < |s.list| then m else m - 1;
      assert s'.list[m] == s.list[m0] && s.list[m0].name != c.name.value;
      OneMore(calls, s.codes, c, PAM_SUCCESS, s.list[m0].id);
    }
  }

  /** ... and every current registration is in it. */
  lemma CurrentListed(fails: nat -> bool, calls: seq<Call>, s: DataState, c: Call, i: nat)
    requires |s.codes| == |calls| && ListCurrent(calls, s)
    requires c.name.Some? && SetData(fails, s, c).codes == s.codes + [PAM_SUCCESS]
    requires var s', calls' := SetData(fails, s, c), calls + [c];
      Accepted(calls', s'.codes, i) && !Superseded(calls', s'.codes, i)
    ensures RegistrationOf(calls + [c], i) in SetData(fails, s, c).list
  {
    AcceptedList(fails, s, c);
    var s', k := SetData(fails, s, c), IndexOf(s.list, c.name.value);
    if i < |calls| {
      OneMore(calls, s.codes, c, PAM_SUCCESS, i);
      var o := RegistrationOf(calls, i);
      var m :| 0 <= m < |s.list| && s.list[m] == o;
      assert s'.list[if k < |s.list| then m else m + 1] == o;
    } else {
      assert s'.list[if k < |s.list| then k else 0] == RegistrationOf(calls + [c], i);
    }
  }

  lemma AcceptedListCurrent(fails: nat -> bool, calls: seq<Call>, s: DataState, c: Call)
    requires |s.codes| == |calls| && ListCurrent(calls, s)
    requires c.name.Some? && SetData(fails, s, c).codes == s.codes + [PAM_SUCCESS]
    ensures ListCurrent(calls + [c], SetData(fails, s, c))
  {
    AcceptedList(fails, s, c);
    var s', calls' := SetData(fails, s, c), calls + [c];
    forall m | 0 <= m < |s'.list|
      ensures && Accepted(calls', s'.codes, s'.list[m].id) && !Superseded(calls', s'.codes, s'.list[m].id)
        && s'.list[m] == RegistrationOf(calls', s'.list[m].id)
    {
      EntriesCurrent(fails, calls, s, c, m);
    }
    forall i: nat | Accepted(calls', s'.codes, i) && !Superseded(calls', s'.codes, i)
      ensures RegistrationOf(calls', i) in s'.list
    {
      CurrentListed(fails, calls, s, c, i);
    }
  }

  lemma AcceptedLogExact(fails: nat -> bool, calls: seq<Call>, s: DataState, c: Call)
    requires |s.codes| == |calls| && ListCurrent(calls, s) && LogExact(calls, s)
    requires c.name.Some? && SetData(fails, s, c).codes == s.codes + [PAM_SUCCESS]
    ensures LogExact(calls + [c], SetData(fails, s, c))
  {
    var s', calls', n := SetData(fails, s, c), calls + [c], |calls|;
    var k := IndexOf(s.list, c.name.value);
    var added := if k < |s.list| then CleanUp(s.list[k], Replaced) else [];
    assert s'.log == s.log + added;
    if k < |s.list| { OneMore(calls, s.codes, c, PAM_SUCCESS, s.list[k].id); }
    forall m | 0 <= m < |s'.log|
      ensures Superseded(calls', s'.codes, s'.log[m].id)
        && [s'.log[m]] == CleanUp(RegistrationOf(calls', s'.log[m].id), Replaced)
    {
      if m < |s.log| { OneMore(calls, s.codes, c, PAM_SUCCESS, s.log[m].id); }
    }
    forall i: nat | Superseded(calls', s'.codes, i) && calls'[i].cleanup.Some?
      ensures CleanUp(RegistrationOf(calls', i), Replaced)[0] in s'.log
    {
      assert i < n;
      OneMore(calls, s.codes, c, PAM_SUCCESS, i);
      if !Superseded(calls, s.codes, i) {
        ListedIff(calls, s, i, c.name.value);
        assert s'.log[|s.log|] == added[0];
      }
    }
  }

  lemma StepExact(fails: nat -> bool, calls: seq<Call>, s: DataState, c: Call)
    requires |s.codes| == |calls| && ListCurrent(calls, s) && LogExact(calls, s)
    ensures var s' := SetData(fails, s, c);
      |s'.codes| == |calls| + 1 && ListCurrent(calls + [c], s') && LogExact(calls + [c], s')
  {
    var s' := SetData(fails, s, c);
    var code := s'.codes[|calls|];
    assert s'.codes == s.codes + [code];
    if code == PAM_SUCCESS {
      AcceptedListCurrent(fails, calls, s, c);
      AcceptedLogExact(fails, calls, s, c);
    } else {
      RefusedKeeps(calls, s, c, code);
    }
  }

  lemma {:induction false} RunExact(fails: nat -> bool, clocks: seq<nat>, calls: seq<Call>)
    requires |calls| <= |clocks|
    ensures ListCurrent(calls, RunCalls(fails, clocks, calls)) && LogExact(calls, RunCalls(fails, clocks, calls))
    decreases |calls|
  {
    if calls != [] {
      var before, c := calls[..|calls| - 1], calls[|calls| - 1];
      assert calls == before + [c];
      RunExact(fails, clocks, before);
      StepExact(fails, before, RunCalls(fails, clocks, before).(clock := clocks[|before|]), c);
    }
  }

  // ----------------------------------------------------------------------- results

  /** The one callback an accepted registration gets in a run that ends with `status`. */
  ghost function Due(calls: seq<Call>, codes: seq<int>, i: nat, status: int): seq<Cleaned>
    requires Accepted(calls, codes, i)
  {
    CleanUp(RegistrationOf(calls, i), if Superseded(calls, codes, i) then Replaced else Final(status))
  }

  /** The final callbacks come from list entries... */
  lemma {:induction false} FinalFromList(list: seq<Registration>, status: int, e: Cleaned)
    requires e in FinalCleanups(list, status)
    ensures exists m :: 0 <= m < |list| && [e] == CleanUp(list[m], Final(status))
  {
    if e in FinalCleanups(list[1..], status) {
      FinalFromList(list[1..], status, e);
      var m :| 0 <= m < |list[1..]| && [e] == CleanUp(list[1..][m], Final(status));
      assert [e] == CleanUp(list[m + 1], Final(status));
    } else {
      assert e in CleanUp(list[0], Final(status));
      assert [e] == CleanUp(list[0], Final(status));
    }
  }

  /** ... every list entry with a callback gives one... */
  lemma {:induction false} FinalHasAll(list: seq<Registration>, status: int, m: nat)
    requires m < |list| && list[m].cleanup.Some?
    ensures CleanUp(list[m], Final(status))[0] in FinalCleanups(list, status)
  {
    if m > 0 { FinalHasAll(list[1..], status, m - 1); }
  }

  /** ... and only one. */
  lemma {:induction false} FinalDistinct(list: seq<Registration>, status: int)
    requires forall i, j :: 0 <= i < j < |list| ==> list[i].id != list[j].id
    ensures var f := FinalCleanups(list, status); forall k, l :: 0 <= k < l < |f| ==> f[k].id != f[l].id
  {
    if list != [] {
      FinalDistinct(list[1..], status);
      var rest := FinalCleanups(list[1..], status);
      forall k | 0 <= k < |rest| ensures rest[k].id != list[0].id {
        FinalFromList(list[1..], status, rest[k]);
      }
    }
  }

  /** The callbacks made, in any order, are exactly those due: each accepted registration
      that has a callback is cleaned once, with the right reason, and nothing else is. */
  ghost predicate ExactlyOnce(calls: seq<Call>, codes: seq<int>, log: seq<Cleaned>, status: int) {
    && |codes| == |calls|
    && (forall k, l :: 0 <= k < l < |log| ==> log[k].id != log[l].id)
    && (forall k :: 0 <= k < |log| ==>
         Accepted(calls, codes, log[k].id) && [log[k]] == Due(calls, codes, log[k].id, status))
    && (forall i: nat :: Accepted(calls, codes, i) && calls[i].cleanup.Some? ==>
         Due(calls, codes, i, status)[0] in log)
  }

  /** Over any run of `pam_set_data` ended by `pam_end`, each accepted registration that
      has a callback is cleaned exactly once, with the right reason, and nothing else is
      cleaned. */
  lemma {:induction false} CleanedExactlyOnce(fails: nat -> bool, clocks: seq<nat>, calls: seq<Call>, status: int)
    requires |calls| <= |clocks|
    ensures var s := RunCalls(fails, clocks, calls);
      ExactlyOnce(calls, s.codes, s.log + FinalCleanups(s.list, status), status)
  {
    RunExact(fails, clocks, calls);
    var s := RunCalls(fails, clocks, calls);
    var fin := FinalCleanups(s.list, status);
    var log := s.log + fin;
    FinalDistinct(s.list, status);
    forall k | 0 <= k < |fin| ensures FinalEntry(calls, s, fin[k], status) {
      FinalFromList(s.list, status, fin[k]);
    }
    forall k | 0 <= k < |log|
      ensures Accepted(calls, s.codes, log[k].id) && [log[k]] == Due(calls, s.codes, log[k].id, status)
      ensures Superseded(calls, s.codes, log[k].id) <==> k < |s.log|
    {
      if k >= |s.log| { assert FinalEntry(calls, s, fin[k - |s.log|], status); }
    }
    forall i: nat | Accepted(calls, s.codes, i) && calls[i].cleanup.Some?
      ensures Due(calls, s.codes, i, status)[0] in log
    {
      if !Superseded(calls, s.codes, i) {
        var m :| 0 <= m < |s.list| && s.list[m] == RegistrationOf(calls, i);
        FinalHasAll(s.list, status, m);
      }
    }
  }

  ghost predicate FinalEntry(calls: seq<Call>, s: DataState, e: Cleaned, status: int) {
    && Accepted(calls, s.codes, e.id) && !Superseded(calls, s.codes, e.id)
    && [e] == CleanUp(RegistrationOf(calls, e.id), Final(status))
  }

  /** One call adds a name at the end of the first-registration order exactly when it
      adds an entry at the head of the list. */
  lemma ReverseStep(names: seq<string>, firsts: seq<string>, name: string)
    requires names == Reverse(firsts)
    ensures name in firsts <==> name in names
    ensures [name] + names == Reverse(firsts + [name])
  {
    assert forall i :: 0 <= i < |firsts| ==> firsts[i] == names[|firsts| - 1 - i];
  }

  lemma ListNamesStep(fails: nat -> bool, s: DataState, c: Call)
    ensures var s' := SetData(fails, s, c);
      var added := s'.codes[|s.codes|] == PAM_SUCCESS && c.name.Some? && c.name.value !in ListNames(s.list);
      ListNames(s'.list) == (if added then [c.name.value] else []) + ListNames(s.list)
  {
    if c.name.Some? {
      var k := IndexOf(s.list, c.name.value);
      if k < |s.list| { assert ListNames(s.list)[k] == c.name.value; }
    }
  }

  /** The list, and so the order of the final callbacks, is the reverse of the order in
      which names were first registered. */
  lemma {:induction false} ReverseFirstOrder(fails: nat -> bool, clocks: seq<nat>, calls: seq<Call>)
    requires |calls| <= |clocks|
    ensures var s := RunCalls(fails, clocks, calls);
      ListNames(s.list) == Reverse(FirstNames(calls, s.codes))
    decreases |calls|
  {
    if calls != [] {
      var before, c := calls[..|calls| - 1], calls[|calls| - 1];
      ReverseFirstOrder(fails, clocks, before);
      var s := RunCalls(fails, clocks, before).(clock := clocks[|before|]);
      var s' := SetData(fails, s, c);
      FirstNamesPrefix(before, s.codes, s'.codes);
      ListNamesStep(fails, s, c);
      if c.name.Some? { ReverseStep(ListNames(s.list), FirstNames(before, s.codes), c.name.value); }
    }
  }

  /** Callbacks for the front of the list come before those for the rest. */
  lemma {:induction false} FinalInOrder(front: seq<Registration>, back: seq<Registration>, status: int)
    ensures FinalCleanups(front + back, status) == FinalCleanups(front, status) + FinalCleanups(back, status)
  {
    if front == [] {
      assert front + back == back;
    } else {
      assert (front + back)[1..] == front[1..] + back;
      FinalInOrder(front[1..], back, status);
    }
  }

  lemma {:induction false} FirstNamesPrefix(calls: seq<Call>, codes: seq<int>, codes': seq<int>)
    requires |calls| <= |codes| <= |codes'| && forall i :: 0 <= i < |calls| ==> codes'[i] == codes[i]
    ensures FirstNames(calls, codes') == FirstNames(calls, codes)
    decreases |calls|
  {
    if calls != [] { FirstNamesPrefix(calls[..|calls| - 1], codes, codes'); }
  }

  /** `pam_get_data` answers with the data of the latest accepted call for the name, and
      finds nothing when there is none. */
  lemma {:induction false} LatestData(fails: nat -> bool, clocks: seq<nat>, calls: seq<Call>, name: string)
    requires |calls| <= |clocks|
    ensures var s := RunCalls(fails, clocks, calls);
      && (forall i: nat ::
           Accepted(calls, s.codes, i) && calls[i].name == Some(name) && !Superseded(calls, s.codes, i) ==>
           GetData(s.list, Some(name)) == (PAM_SUCCESS, Some(calls[i].data)))
      && ((forall i: nat :: Accepted(calls, s.codes, i) ==> calls[i].name != Some(name)) ==>
           GetData(s.list, Some(name)) == (PAM_NO_MODULE_DATA, None))
  {
    RunExact(fails, clocks, calls);
    var s := RunCalls(fails, clocks, calls);
    forall i: nat | Accepted(calls, s.codes, i) && calls[i].name == Some(name) && !Superseded(calls, s.codes, i)
      ensures GetData(s.list, Some(name)) == (PAM_SUCCESS, Some(calls[i].data))
    {
      ListedIff(calls, s, i, name);
    }
  }
}
