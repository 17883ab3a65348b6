/** Any sequence of authentications and password changes on one handle, together with
    the shadow table they read and write. */
module AuthRuns {
  import opened PamTypes
  import opened Verdict
  import opened AuthSpec
  import opened AuthTheorems
  import opened ShadowRows
  import Chkpwd = ChkpwdProtocol
  import ChkpwdTheorems

  /** One library call. `helper` is what the helper process would answer during that call;
      `outcome` is what writing an admitted change returned. */
  datatype Call =
    | Login(nonull: bool, helper: (string, Option<string>) -> int)
    | NewPassword(setting: Option<string>, days: Days, outcome: int)

  /** The handle, the table, and the changes made to the table so far. */
  datatype Machine = Machine(session: Session, rows: seq<Row>, changes: seq<Change>)

  /** What does not change during a run: the application and the allocator, who calls,
      whether that process can read the shadow table, and what holds for its helper. */
  datatype Setup = Setup(
    w: World,
    root: bool,
    readable: bool,
    permitted: string -> bool,  // the helper lets the caller ask about this user
    limit: nat,                 // the size of the helper's buffer
    reliable: bool              // no call of parent or helper fails but by interruption
  )

  /** What `getspnam` answers in the calling process. */
  function Table(u: Setup, m: Machine): string -> Lookup {
    user => if u.readable then LookupIn(m.rows, user) else NotFound(true)
  }

  /** A helper asked during the call about this user and token, with the table as it is. */
  function HelperFor(u: Setup, m: Machine, nonull: bool, user: string, token: Option<string>): Chkpwd.Config {
    Chkpwd.Config(u.limit, token, nonull, u.w.crypt, LookupIn(m.rows, user), u.permitted(user), u.reliable)
  }

  /** The helper's answers during the call are answers the two processes can give. */
  ghost predicate Faithful(u: Setup, m: Machine, call: Call) {
    call.Login? && !u.readable ==>
      forall user, token :: Chkpwd.NoNul(OrEmpty(token)) ==>
        Chkpwd.CanAnswer(Some(user), HelperFor(u, m, call.nonull, user, token), call.helper(user, token))
  }

  function Step(u: Setup, m: Machine, call: Call): (Machine, int) {
    match call
    case Login(nonull, helper) =>
      var (s, code) := Authenticate(u.w, m.session, Table(u, m), helper, nonull);
      (m.(session := s), code)
    case NewPassword(setting, days, outcome) =>
      var (s, gate) := ChangeToken(u.w, m.session, u.root, Table(u, m), setting);
      if gate.Denied? then (m.(session := s), gate.code)
      else if outcome != PAM_SUCCESS then (m.(session := s), outcome)
      else
        var change := Change(gate.user, gate.hash, days);
        (Machine(s, Update(m.rows, change), m.changes + [change]), PAM_SUCCESS)
  }

  function Run(u: Setup, m: Machine, calls: seq<Call>): Machine {
    if calls == [] then m
    else Step(u, Run(u, m, calls[..|calls| - 1]), calls[|calls| - 1]).0
  }

  ghost predicate FaithfulRun(u: Setup, m: Machine, calls: seq<Call>) {
    calls != [] ==>
      && FaithfulRun(u, m, calls[..|calls| - 1])
      && Faithful(u, Run(u, m, calls[..|calls| - 1]), calls[|calls| - 1])
  }

  /** The return codes, call by call. */
  function Codes(u: Setup, m: Machine, calls: seq<Call>): (codes: seq<int>)
    ensures |codes| == |calls|
  {
    if calls == [] then []
    else
      var front := calls[..|calls| - 1];
      Codes(u, m, front) + [Step(u, Run(u, m, front), calls[|calls| - 1]).1]
  }

  // ------------------------------------------------- what reaches the table, and why

  /** The call made this change to the table, and was entitled to. */
  ghost predicate Entitled(u: Setup, before: Machine, call: Call, c: Change) {
    var (after, code) := Step(u, before, call);
    && call.NewPassword? && code == PAM_SUCCESS
    && Confirmed(u.w, before.session, after.session, c)
    && c.days == call.days && call.setting.Some?
    && u.w.crypt(OrEmpty(after.session.token), call.setting.value) == Some(c.hash)
    && (u.root || (u.readable && Identified(u.w, before.rows, after.session, c.user)))
  }

  /** The new token is not empty and was the answer to this call's last prompt, the retype. */
  ghost predicate Confirmed(w: World, before: Session, after: Session, c: Change) {
    && after.user == Some(c.user) && c.user != ""
    && after.token.Some? && after.token.value != ""
    && |after.asked| > |before.asked| && after.asked[|after.asked| - 1] == RETYPE
    && w.replies(|after.asked| - 1) == Answer(after.token)
  }

  /** The old token on the handle opens the user's row. */
  ghost predicate Identified(w: World, rows: seq<Row>, s: Session, user: string) {
    var found := LookupIn(rows, user);
    found.Found? && VerifyHash(w.crypt, s.oldToken, found.hash) == PAM_SUCCESS
  }

  /** The gate of an admitted change entitles the call that makes it. */
  lemma AdmittedEntitled(u: Setup, m: Machine, call: Call)
    requires call.NewPassword? && call.outcome == PAM_SUCCESS
    requires ChangeToken(u.w, m.session, u.root, Table(u, m), call.setting).1.Admitted?
    ensures var gate := ChangeToken(u.w, m.session, u.root, Table(u, m), call.setting).1;
      Entitled(u, m, call, Change(gate.user, gate.hash, call.days))
  {
    ChangeGate(u.w, m.session, u.root, Table(u, m), call.setting);
  }

  /** A call makes at most one change, and only if entitled to. */
  lemma StepEntitled(u: Setup, m: Machine, call: Call)
    ensures var after := Step(u, m, call).0;
      after.changes == m.changes
      || exists c :: after.changes == m.changes + [c] && Entitled(u, m, call, c)
  {
    if call.NewPassword? && call.outcome == PAM_SUCCESS
       && ChangeToken(u.w, m.session, u.root, Table(u, m), call.setting).1.Admitted? {
      AdmittedEntitled(u, m, call);
    }
  }

  ghost predicate MadeByCall(u: Setup, m: Machine, calls: seq<Call>, c: Change) {
    exists k: nat :: k < |calls| && Entitled(u, Run(u, m, calls[..k]), calls[k], c)
  }

  lemma MadeEarlier(u: Setup, m: Machine, calls: seq<Call>, n: nat, c: Change)
    requires n <= |calls| && MadeByCall(u, m, calls[..n], c)
    ensures MadeByCall(u, m, calls, c)
  {
    var k: nat :| k < n && Entitled(u, Run(u, m, calls[..n][..k]), calls[..n][k], c);
    assert calls[..n][..k] == calls[..k] && calls[..n][k] == calls[k];
  }

  lemma {:induction false} LastChange(u: Setup, m: Machine, calls: seq<Call>)
    requires calls != []
    ensures var before, after := Run(u, m, calls[..|calls| - 1]).changes, Run(u, m, calls).changes;
      after == before || exists c :: after == before + [c] && MadeByCall(u, m, calls, c)
  {
    var last := |calls| - 1;
    var before := Run(u, m, calls[..last]);
    StepEntitled(u, before, calls[last]);
    if Run(u, m, calls).changes != before.changes {
      var c :| Run(u, m, calls).changes == before.changes + [c] && Entitled(u, before, calls[last], c);
      assert MadeByCall(u, m, calls, c);
    }
  }

  /** Over any run the table is the replay of the recorded changes, and every one of them
      was made by a call of the run that passed the gate: new token retyped, and old
      token verified against the table of that moment unless the caller is root. */
  lemma {:induction false} EveryChangeEntitled(u: Setup, rows: seq<Row>, m: Machine, calls: seq<Call>)
    requires m.rows == Replay(rows, m.changes)
    ensures var after := Run(u, m, calls);
      && after.rows == Replay(rows, after.changes)
      && m.changes <= after.changes
      && forall j :: |m.changes| <= j < |after.changes| ==> MadeByCall(u, m, calls, after.changes[j])
    decreases |calls|
  {
    if calls == [] { return; }
    var last := |calls| - 1;
    var before, after := Run(u, m, calls[..last]), Run(u, m, calls);
    EveryChangeEntitled(u, rows, m, calls[..last]);
    StepReplays(u, rows, before, calls[last]);
    LastChange(u, m, calls);
    forall j | |m.changes| <= j < |after.changes| ensures MadeByCall(u, m, calls, after.changes[j]) {
      if j < |before.changes| {
        assert before.changes[j] == after.changes[j];
        MadeEarlier(u, m, calls, last, after.changes[j]);
      }
    }
  }

  lemma {:induction false} StepReplays(u: Setup, rows: seq<Row>, m: Machine, call: Call)
    requires m.rows == Replay(rows, m.changes)
    ensures var after := Step(u, m, call).0; after.rows == Replay(rows, after.changes)
  {
    var after := Step(u, m, call).0;
    if after.changes != m.changes { assert after.changes[..|m.changes|] == m.changes; }
  }

  // ------------------------------------------------------- without a password, nothing

  /** This text, or its absence, opens no row of the table. */
  ghost predicate OpensNothing(crypt: Crypt, rows: seq<Row>, text: Option<string>) {
    forall i :: 0 <= i < |rows| ==> VerifyHash(crypt, text, Some(rows[i].hash)) != PAM_SUCCESS
  }

  /** What the helper would see of a text. */
  function Cut(u: Setup, text: Option<string>): Option<string> {
    var t := OrEmpty(text);
    Some(if |t| > u.limit then t[..u.limit] else t)
  }

  /** A C string that opens nothing: where the table cannot be read, the helper tries its
      beginning instead. */
  ghost predicate Useless(u: Setup, rows: seq<Row>, text: Option<string>) {
    && Chkpwd.NoNul(OrEmpty(text))
    && OpensNothing(u.w.crypt, rows, text)
    && (!u.readable ==> OpensNothing(u.w.crypt, rows, Cut(u, text)))
  }

  /** Neither the handle nor any reply that will ever be given holds a password. A helper
      that cannot read its input tries the empty password. */
  ghost predicate KnowsNothing(u: Setup, rows: seq<Row>, s: Session) {
    && (forall k :: u.w.replies(k).Answer? ==> Useless(u, rows, u.w.replies(k).text))
    && (s.token.Some? ==> Useless(u, rows, s.token))
    && (s.oldToken.Some? ==> Useless(u, rows, s.oldToken))
    && (!u.readable && !u.reliable ==> OpensNothing(u.w.crypt, rows, Some("")))
  }

  lemma NothingOpened(crypt: Crypt, rows: seq<Row>, text: Option<string>, user: string)
    requires OpensNothing(crypt, rows, text)
    ensures LookupIn(rows, user).Found? ==> VerifyHash(crypt, text, LookupIn(rows, user).hash) != PAM_SUCCESS
  {
    FindFirst(rows, user);
  }

  /** The helper opens nothing either. */
  lemma HelperRefuses(u: Setup, m: Machine, call: Call, user: string, token: Option<string>)
    requires call.Login? && !u.readable && Faithful(u, m, call) && Useless(u, m.rows, token)
    requires !u.reliable ==> OpensNothing(u.w.crypt, m.rows, Some(""))
    ensures call.helper(user, token) != PAM_SUCCESS
  {
    var cfg := HelperFor(u, m, call.nonull, user, token);
    assert Chkpwd.CanAnswer(Some(user), cfg, call.helper(user, token));
    if call.helper(user, token) == PAM_SUCCESS {
      ChkpwdTheorems.AnsweredSuccess(Some(user), cfg);
      NothingOpened(u.w.crypt, m.rows, Cut(u, token), user);
      if !u.reliable { NothingOpened(u.w.crypt, m.rows, Some(""), user); }
      assert false;
    }
  }

  /** Where the tokens on the handle can come from. */
  lemma TokenSources(w: World, s: Session, sp: string -> Lookup, helper: (string, Option<string>) -> int, nonull: bool)
    ensures var s' := Authenticate(w, s, sp, helper, nonull).0;
      && s'.oldToken == s.oldToken
      && (s'.token == None || s'.token == s.token || Obtained(w, s'.token))
  {
    var (s1, userCode) := GetUser(w, s);
    if userCode == PAM_SUCCESS && s.token == None { TokenObtained(w, s1); }
  }

  /** A token that was the answer to some prompt. */
  ghost predicate Obtained(w: World, token: Option<string>) {
    exists k :: w.replies(k) == Answer(token)
  }

  lemma TokenObtained(w: World, s: Session)
    requires s.token == None
    ensures var (s', code) := GetToken(w, s, PASSWORD);
      && (s'.token.Some? ==> w.replies(|s.asked|) == Answer(s'.token))
      && (code == PAM_SUCCESS ==> w.replies(|s.asked|) == Answer(s'.token))
  {
  }

  lemma LoginRefused(u: Setup, m: Machine, call: Call)
    requires KnowsNothing(u, m.rows, m.session) && call.Login? && Faithful(u, m, call)
    ensures Authenticate(u.w, m.session, Table(u, m), call.helper, call.nonull).1 != PAM_SUCCESS
  {
    var (s1, userCode) := GetUser(u.w, m.session);
    if userCode == PAM_SUCCESS && OrEmpty(s1.user) != "" {
      var (s2, tokenCode) := GetToken(u.w, s1, PASSWORD);
      if tokenCode == PAM_SUCCESS {
        if s1.token == None { TokenObtained(u.w, s1); }
        assert Useless(u, m.rows, s2.token);
        if u.readable {
          NothingOpened(u.w.crypt, m.rows, s2.token, s1.user.value);
        } else {
          HelperRefuses(u, m, call, s1.user.value, s2.token);
        }
      }
    }
  }

  lemma LoginKeepsNothing(u: Setup, m: Machine, call: Call)
    requires KnowsNothing(u, m.rows, m.session) && call.Login?
    ensures KnowsNothing(u, m.rows, Authenticate(u.w, m.session, Table(u, m), call.helper, call.nonull).0)
  {
    TokenSources(u.w, m.session, Table(u, m), call.helper, call.nonull);
  }

  lemma OldTokenRefused(u: Setup, rows: seq<Row>, s: Session, user: string, found: Lookup)
    requires KnowsNothing(u, rows, s) && (found.Found? ==> found == LookupIn(rows, user))
    ensures var (s', code) := CheckOldToken(u.w, s, false, found);
      code != PAM_SUCCESS && KnowsNothing(u, rows, s')
  {
    var (s', code) := GetOldToken(u.w, s, CURRENT);
    if code == PAM_SUCCESS {
      assert Useless(u, rows, s'.oldToken);
      NothingOpened(u.w.crypt, rows, s'.oldToken, user);
    }
  }

  lemma ChangeRefused(u: Setup, m: Machine, setting: Option<string>)
    requires KnowsNothing(u, m.rows, m.session)
    ensures var (s, gate) := ChangeToken(u.w, m.session, false, Table(u, m), setting);
      gate.Denied? && KnowsNothing(u, m.rows, s)
  {
    var (s1, userCode) := GetUser(u.w, m.session);
    assert KnowsNothing(u, m.rows, s1);
    if userCode == PAM_SUCCESS && OrEmpty(s1.user) != "" {
      OldTokenRefused(u, m.rows, s1, s1.user.value, Table(u, m)(s1.user.value));
    }
  }

  lemma CallRefused(u: Setup, m: Machine, call: Call)
    requires !u.root && KnowsNothing(u, m.rows, m.session) && Faithful(u, m, call)
    ensures var (after, code) := Step(u, m, call);
      && after.rows == m.rows && after.changes == m.changes && KnowsNothing(u, m.rows, after.session)
      && (call.Login? ==> code != PAM_SUCCESS)
  {
    match call
    case Login(_, _) =>
      LoginRefused(u, m, call);
      LoginKeepsNothing(u, m, call);
    case NewPassword(setting, _, _) => ChangeRefused(u, m, setting);
  }

  /** If the application never supplies a text that verifies, then over any run of any
      length by a caller who is not root, whether that caller reads the table or goes
      through the helper, in every interleaving with it, no authentication succeeds and
      the table never changes. */
  lemma {:induction false} NoPasswordNoEntry(u: Setup, m: Machine, calls: seq<Call>)
    requires !u.root && KnowsNothing(u, m.rows, m.session) && FaithfulRun(u, m, calls)
    ensures var after := Run(u, m, calls);
      after.rows == m.rows && after.changes == m.changes && KnowsNothing(u, m.rows, after.session)
    ensures forall k :: 0 <= k < |calls| && calls[k].Login? ==> Codes(u, m, calls)[k] != PAM_SUCCESS
    decreases |calls|
  {
    if calls == [] { return; }
    var front := calls[..|calls| - 1];
    NoPasswordNoEntry(u, m, front);
    CallRefused(u, Run(u, m, front), calls[|calls| - 1]);
    assert forall k :: 0 <= k < |front| ==> Codes(u, m, calls)[k] == Codes(u, m, front)[k];
  }

  /** Conversely, one reply that verifies is enough, at any point of any run that left no
      token behind: through a reliable helper too, if the caller may ask it and the text
      fits its buffer. */
  lemma {:induction false} PasswordSuffices(u: Setup, m: Machine, calls: seq<Call>, login: Call,
                                            user: string, p: string)
    requires login.Login? && WillSupply(u.w, Run(u, m, calls).session, Some(p))
    requires Run(u, m, calls).session.user == Some(user) && user != "" && (p != "" || !login.nonull)
    requires var found := LookupIn(Run(u, m, calls).rows, user);
      found.Found? && VerifyHash(u.w.crypt, Some(p), found.hash) == PAM_SUCCESS
    requires u.readable ||
      (u.permitted(user) && u.reliable && |p| < u.limit && Chkpwd.NoNul(p) && Faithful(u, Run(u, m, calls), login))
    ensures Codes(u, m, calls + [login])[|calls|] == PAM_SUCCESS
    ensures Run(u, m, calls + [login]).session.token == if u.readable then Some(p) else None
  {
    assert (calls + [login])[..|calls|] == calls;
    var before := Run(u, m, calls);
    if !u.readable {
      var cfg := HelperFor(u, before, login.nonull, user, Some(p));
      assert Chkpwd.CanAnswer(Some(user), cfg, login.helper(user, Some(p)));
      ChkpwdTheorems.AgreementIff(Some(user), cfg);
    }
  }

  /** Through the helper a success leaves no token, so every attempt asks again. */
  lemma HelperLeavesNoToken(u: Setup, m: Machine, login: Call)
    requires login.Login? && !u.readable && GetUser(u.w, m.session).1 == PAM_SUCCESS
    ensures Step(u, m, login).0.session.token == None
  {
    TokenRetained(u.w, m.session, Table(u, m), login.helper, login.nonull);
  }

  /** A handle that holds an old token keeps it over any run. */
  lemma {:induction false} OldTokenStaysForever(u: Setup, m: Machine, calls: seq<Call>)
    requires m.session.oldToken.Some?
    ensures Run(u, m, calls).session.oldToken == m.session.oldToken
    decreases |calls|
  {
    if calls == [] { return; }
    var front := calls[..|calls| - 1];
    OldTokenStaysForever(u, m, front);
    StepKeepsOldToken(u, Run(u, m, front), calls[|calls| - 1]);
  }

  lemma StepKeepsOldToken(u: Setup, m: Machine, call: Call)
    requires m.session.oldToken.Some?
    ensures Step(u, m, call).0.session.oldToken == m.session.oldToken
  {
    match call
    case Login(nonull, helper) => OldTokenStays(u.w, m.session, Table(u, m), helper, nonull, u.root, None);
    case NewPassword(setting, _, _) =>
      OldTokenStays(u.w, m.session, Table(u, m), (user, pass) => 0, false, u.root, setting);
  }

  // ------------------------------------------------------------------ settled sessions

  lemma SettledStep(u: Setup, m: Machine, login: Call)
    requires login.Login? && Step(u, m, login).1 == PAM_SUCCESS && Step(u, m, login).0.session.token.Some?
    ensures var settled := Step(u, m, login).0;
      Step(u, settled, login) == (settled, PAM_SUCCESS)
  {
    SuccessRepeats(u.w, u.w, m.session, Table(u, m), login.helper, login.nonull);
  }

  /** What does not change in one call does not change in any number of them. */
  lemma {:induction false} FixedPoint(u: Setup, m: Machine, call: Call, calls: seq<Call>)
    requires Step(u, m, call) == (m, PAM_SUCCESS) && forall k :: 0 <= k < |calls| ==> calls[k] == call
    ensures Run(u, m, calls) == m && forall k :: 0 <= k < |calls| ==> Codes(u, m, calls)[k] == PAM_SUCCESS
    decreases |calls|
  {
    if calls != [] { FixedPoint(u, m, call, calls[..|calls| - 1]); }
  }

  /** After a success with a token, any number of further authentications succeed, ask
      nothing and change nothing. */
  lemma {:induction false} SuccessSettles(u: Setup, m: Machine, login: Call, calls: seq<Call>)
    requires login.Login? && Step(u, m, login).1 == PAM_SUCCESS && Step(u, m, login).0.session.token.Some?
    requires forall k :: 0 <= k < |calls| ==> calls[k] == login
    ensures var settled := Step(u, m, login).0;
      && Run(u, settled, calls) == settled
      && forall k :: 0 <= k < |calls| ==> Codes(u, settled, calls)[k] == PAM_SUCCESS
  {
    SettledStep(u, m, login);
    FixedPoint(u, Step(u, m, login).0, login, calls);
  }

  // --------------------------------------------------------------- a password persists

  /** Changes for other users, however many, leave a user's row lookup alone. */
  lemma {:induction false} OthersReplay(rows: seq<Row>, others: seq<Change>, user: string)
    requires forall i :: 0 <= i < |others| ==> others[i].user != user
    ensures LookupIn(Replay(rows, others), user) == LookupIn(rows, user)
    decreases |others|
  {
    if others != [] {
      OthersReplay(rows, others[..|others| - 1], user);
      UpdateLookup(Replay(rows, others[..|others| - 1]), others[|others| - 1], user);
    }
  }

  /** A new password lets its user in after any number of changes for other users,
      whatever the table was when the gate was passed. */
  lemma {:induction false} NewPasswordHolds(w: World, s: Session, root: bool, sp: string -> Lookup,
      setting: Option<string>, rows: seq<Row>, days: Days, others: seq<Change>, w': World, s': Session,
      helper: (string, Option<string>) -> int, nonull: bool)
    requires CryptVerifies(w.crypt) && w'.crypt == w.crypt
    requires var (done, gate) := ChangeToken(w, s, root, sp, setting);
      && gate.Admitted? && !LockedHash(Some(gate.hash))
      && s'.user == Some(gate.user) && s'.token == done.token
      && forall i :: 0 <= i < |others| ==> others[i].user != gate.user
    ensures var gate := ChangeToken(w, s, root, sp, setting).1;
      var rows' := Replay(Update(rows, Change(gate.user, gate.hash, days)), others);
      Authenticate(w', s', user => LookupIn(rows', user), helper, nonull) == (s', PAM_SUCCESS)
  {
    ChangeGate(w, s, root, sp, setting);
    var (done, gate) := ChangeToken(w, s, root, sp, setting);
    var changed := Update(rows, Change(gate.user, gate.hash, days));
    OthersReplay(changed, others, gate.user);
    UpdateLookup(rows, Change(gate.user, gate.hash, days), gate.user);
    assert w.crypt(done.token.value, gate.hash) == Some(gate.hash);
  }
}
