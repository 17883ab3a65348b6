/** Where authentication meets the other programs: the helper process when the caller
    cannot read the shadow table, and the concurrent password changes that write it. */
module AuthPaths {
  import opened PamTypes
  import opened Verdict
  import opened AuthSpec
  import opened AuthTheorems
  import opened ShadowRows
  import Chkpwd = ChkpwdProtocol
  import ChkpwdTheorems
  import Shadow = ShadowProtocol
  import ShadowTheorems

  /** The call gets as far as a password check, for this user with this token. */
  ghost predicate Checks(w: World, s: Session, user: string, token: Option<string>) {
    var (s1, userCode) := GetUser(w, s);
    var (s2, tokenCode) := GetToken(w, s1, PASSWORD);
    && userCode == PAM_SUCCESS && s1.user == Some(user) && user != ""
    && tokenCode == PAM_SUCCESS && s2.token == token
  }

  /** Where the table can be read, the code is the direct verdict on the token. */
  lemma DirectPath(w: World, s: Session, user: string, token: Option<string>, sp: string -> Lookup,
                   helper: (string, Option<string>) -> int, nonull: bool)
    requires Checks(w, s, user, token) && sp(user) != NotFound(true)
    ensures Authenticate(w, s, sp, helper, nonull).1 == DirectVerdict(w.crypt, sp(user), token, nonull)
  {
  }

  /** Where it cannot, the code is the helper's answer, except that a forbidden empty token
      is refused without asking it. */
  lemma DeniedPath(w: World, s: Session, user: string, token: Option<string>, sp: string -> Lookup,
                   helper: (string, Option<string>) -> int, nonull: bool)
    requires Checks(w, s, user, token) && sp(user) == NotFound(true)
    ensures Authenticate(w, s, sp, helper, nonull).1 ==
      if OrEmpty(token) == "" && nonull then PAM_AUTH_ERR else helper(user, token)
  {
  }

  /** The helper's side of a call. */
  function ConfigFor(w: World, user: string, token: Option<string>, nonull: bool, limit: nat,
                     readable: string -> Lookup): Chkpwd.Config
  {
    Chkpwd.Config(limit, token, nonull, w.crypt, readable(user), true, true)
  }

  /** A helper that answers this. */
  function Always(code: int): (string, Option<string>) -> int {
    (user, pass) => code
  }

  /** A permitted caller who cannot read the table gets, in every interleaving with the
      helper, the code that a caller who can read it gets, if and only if the token is
      shorter than the helper's buffer, or is refused both whole and truncated. */
  lemma PathsAgreeIff(w: World, s: Session, user: string, token: Option<string>, readable: string -> Lookup,
                      denied: string -> Lookup, nonull: bool, limit: nat)
    requires Checks(w, s, user, token) && readable(user) != NotFound(true) && denied(user) == NotFound(true)
    requires Chkpwd.NoNul(OrEmpty(token))
    ensures var cfg := ConfigFor(w, user, token, nonull, limit, readable);
      var direct := Authenticate(w, s, readable, Always(PAM_SYSTEM_ERR), nonull).1;
      (forall code :: Chkpwd.CanAnswer(Some(user), cfg, code) ==>
         Authenticate(w, s, denied, Always(code), nonull).1 == direct)
      <==>
      || |OrEmpty(token)| < limit
      || (direct == PAM_AUTH_ERR && ChkpwdTheorems.SentVerdict(cfg) == PAM_AUTH_ERR)
  {
    var cfg := ConfigFor(w, user, token, nonull, limit, readable);
    DirectPath(w, s, user, token, readable, Always(PAM_SYSTEM_ERR), nonull);
    forall code
      ensures Authenticate(w, s, denied, Always(code), nonull).1 ==
        if OrEmpty(token) == "" && nonull then PAM_AUTH_ERR else code
    {
      DeniedPath(w, s, user, token, denied, Always(code), nonull);
    }
    ChkpwdTheorems.AgreementIff(Some(user), cfg);
    var direct := DirectVerdict(w.crypt, readable(user), token, nonull);
    if OrEmpty(token) == "" && nonull {
      assert direct == PAM_AUTH_ERR && ChkpwdTheorems.SentVerdict(cfg) == PAM_AUTH_ERR;
    }
  }

  // ------------------------------------------------------ with concurrent changes

  /** The last change for a user decides its hash, whatever follows for others. */
  lemma {:induction false} LastHashIs(rows: seq<Row>, changes: seq<Change>, i: nat)
    requires i < |changes| && forall j :: i < j < |changes| ==> changes[j].user != changes[i].user
    ensures LastHash(rows, changes, changes[i].user) == Some(changes[i].hash)
    decreases |changes|
  {
    if i < |changes| - 1 { LastHashIs(rows, changes[..|changes| - 1], i); }
  }

  /** In every state that interleaved, failing and dying password changes can reach, a
      handle with this token for this user authenticates if and only if the token verifies
      against the hash of the user's last committed change. */
  lemma {:induction false} CommittedHashDecides(rows: seq<Row>, shadow: Shadow.State, w: World, s: Session,
      user: string, token: Option<string>, helper: (string, Option<string>) -> int, nonull: bool)
    requires Shadow.Reachable(rows, shadow) && Checks(w, s, user, token)
    ensures var last := LastHash(rows, Shadow.Changes(shadow.commits), user);
      Authenticate(w, s, u => LookupIn(Shadow.Current(shadow), u), helper, nonull).1 == PAM_SUCCESS <==>
      last.Some? && VerifyHash(w.crypt, token, last) == PAM_SUCCESS && (OrEmpty(token) != "" || !nonull)
  {
    ShadowTheorems.LastWriterWins(rows, shadow, user);
    DirectPath(w, s, user, token, u => LookupIn(Shadow.Current(shadow), u), helper, nonull);
  }

  /** From the gate to the table and back: when an admitted change is among the committed
      ones and no later one is for the same user, its token lets any handle for that user
      in, in that state. */
  lemma {:induction false} CommittedChangeAuthenticates(rows: seq<Row>, shadow: Shadow.State, i: nat,
      w: World, s: Session, root: bool, sp: string -> Lookup, setting: Option<string>,
      w': World, s': Session, helper: (string, Option<string>) -> int, nonull: bool)
    requires Shadow.Reachable(rows, shadow) && i < |shadow.commits|
    requires forall j :: i < j < |shadow.commits| ==>
      shadow.commits[j].change.user != shadow.commits[i].change.user
    requires CryptVerifies(w.crypt) && w'.crypt == w.crypt
    requires var (done, gate) := ChangeToken(w, s, root, sp, setting);
      && gate.Admitted? && !LockedHash(Some(gate.hash))
      && shadow.commits[i].change.user == gate.user && shadow.commits[i].change.hash == gate.hash
      && Checks(w', s', gate.user, done.token)
    ensures Authenticate(w', s', u => LookupIn(Shadow.Current(shadow), u), helper, nonull).1 == PAM_SUCCESS
  {
    ChangeGate(w, s, root, sp, setting);
    var (done, gate) := ChangeToken(w, s, root, sp, setting);
    var changes := Shadow.Changes(shadow.commits);
    LastHashIs(rows, changes, i);
    assert w.crypt(done.token.value, gate.hash) == Some(gate.hash);
    CommittedHashDecides(rows, shadow, w', s', gate.user, done.token, helper, nonull);
  }
}
