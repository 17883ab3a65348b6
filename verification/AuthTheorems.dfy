/** What a handle remembers between authentications and password changes, and what
    reaches the shadow table. */
module AuthTheorems {
  import opened PamTypes
  import opened Verdict
  import opened AuthSpec
  import opened ShadowRows

  /** After the user is known, a token is left on the handle exactly when the call
      succeeded against the shadow table with a non-null token; it is then the token
      that verified. */
  lemma TokenRetained(w: World, s: Session, sp: string -> Lookup, helper: (string, Option<string>) -> int, nonull: bool)
    requires GetUser(w, s).1 == PAM_SUCCESS
    ensures var (s', code) := Authenticate(w, s, sp, helper, nonull);
      && (s'.token.Some? ==>
           && code == PAM_SUCCESS && s'.user.Some? && s'.user.value != "" && sp(s'.user.value).Found?
           && var hash := sp(s'.user.value).hash;
              !LockedHash(hash) && w.crypt(s'.token.value, hash.value) == hash)
      && (s'.user.Some? && s'.user.value != "" && sp(s'.user.value).NotFound? ==> s'.token == None)
      && (code != PAM_SUCCESS ==> s'.token == None)
      && (code == PAM_SUCCESS && sp(s'.user.value).Found? ==>
           s'.token == GetToken(w, GetUser(w, s).0, PASSWORD).0.token)
  {
  }

  /** After a direct success with a token, asking again succeeds without a prompt and
      changes nothing, whatever the conversation or the allocator would do. */
  lemma SuccessRepeats(w: World, w': World, s: Session, sp: string -> Lookup,
                       helper: (string, Option<string>) -> int, nonull: bool)
    requires w'.crypt == w.crypt
    requires var (s', code) := Authenticate(w, s, sp, helper, nonull);
      code == PAM_SUCCESS && s'.token.Some?
    ensures var s' := Authenticate(w, s, sp, helper, nonull).0;
      Authenticate(w', s', sp, helper, nonull) == (s', PAM_SUCCESS)
  {
    if GetUser(w, s).1 == PAM_SUCCESS { TokenRetained(w, s, sp, helper, nonull); }
  }

  /** After any other outcome for a known user, the next attempt asks for the password,
      once. */
  lemma FailureAsksAgain(w: World, w': World, s: Session, sp: string -> Lookup, sp': string -> Lookup,
                         helper: (string, Option<string>) -> int, nonull: bool)
    requires s.conversation && GetUser(w, s).1 == PAM_SUCCESS
    requires var (s', code) := Authenticate(w, s, sp, helper, nonull);
      && OrEmpty(s'.user) != ""
      && (code != PAM_SUCCESS || sp(s'.user.value).NotFound?)
    ensures var s' := Authenticate(w, s, sp, helper, nonull).0;
      Authenticate(w', s', sp', helper, nonull).0.asked == s'.asked + [PASSWORD]
  {
    TokenRetained(w, s, sp, helper, nonull);
  }

  // ------------------------------------------------------------------ password change

  /** A call only adds to the list of prompts. */
  ghost predicate Extends(asked: seq<Prompt>, asked': seq<Prompt>) {
    |asked| <= |asked'| && asked'[..|asked|] == asked
  }

  lemma ObtainExtends(w: World, s: Session, p: Prompt)
    ensures Extends(s.asked, Obtain(w, s, p).0.asked)
  {
  }

  lemma OldTokenGate(w: World, s: Session, root: bool, found: Lookup)
    requires CheckOldToken(w, s, root, found).1 == PAM_SUCCESS
    ensures var s' := CheckOldToken(w, s, root, found).0;
      && s'.user == s.user && Extends(s.asked, s'.asked)
      && (root || (found.Found? && VerifyHash(w.crypt, s'.oldToken, found.hash) == PAM_SUCCESS))
  {
    ObtainExtends(w, s, CURRENT);
  }

  lemma ConfirmGate(w: World, s: Session)
    requires ConfirmToken(w, s).1 == PAM_SUCCESS
    ensures var s' := ConfirmToken(w, s).0;
      && s'.user == s.user && s'.oldToken == s.oldToken
      && s'.token.Some? && s'.token.value != ""
      && Extends(s.asked, s'.asked) && |s'.asked| > |s.asked|
      && s'.asked[|s'.asked| - 1] == RETYPE
      && w.replies(|s'.asked| - 1) == Answer(s'.token)
  {
    ObtainExtends(w, s, NEW);
  }

  /** No change reaches the shadow table unless the new token is non-empty, the last
      prompt of this very call was the retype prompt and was answered with that token,
      and the caller is root or the old token verified against a usable hash. The hash
      that goes on is that token's. */
  lemma ChangeGate(w: World, s: Session, root: bool, sp: string -> Lookup, setting: Option<string>)
    requires ChangeToken(w, s, root, sp, setting).1.Admitted?
    ensures var (s', gate) := ChangeToken(w, s, root, sp, setting);
      && s'.user == Some(gate.user) && gate.user != ""
      && s'.token.Some? && s'.token.value != ""
      && Extends(s.asked, s'.asked) && |s'.asked| > |s.asked|
      && s'.asked[|s'.asked| - 1] == RETYPE
      && w.replies(|s'.asked| - 1) == Answer(s'.token)
      && (root || (sp(gate.user).Found? && VerifyHash(w.crypt, s'.oldToken, sp(gate.user).hash) == PAM_SUCCESS))
      && setting.Some? && w.crypt(s'.token.value, setting.value) == Some(gate.hash)
  {
    ObtainExtends(w, s, LOGIN);
    var (s1, _) := GetUser(w, s);
    OldTokenGate(w, s1, root, sp(s1.user.value));
    var (s2, _) := CheckOldToken(w, s1, root, sp(s1.user.value));
    ConfirmGate(w, s2);
    assert s2.asked[..|s.asked|] == s1.asked[..|s.asked|];
  }

  /** Unlike the current token, the old token survives a failed check: once it is on the
      handle and wrong, every later change on that handle is denied with the same code
      and without any prompt, until the stored hash changes. */
  lemma WrongOldTokenSticks(w: World, w': World, s: Session, sp: string -> Lookup,
                            setting: Option<string>, setting': Option<string>, hash: Option<string>)
    requires w'.crypt == w.crypt && s.user.Some? && s.user.value != "" && sp(s.user.value) == Found(hash)
    requires VerifyHash(w.crypt, GetOldToken(w, s, CURRENT).0.oldToken, hash) != PAM_SUCCESS
    requires GetOldToken(w, s, CURRENT).0.oldToken.Some?
    ensures var (s', gate) := ChangeToken(w, s, false, sp, setting);
      && gate.Denied? && gate.code == VerifyHash(w.crypt, s'.oldToken, hash)
      && ChangeToken(w', s', false, sp, setting') == (s', gate)
  {
  }

  /** The old password is asked for if and only if the handle holds none, whatever
      happened before; and the check passes if and only if what the handle then holds
      verifies. */
  lemma OldTokenAskedIff(w: World, s: Session, hash: Option<string>)
    requires s.conversation
    ensures var (s', code) := CheckOldToken(w, s, false, Found(hash));
      && (s'.asked == s.asked + [CURRENT] <==> s.oldToken == None)
      && (s'.asked == s.asked <==> s.oldToken.Some?)
      && (s.oldToken.Some? ==>
           s' == s && (code == PAM_SUCCESS <==> VerifyHash(w.crypt, s.oldToken, hash) == PAM_SUCCESS))
  {
    assert |s.asked + [CURRENT]| != |s.asked|;
  }

  /** A new password is asked for if and only if the handle holds no current token: a
      verified one, an empty one and a refused one are all taken without asking. */
  lemma NewTokenAskedIff(w: World, s: Session)
    requires s.conversation
    ensures var asked := ConfirmToken(w, s).0.asked;
      && s.asked <= asked && |asked| > |s.asked|
      && (asked[|s.asked|] == NEW <==> s.token == None)
      && (asked == s.asked + [RETYPE] <==> s.token.Some?)
  {
    if s.token == None { assert ConfirmToken(w, s).0.asked[|s.asked|] == NEW; }
  }

  lemma CheckKeepsOldToken(w: World, s: Session, root: bool, found: Lookup)
    ensures s.oldToken.Some? ==> CheckOldToken(w, s, root, found).0 == s
  {
  }

  lemma ConfirmKeepsOldToken(w: World, s: Session)
    ensures ConfirmToken(w, s).0.oldToken == s.oldToken
  {
  }

  /** No call ever takes an old token off the handle, and authentication never puts one
      there. */
  lemma OldTokenStays(w: World, s: Session, sp: string -> Lookup, helper: (string, Option<string>) -> int,
                      nonull: bool, root: bool, setting: Option<string>)
    ensures Authenticate(w, s, sp, helper, nonull).0.oldToken == s.oldToken
    ensures s.oldToken.Some? ==> ChangeToken(w, s, root, sp, setting).0.oldToken == s.oldToken
  {
    var (s1, _) := GetUser(w, s);
    if s.oldToken.Some? && OrEmpty(s1.user) != "" {
      CheckKeepsOldToken(w, s1, root, sp(s1.user.value));
      ConfirmKeepsOldToken(w, s1);
    }
  }

  /** After a successful direct authentication no new password is asked for: a change on
      the same handle asks for the old password, if it needs one and has none, and for the
      retype, and can only set the password that was just verified. */
  lemma ChangeAfterAuthenticateKeepsPassword(w: World, s: Session, sp: string -> Lookup,
      helper: (string, Option<string>) -> int, nonull: bool, w': World, root: bool, sp': string -> Lookup,
      setting: Option<string>)
    requires var (s1, code) := Authenticate(w, s, sp, helper, nonull); code == PAM_SUCCESS && s1.token.Some?
    requires var s1 := Authenticate(w, s, sp, helper, nonull).0;
      ChangeToken(w', s1, root, sp', setting).1.Admitted?
    ensures var s1 := Authenticate(w, s, sp, helper, nonull).0;
      var s2 := ChangeToken(w', s1, root, sp', setting).0;
      && s2.token == s1.token
      && s2.asked == s1.asked + (if root || s1.oldToken.Some? then [] else [CURRENT]) + [RETYPE]
  {
    if GetUser(w, s).1 == PAM_SUCCESS { TokenRetained(w, s, sp, helper, nonull); }
    var s1 := Authenticate(w, s, sp, helper, nonull).0;
    AdmittedPrompts(w', s1, root, sp', setting);
  }

  /** The prompts of an admitted change on a handle that knows its user and has a token. */
  lemma AdmittedPrompts(w: World, s: Session, root: bool, sp: string -> Lookup, setting: Option<string>)
    requires s.user.Some? && s.token.Some? && ChangeToken(w, s, root, sp, setting).1.Admitted?
    ensures var s' := ChangeToken(w, s, root, sp, setting).0;
      && s'.token == s.token
      && s'.asked == s.asked + (if root || s.oldToken.Some? then [] else [CURRENT]) + [RETYPE]
  {
    var (s1, _) := CheckOldToken(w, s, root, sp(s.user.value));
    assert s1.asked == s.asked + (if root || s.oldToken.Some? then [] else [CURRENT]);
    assert s1.token == s.token;
  }

  /** An empty new token stays on the handle: a later call does not ask for another one
      and is denied; only a retype that differs from it clears it. */
  lemma EmptyNewTokenSticks(w: World, s: Session, root: bool, sp: string -> Lookup, setting: Option<string>)
    requires s.token == Some("")
    ensures var (s', gate) := ChangeToken(w, s, root, sp, setting);
      && gate.Denied?
      && (s'.token == Some("") || (s'.token == None && gate.code == PAM_AUTHTOK_ERR))
      && (forall i :: |s.asked| <= i < |s'.asked| ==> s'.asked[i] != NEW)
  {
    var (s1, _) := GetUser(w, s);
    assert forall i :: |s.asked| <= i < |s1.asked| ==> s1.asked[i] == LOGIN;
    if s1.user.Some? {
      var (s2, _) := CheckOldToken(w, s1, root, sp(s1.user.value));
      assert forall i :: |s1.asked| <= i < |s2.asked| ==> s2.asked[i] == CURRENT;
      ConfirmEmpty(w, s2);
    }
  }

  lemma ConfirmEmpty(w: World, s: Session)
    requires s.token == Some("")
    ensures var (s', code) := ConfirmToken(w, s);
      && code != PAM_SUCCESS
      && (s'.token == Some("") || (s'.token == None && code == PAM_AUTHTOK_ERR))
      && s.asked <= s'.asked
      && (forall i :: |s.asked| <= i < |s'.asked| ==> s'.asked[i] == RETYPE)
  {
  }

  // ------------------------------------------------- change, then authenticate

  /** An empty token is cleared exactly by a retype that is answered with something else. */
  lemma EmptyTokenClearedIff(w: World, s: Session)
    requires s.token == Some("")
    ensures ConfirmToken(w, s).0.token == None <==>
      s.conversation && w.replies(|s.asked|).Answer? && OrEmpty(w.replies(|s.asked|).text) != ""
  {
  }

  /** After an admitted change has been written, whoever supplies the new password is
      let in: the handle that made the change without any prompt, and any other handle
      for that user that has the token or is given it. The table the gate was checked
      against, before the lock was taken, need not be the one that is updated. */
  lemma {:induction false} ChangeThenAuthenticate(w: World, s: Session, root: bool, sp: string -> Lookup,
      setting: Option<string>, rows: seq<Row>, days: Days, w': World, s': Session,
      helper: (string, Option<string>) -> int, nonull: bool)
    requires CryptVerifies(w.crypt) && w'.crypt == w.crypt
    requires var (done, gate) := ChangeToken(w, s, root, sp, setting);
      && gate.Admitted? && !LockedHash(Some(gate.hash)) && s'.user == Some(gate.user)
      && (s'.token == done.token || WillSupply(w', s', done.token))
    ensures var (done, gate) := ChangeToken(w, s, root, sp, setting);
      var rows' := Update(rows, Change(gate.user, gate.hash, days));
      var (after, code) := Authenticate(w', s', user => LookupIn(rows', user), helper, nonull);
      && code == PAM_SUCCESS && after.token == done.token
      && (s'.token.Some? ==> after == s')
  {
    ChangeGate(w, s, root, sp, setting);
    var (done, gate) := ChangeToken(w, s, root, sp, setting);
    UpdateLookup(rows, Change(gate.user, gate.hash, days), gate.user);
    assert w.crypt(done.token.value, gate.hash) == Some(gate.hash);
  }

  /** The handle has no token, and the next prompt is answered with this one. */
  predicate WillSupply(w: World, s: Session, token: Option<string>) {
    s.token == None && s.conversation && w.replies(|s.asked|) == Answer(token) && !w.fails(s.clock)
  }

  /** No other user's verdict changes. */
  lemma OthersUnaffected(rows: seq<Row>, c: Change, w: World, s: Session,
                         helper: (string, Option<string>) -> int, nonull: bool)
    requires GetUser(w, s).0.user != Some(c.user)
    ensures Authenticate(w, s, user => LookupIn(Update(rows, c), user), helper, nonull) ==
      Authenticate(w, s, user => LookupIn(rows, user), helper, nonull)
  {
    var s1 := GetUser(w, s).0;
    if s1.user.Some? { UpdateLookup(rows, c, s1.user.value); }
  }
}
