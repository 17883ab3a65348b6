/** Exactly when a password change is admitted, and what it and a refused one leave
    behind: told by the replies and allocations that the calls will meet, in order. */
module AuthGate {
  import opened PamTypes
  import opened Verdict
  import opened AuthSpec
  import ItemSpec

  // ------------------------------------------------------------------- one text

  /** A text that is there, or else the answer to the next prompt, if it can be copied. */
  predicate Supplied(w: World, s: Session, held: Option<string>, text: Option<string>) {
    if held.Some? then text == held
    else s.conversation && w.replies(|s.asked|) == Answer(text) && (text.Some? ==> !w.fails(s.clock))
  }

  /** What supplying a text costs: a prompt if it is missing, and an allocation to copy
      the answer. */
  function Told(s: Session, held: Option<string>, text: Option<string>, p: Prompt): Session {
    if held.Some? then s
    else s.(asked := s.asked + [p], clock := s.clock + (if text.Some? then 1 else 0))
  }

  /** One prompt: an answer is handed on and a refusal's own code is passed through; a
      missing response and a refusal that claims success are conversation errors. */
  lemma AskCode(w: World, s: Session, p: Prompt)
    ensures var (s', code, answer) := Ask(w, s, p);
      var reply := w.replies(|s.asked|);
      && s' == s.(asked := if s.conversation then s.asked + [p] else s.asked)
      && (code == PAM_SUCCESS <==> s.conversation && reply.Answer?)
      && (code == PAM_SUCCESS ==> reply == Answer(answer))
      && (code != PAM_SUCCESS ==>
           code == if s.conversation && reply.Refused? && reply.code != PAM_SUCCESS then reply.code else PAM_CONV_ERR)
  {
  }

  /** A missing text is obtained if and only if it is answered and can be copied. */
  lemma ObtainIff(w: World, s: Session, p: Prompt, text: Option<string>)
    ensures Supplied(w, s, None, text) <==> Obtain(w, s, p) == (Told(s, None, text, p), PAM_SUCCESS, text)
    ensures var (s', code, value) := Obtain(w, s, p);
      && (code == PAM_SUCCESS ==> Supplied(w, s, None, value))
      && (code != PAM_SUCCESS && s.conversation && w.replies(|s.asked|).Answer? ==> code == PAM_BUF_ERR)
      && (code != PAM_SUCCESS && !w.replies(|s.asked|).Answer? ==> code == Ask(w, s, p).1)
  {
  }

  // ------------------------------------------------------------------- who may change

  function WithUser(s: Session, user: string): Session {
    Told(s, s.user, Some(user), LOGIN).(user := Some(user))
  }

  function WithOld(s: Session, root: bool, former: Option<string>): Session {
    if root then s else Told(s, s.oldToken, former, CURRENT).(oldToken := former)
  }

  function WithToken(s: Session, token: string): Session {
    Told(s, s.token, Some(token), NEW).(token := Some(token))
  }

  lemma UserIff(w: World, s: Session, user: string)
    ensures Supplied(w, s, s.user, Some(user)) ==> GetUser(w, s) == (WithUser(s, user), PAM_SUCCESS)
    ensures GetUser(w, s).1 == PAM_SUCCESS && GetUser(w, s).0.user == Some(user) ==>
      Supplied(w, s, s.user, Some(user))
  {
  }

  /** The old token counts for callers who are not root; root needs none, and no row. */
  predicate OldOpens(w: World, s: Session, root: bool, found: Lookup, former: Option<string>) {
    || root
    || (found.Found? && Supplied(w, s, s.oldToken, former)
        && VerifyHash(w.crypt, former, found.hash) == PAM_SUCCESS)
  }

  lemma OldIff(w: World, s: Session, root: bool, found: Lookup, former: Option<string>)
    ensures OldOpens(w, s, root, found, former) ==>
      CheckOldToken(w, s, root, found) == (WithOld(s, root, former), PAM_SUCCESS)
    ensures var (s', code) := CheckOldToken(w, s, root, found);
      code == PAM_SUCCESS && s'.oldToken == former ==> OldOpens(w, s, root, found, former)
  {
  }

  /** A new token that is not empty, and the same again for the retype prompt. */
  predicate Retyped(w: World, s: Session, token: string) {
    && token != "" && Supplied(w, s, s.token, Some(token))
    && s.conversation && w.replies(|WithToken(s, token).asked|) == Answer(Some(token))
  }

  lemma RetypedIff(w: World, s: Session, token: string)
    ensures Retyped(w, s, token) ==>
      var s' := WithToken(s, token);
      ConfirmToken(w, s) == (s'.(asked := s'.asked + [RETYPE]), PAM_SUCCESS)
    ensures ConfirmToken(w, s).1 == PAM_SUCCESS && ConfirmToken(w, s).0.token == Some(token) ==> Retyped(w, s, token)
    ensures ConfirmToken(w, s).1 == PAM_SUCCESS ==> ConfirmToken(w, s).0.token.Some?
  {
    AskCode(w, GetToken(w, s, NEW).0, RETYPE);
  }

  /** What an admitted change was told. */
  predicate Admits(w: World, s: Session, root: bool, sp: string -> Lookup, setting: Option<string>,
                   user: string, former: Option<string>, token: string)
  {
    var s1 := WithUser(s, user);
    var s2 := WithOld(s1, root, former);
    && user != "" && Supplied(w, s, s.user, Some(user))
    && OldOpens(w, s1, root, sp(user), former)
    && Retyped(w, s2, token)
    && setting.Some? && w.crypt(token, setting.value).Some? && !w.fails(WithToken(s2, token).clock)
  }

  /** A change told these things is admitted, with the hash of the new token; exactly what
      was missing has been asked for and then the retype. For root the row need not exist. */
  lemma AdmittedExactly(w: World, s: Session, root: bool, sp: string -> Lookup, setting: Option<string>,
                        user: string, former: Option<string>, token: string)
    requires Admits(w, s, root, sp, setting, user, former, token)
    ensures var s' := WithToken(WithOld(WithUser(s, user), root, former), token);
      ChangeToken(w, s, root, sp, setting) ==
        (s'.(asked := s'.asked + [RETYPE], clock := s'.clock + 1),
         Admitted(user, w.crypt(token, setting.value).value))
  {
    UserIff(w, s, user);
    OldIff(w, WithUser(s, user), root, sp(user), former);
    RetypedIff(w, WithOld(WithUser(s, user), root, former), token);
  }

  /** And no other change is admitted. */
  lemma AdmittedTold(w: World, s: Session, root: bool, sp: string -> Lookup, setting: Option<string>)
    returns (user: string, former: Option<string>, token: string)
    requires ChangeToken(w, s, root, sp, setting).1.Admitted?
    ensures Admits(w, s, root, sp, setting, user, former, token)
  {
    var (s1, _) := GetUser(w, s);
    user := s1.user.value;
    UserIff(w, s, user);
    var (s2, _) := CheckOldToken(w, s1, root, sp(user));
    former := s2.oldToken;
    OldIff(w, s1, root, sp(user), former);
    var (s3, _) := ConfirmToken(w, s2);
    RetypedIff(w, s2, OrEmpty(s3.token));
    token := s3.token.value;
  }

  /** When a change is admitted. */
  lemma AdmittedIff(w: World, s: Session, root: bool, sp: string -> Lookup, setting: Option<string>)
    ensures ChangeToken(w, s, root, sp, setting).1.Admitted? <==>
      exists user, former, token :: Admits(w, s, root, sp, setting, user, former, token)
  {
    if ChangeToken(w, s, root, sp, setting).1.Admitted? {
      var user, former, token := AdmittedTold(w, s, root, sp, setting);
    }
    forall user, former, token | Admits(w, s, root, sp, setting, user, former, token)
      ensures ChangeToken(w, s, root, sp, setting).1.Admitted?
    {
      AdmittedExactly(w, s, root, sp, setting, user, former, token);
    }
  }

  // ------------------------------------------------------------------- refusals

  /** Without a user there is no change: what stopped the prompt is the code, and an empty
      name is unknown. */
  lemma UserRefusals(w: World, s: Session, root: bool, sp: string -> Lookup, setting: Option<string>)
    ensures var (s1, code) := GetUser(w, s);
      && (code != PAM_SUCCESS ==> ChangeToken(w, s, root, sp, setting) == (s1, Denied(code)))
      && (code == PAM_SUCCESS && OrEmpty(s1.user) == "" ==>
            ChangeToken(w, s, root, sp, setting) == (s1, Denied(PAM_USER_UNKNOWN)))
  {
  }

  /** Were the token obtained not the item itself, it would pass without a retype. */
  lemma OtherPointer(w: World, s: Session)
    ensures Confirm(w, s, false).0 == s
    ensures Confirm(w, s, false).1 == PAM_SUCCESS <==> s.token.Some? && s.token.value != ""
  {
  }

  /** Only the two tokens can be asked for. */
  lemma OtherItem(w: World, s: Session, item: int, prompt: Option<string>)
    requires item != ItemSpec.PAM_AUTHTOK && item != ItemSpec.PAM_OLDAUTHTOK
    ensures GetAuthtok(w, s, item, prompt) == (s, PAM_SYSTEM_ERR)
  {
  }

  /** For a caller who is not root, a missing row ends the change before any password is
      asked for, and an old token that does not open the row ends it with the code of the
      check and nothing more asked; that token stays. */
  lemma OldTokenRefusals(w: World, s: Session, sp: string -> Lookup, setting: Option<string>,
                         user: string, former: Option<string>)
    requires user != "" && Supplied(w, s, s.user, Some(user))
    ensures var s1 := WithUser(s, user);
      && (sp(user).NotFound? ==> ChangeToken(w, s, false, sp, setting) == (s1, Denied(PAM_USER_UNKNOWN)))
      && (sp(user).Found? && Supplied(w, s1, s1.oldToken, former)
          && VerifyHash(w.crypt, former, sp(user).hash) != PAM_SUCCESS ==>
            ChangeToken(w, s, false, sp, setting) ==
              (WithOld(s1, false, former), Denied(VerifyHash(w.crypt, former, sp(user).hash))))
  {
    UserIff(w, s, user);
  }

  /** The new token was supplied, but the retype was answered with something else: the
      token is dropped. Or it is empty and was confirmed: it stays. */
  lemma NewTokenRefusals(w: World, s: Session, root: bool, found: Lookup, setting: Option<string>, user: string,
                         former: Option<string>, token: Option<string>, again: Option<string>)
    requires OldOpens(w, s, root, found, former)
    requires var s1 := WithOld(s, root, former);
      && Supplied(w, s1, s1.token, token) && s.conversation
      && w.replies(|Told(s1, s1.token, token, NEW).asked|) == Answer(again)
    ensures var s1 := WithOld(s, root, former);
      var s2 := Told(s1, s1.token, token, NEW).(token := token);
      var asked := s2.(asked := s2.asked + [RETYPE]);
      && (OrEmpty(token) != OrEmpty(again) ==>
            ChangeFor(w, s, user, root, found, setting) == (asked.(token := None), Denied(PAM_AUTHTOK_ERR)))
      && (OrEmpty(token) == OrEmpty(again) == "" ==>
            ChangeFor(w, s, user, root, found, setting) == (asked, Denied(PAM_AUTHTOK_ERR)))
  {
    OldIff(w, s, root, found, former);
    var s1 := WithOld(s, root, former);
    assert GetToken(w, s1, NEW) == (Told(s1, s1.token, token, NEW).(token := token), PAM_SUCCESS);
  }

  /** Without a hash that could be copied a confirmed token is refused, and stays. */
  lemma HashRefused(w: World, s: Session, root: bool, found: Lookup, setting: Option<string>, user: string,
                    former: Option<string>, token: string)
    requires OldOpens(w, s, root, found, former) && Retyped(w, WithOld(s, root, former), token)
    requires setting.None? || w.crypt(token, setting.value).None?
      || w.fails(WithToken(WithOld(s, root, former), token).clock)
    ensures var (s', gate) := ChangeFor(w, s, user, root, found, setting);
      gate == Denied(PAM_AUTHTOK_ERR) && s'.token == Some(token)
  {
    OldIff(w, s, root, found, former);
    RetypedIff(w, WithOld(s, root, former), token);
  }

  // ------------------------------------------------------------------- logging in

  /** The stored hash can be matched and this password matches it. */
  predicate Opens(crypt: Crypt, password: string, hash: Option<string>) {
    && hash.Some? && hash.value != "" && hash.value[0] != '!' && hash.value[0] != '*'
    && crypt(password, hash.value) == hash
  }

  /** The code of an authentication that gets as far as a user and a token. */
  predicate LoginCode(w: World, found: Lookup, helper: (string, Option<string>) -> int, nonull: bool,
                      user: string, token: Option<string>, code: int)
  {
    if OrEmpty(token) == "" && nonull then code == PAM_AUTH_ERR
    else if found == NotFound(true) then code == helper(user, token)
    else if found == NotFound(false) then code == PAM_USER_UNKNOWN
    else
      && (code == PAM_SUCCESS <==> Opens(w.crypt, OrEmpty(token), found.hash))
      && (code == PAM_AUTHINFO_UNAVAIL <==>
            && found.hash.Some? && found.hash.value != "" && found.hash.value[0] != '!' && found.hash.value[0] != '*'
            && w.crypt(OrEmpty(token), found.hash.value) == None)
      && (code == PAM_SUCCESS || code == PAM_AUTHINFO_UNAVAIL || code == PAM_AUTH_ERR)
  }

  /** What an authentication that is told a user and a token does: it asks for what is
      missing, and keeps the token only after a success against the table. */
  lemma LoginExactly(w: World, s: Session, sp: string -> Lookup, helper: (string, Option<string>) -> int,
                     nonull: bool, user: string, token: Option<string>)
    requires user != "" && Supplied(w, s, s.user, Some(user))
    requires var s1 := WithUser(s, user); Supplied(w, s1, s1.token, token)
    ensures var s1 := WithUser(s, user);
      var (s', code) := Authenticate(w, s, sp, helper, nonull);
      && LoginCode(w, sp(user), helper, nonull, user, token, code)
      && s' == Told(s1, s1.token, token, PASSWORD).(
                 token := if code == PAM_SUCCESS && sp(user).Found? then token else None)
  {
    UserIff(w, s, user);
    var s1 := WithUser(s, user);
    assert GetToken(w, s1, PASSWORD) == (Told(s1, s1.token, token, PASSWORD).(token := token), PAM_SUCCESS);
  }

  /** And any other ends before the check: with what stopped the missing text, or, for an
      empty user name, "user unknown" and the token dropped. */
  lemma LoginStopped(w: World, s: Session, sp: string -> Lookup, helper: (string, Option<string>) -> int,
                     nonull: bool)
    ensures var (s1, code1) := GetUser(w, s);
      var (s', code) := Authenticate(w, s, sp, helper, nonull);
      && (code1 != PAM_SUCCESS ==> (s', code) == (s1, code1))
      && (code1 == PAM_SUCCESS && OrEmpty(s1.user) == "" ==> (s', code) == (s1.(token := None), PAM_USER_UNKNOWN))
      && (code1 == PAM_SUCCESS && OrEmpty(s1.user) != "" && GetToken(w, s1, PASSWORD).1 != PAM_SUCCESS ==>
            (s', code) == GetToken(w, s1, PASSWORD))
  {
  }
}
