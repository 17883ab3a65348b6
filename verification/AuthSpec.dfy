/** Authentication and password change on one handle, as functions of the handle's
    user, tokens and conversation, against arbitrary replies and allocations. */
module AuthSpec {
  import opened PamTypes
  import opened Verdict
  import ItemSpec

  datatype Prompt = Prompt(echo: bool, text: string)

  /** What the application's conversation function does with one prompt. A refusal hands
      over no response. */
  datatype Reply = Refused(code: int) | NoResponse | Answer(text: Option<string>)

  /** The part of a handle these operations use, and what they have asked so far. */
  datatype Session = Session(
    user: Option<string>,
    token: Option<string>,
    oldToken: Option<string>,
    conversation: bool,      // a conversation function is set
    asked: seq<Prompt>,
    clock: nat               // allocation requests made so far
  )

  datatype World = World(replies: nat -> Reply, fails: nat -> bool, crypt: Crypt)

  const LOGIN := Prompt(true, "login: ")
  const PASSWORD := Prompt(false, "Password: ")
  const CURRENT := Prompt(false, "Current password: ")
  const NEW := Prompt(false, "New password: ")
  const RETYPE := Prompt(false, "Retype new password: ")

  /** A prompt given by the caller, or the default. */
  function PromptFor(given: Option<string>, default: Prompt): Prompt {
    if given.Some? then Prompt(default.echo, given.value) else default
  }

  /** `ask`: the answer is there only when the code is success. */
  function Ask(w: World, s: Session, p: Prompt): (Session, int, Option<string>) {
    if !s.conversation then (s, PAM_CONV_ERR, None)
    else
      var s' := s.(asked := s.asked + [p]);
      match w.replies(|s.asked|)
      case Refused(code) => (s', if code == PAM_SUCCESS then PAM_CONV_ERR else code, None)
      case NoResponse => (s', PAM_CONV_ERR, None)
      case Answer(text) => (s', PAM_SUCCESS, text)
  }

  /** Result of copying an answer into an empty item. */
  function StoreAnswer(w: World, clock: nat, answer: Option<string>): (int, nat) {
    if answer.None? then (PAM_SUCCESS, clock)
    else if w.fails(clock) then (PAM_BUF_ERR, clock + 1)
    else (PAM_SUCCESS, clock + 1)
  }

  /** Ask for a missing item and store the answer; the value is what the item then holds. */
  function Obtain(w: World, s: Session, p: Prompt): (Session, int, Option<string>) {
    var (s1, code, answer) := Ask(w, s, p);
    if code != PAM_SUCCESS then (s1, code, None)
    else
      var (stored, clock) := StoreAnswer(w, s1.clock, answer);
      (s1.(clock := clock), stored, if stored == PAM_SUCCESS then answer else None)
  }

  /** `pam_get_user`. */
  function GetUser(w: World, s: Session): (Session, int) {
    if s.user.Some? then (s, PAM_SUCCESS)
    else var (s1, code, value) := Obtain(w, s, LOGIN); (s1.(user := value), code)
  }

  /** `pam_get_authtok` for the current token. */
  function GetToken(w: World, s: Session, p: Prompt): (Session, int) {
    if s.token.Some? then (s, PAM_SUCCESS)
    else var (s1, code, value) := Obtain(w, s, p); (s1.(token := value), code)
  }

  /** `pam_get_authtok` for the old token. */
  function GetOldToken(w: World, s: Session, p: Prompt): (Session, int) {
    if s.oldToken.Some? then (s, PAM_SUCCESS)
    else var (s1, code, value) := Obtain(w, s, p); (s1.(oldToken := value), code)
  }

  /** `pam_get_authtok`. */
  function GetAuthtok(w: World, s: Session, item: int, prompt: Option<string>): (Session, int) {
    if item == ItemSpec.PAM_AUTHTOK then GetToken(w, s, PromptFor(prompt, PASSWORD))
    else if item == ItemSpec.PAM_OLDAUTHTOK then GetOldToken(w, s, PromptFor(prompt, CURRENT))
    else (s, PAM_SYSTEM_ERR)
  }

  /** `pam_authenticate`. `sp` is what `getspnam` finds, `helper` what the helper process
      would answer. Every failure after the user is known drops the token, and so does
      the helper's success. */
  function Authenticate(w: World, s: Session, sp: string -> Lookup, helper: (string, Option<string>) -> int,
                        nonull: bool): (Session, int) {
    var (s1, userCode) := GetUser(w, s);
    if userCode != PAM_SUCCESS then (s1, userCode)
    else if OrEmpty(s1.user) == "" then (s1.(token := None), PAM_USER_UNKNOWN)
    else
      var found := sp(s1.user.value);
      var (s2, tokenCode) := GetToken(w, s1, PASSWORD);
      if tokenCode != PAM_SUCCESS then (s2, tokenCode)
      else if OrEmpty(s2.token) == "" && nonull then (s2.(token := None), PAM_AUTH_ERR)
      else
        match found
        case NotFound(denied) =>
          (s2.(token := None), if denied then helper(s1.user.value, s2.token) else PAM_USER_UNKNOWN)
        case Found(hash) =>
          var code := VerifyHash(w.crypt, s2.token, hash);
          if code == PAM_SUCCESS then (s2, code) else (s2.(token := None), code)
  }

  /** How a password change ends before the shadow table is touched. */
  datatype Gate = Denied(code: int) | Admitted(user: string, hash: string)

  /** The check of the caller's identity: root, or someone who knows the old password. */
  function CheckOldToken(w: World, s: Session, root: bool, found: Lookup): (Session, int) {
    if root then (s, PAM_SUCCESS)
    else
      match found
      case NotFound(_) => (s, PAM_USER_UNKNOWN)
      case Found(hash) =>
        var (s1, code) := GetOldToken(w, s, CURRENT);
        (s1, if code != PAM_SUCCESS then code else VerifyHash(w.crypt, s1.oldToken, hash))
  }

  /** The retype prompt; a different answer drops the token. */
  function Retype(w: World, s: Session): (Session, int) {
    var (s1, code, again) := Ask(w, s, RETYPE);
    if code == PAM_SUCCESS && OrEmpty(s1.token) != OrEmpty(again) then (s1.(token := None), PAM_AUTHTOK_ERR)
    else (s1, code)
  }

  /** The confirmation of a new token, which must not be empty. It is asked for if the
      token is the item itself. */
  function Confirm(w: World, s: Session, same: bool): (Session, int) {
    var (s1, code) := if same then Retype(w, s) else (s, PAM_SUCCESS);
    (s1, if code == PAM_SUCCESS && OrEmpty(s1.token) == "" then PAM_AUTHTOK_ERR else code)
  }

  /** The new token and its confirmation, which is always asked for: the token obtained
      is the item itself, as `Auth.ConfirmToken` shows of the pointers. */
  function ConfirmToken(w: World, s: Session): (Session, int) {
    var (s1, code) := GetToken(w, s, NEW);
    if code == PAM_SUCCESS then Confirm(w, s1, true) else (s1, code)
  }

  /** `hash_password`: `setting` is None when no random bytes could be read; the result
      is copied, which may fail. */
  function HashToken(w: World, s: Session, setting: Option<string>): (Session, Option<string>)
    requires s.token.Some?
  {
    if setting.None? then (s, None)
    else
      var hash := w.crypt(s.token.value, setting.value);
      if hash.None? then (s, None)
      else (s.(clock := s.clock + 1), if w.fails(s.clock) then None else hash)
  }

  /** Who may change the token, and the new token. */
  function AdmitToken(w: World, s: Session, root: bool, found: Lookup): (Session, int) {
    var (s1, code) := CheckOldToken(w, s, root, found);
    if code != PAM_SUCCESS then (s1, code) else ConfirmToken(w, s1)
  }

  /** A password change for a known user. */
  function ChangeFor(w: World, s: Session, user: string, root: bool, found: Lookup, setting: Option<string>)
    : (Session, Gate)
  {
    var (s1, code) := AdmitToken(w, s, root, found);
    if code != PAM_SUCCESS then (s1, Denied(code))
    else
      var (s2, hash) := HashToken(w, s1, setting);
      (s2, if hash.None? then Denied(PAM_AUTHTOK_ERR) else Admitted(user, hash.value))
  }

  /** `pam_chauthtok` up to the call of `update_shadow_password`. */
  function ChangeToken(w: World, s: Session, root: bool, sp: string -> Lookup, setting: Option<string>)
    : (Session, Gate)
  {
    var (s1, userCode) := GetUser(w, s);
    if userCode != PAM_SUCCESS then (s1, Denied(userCode))
    else if OrEmpty(s1.user) == "" then (s1, Denied(PAM_USER_UNKNOWN))
    else ChangeFor(w, s1, s1.user.value, root, sp(s1.user.value), setting)
  }
}
