/** The password checks themselves, without the handle and without the pipe. */
module Verdict {
  import opened PamTypes

  /** Check a password against one stored hash. */
  function VerifyHash(crypt: Crypt, pass: Option<string>, hash: Option<string>): int {
    if LockedHash(hash) then PAM_AUTH_ERR
    else
      match crypt(OrEmpty(pass), hash.value)
      case None => PAM_AUTHINFO_UNAVAIL
      case Some(computed) => if computed == hash.value then PAM_SUCCESS else PAM_AUTH_ERR
  }

  /** What the code tells the caller: success is a usable hash that `crypt` reproduces,
      "unavailable" a usable hash that `crypt` cannot be computed for, and an authentication
      error a locked hash or a different one. */
  lemma VerifyHashIff(crypt: Crypt, pass: Option<string>, hash: Option<string>)
    ensures var code := VerifyHash(crypt, pass, hash);
      var usable := hash.Some? && hash.value != "" && hash.value[0] != '!' && hash.value[0] != '*';
      && (code == PAM_SUCCESS <==> usable && crypt(OrEmpty(pass), hash.value) == hash)
      && (code == PAM_AUTHINFO_UNAVAIL <==> usable && crypt(OrEmpty(pass), hash.value) == None)
      && (code == PAM_SUCCESS || code == PAM_AUTHINFO_UNAVAIL || code == PAM_AUTH_ERR)
  {
  }

  /** Where the helper does not get as far as a hash. */
  lemma HelperEarly(crypt: Crypt, sp: Lookup, permitted: bool, nonull: bool, pass: string)
    ensures var code := HelperVerdict(crypt, sp, permitted, nonull, pass);
      && (!permitted || (nonull && pass == "") ==> code == PAM_AUTH_ERR)
      && (permitted && !(nonull && pass == "") && sp == NotFound(true) ==> code == PAM_AUTHINFO_UNAVAIL)
      && (permitted && !(nonull && pass == "") && sp == NotFound(false) ==> code == PAM_USER_UNKNOWN)
  {
  }

  /** The verdict of a process that could read the shadow table itself. */
  function DirectVerdict(crypt: Crypt, sp: Lookup, pass: Option<string>, nonull: bool): int {
    if OrEmpty(pass) == "" && nonull then PAM_AUTH_ERR
    else
      match sp
      case NotFound(_) => PAM_USER_UNKNOWN
      case Found(hash) => VerifyHash(crypt, pass, hash)
  }

  /** The exit status of the helper's `main`, given the password it has read. */
  function HelperVerdict(crypt: Crypt, sp: Lookup, permitted: bool, nonull: bool, pass: string): int {
    if !permitted then PAM_AUTH_ERR
    else if nonull && pass == "" then PAM_AUTH_ERR
    else
      match sp
      case NotFound(denied) => if denied then PAM_AUTHINFO_UNAVAIL else PAM_USER_UNKNOWN
      case Found(hash) =>
        if LockedHash(hash) then PAM_AUTH_ERR
        else
          var computed := crypt(pass, hash.value);
          if computed.None? then PAM_AUTHINFO_UNAVAIL
          else if computed.value != hash.value then PAM_AUTH_ERR
          else PAM_SUCCESS
  }
}
