/** Return codes of the PAM library and the few values every other module needs.
    A code is the integer the library returns; its position in the library's own
    message table gives the number. */
module PamTypes {
  datatype Option<+T> = None | Some(value: T)

  const PAM_SUCCESS := 0
  const PAM_SYSTEM_ERR := 4
  const PAM_BUF_ERR := 5
  const PAM_AUTH_ERR := 7
  const PAM_AUTHINFO_UNAVAIL := 9
  const PAM_USER_UNKNOWN := 10
  const PAM_NO_MODULE_DATA := 18
  const PAM_CONV_ERR := 19
  const PAM_AUTHTOK_ERR := 20
  const PAM_AUTHTOK_LOCK_BUSY := 22
  const PAM_BAD_ITEM := 29

  /** The text a nullable C string stands for where the library writes `s ? s : ""`. */
  function OrEmpty(s: Option<string>): string {
    match s
    case Some(text) => text
    case None => ""
  }

  /** `crypt(key, setting)`: some function; `None` is its NULL result. */
  type Crypt = (string, string) -> Option<string>

  /** A hash produced by `crypt` verifies the key it was made from. */
  ghost predicate CryptVerifies(crypt: Crypt) {
    forall key, setting :: crypt(key, setting).Some? ==>
      crypt(key, crypt(key, setting).value) == crypt(key, setting)
  }

  /** A hash that no password can match: missing, empty, or starting with '!' or '*'. */
  predicate LockedHash(hash: Option<string>) {
    hash.None? || hash.value == "" || hash.value[0] == '!' || hash.value[0] == '*'
  }

  /** What `getspnam` answers: a record (whose hash pointer may be NULL), or no
      record with `errno` being EACCES or something else. */
  datatype Lookup = Found(hash: Option<string>) | NotFound(accessDenied: bool)
}
