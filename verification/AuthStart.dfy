/** From `pam_start` to the first authentication: what a new handle looks like to it. */
module AuthStart {
  import opened PamTypes
  import opened ItemSpec
  import opened AuthSpec
  import opened AuthGate
  import Auth
  import HandleSpec

  /** The session of a new handle. */
  function Opened(service: string, user: Option<string>, conv: bool, clock: nat): Session {
    Auth.SessionOf(ItemState(HandleSpec.Started(service, user, conv, clock).items, clock), [])
  }

  /** A new handle has the user it was given and no token of either kind, and it can ask
      exactly if the application gave a conversation function. */
  lemma OpenedIs(service: string, user: Option<string>, conv: bool, clock: nat)
    ensures Opened(service, user, conv, clock) == Session(user, None, None, conv, [], clock)
  {
    HandleSpec.StartedHolds(service, user, conv, clock);
  }

  /** With the user given at the start, the user is not asked for: the first prompt is for
      the password. Without one, the first prompt is for the user. */
  lemma FirstPrompt(w: World, service: string, user: Option<string>, conv: bool, clock: nat,
                    sp: string -> Lookup, helper: (string, Option<string>) -> int, nonull: bool)
    ensures var s := Opened(service, user, conv, clock);
      && (user.Some? ==> GetUser(w, s) == (s, PAM_SUCCESS))
      && var (s', code) := Authenticate(w, s, sp, helper, nonull);
         && (!conv ==> s'.asked == [] && code != PAM_SUCCESS)
         && (conv && user.Some? && user.value != "" ==> s'.asked == [Prompt(false, "Password: ")])
         && (conv && user.Some? && user.value == "" ==> s'.asked == [] && code == PAM_USER_UNKNOWN)
         && (conv && user.None? ==> s'.asked != [] && s'.asked[0] == Prompt(true, "login: "))
  {
    OpenedIs(service, user, conv, clock);
  }

  /** Start, one answer, success: a new handle for a user lets in exactly those who answer
      its one prompt with the password. */
  lemma StartThenLogin(w: World, service: string, user: string, clock: nat, sp: string -> Lookup,
                       helper: (string, Option<string>) -> int, nonull: bool, text: Option<string>)
    requires user != "" && sp(user) != NotFound(true)
    requires w.replies(0) == Answer(text) && (text.Some? ==> !w.fails(clock))
    ensures Authenticate(w, Opened(service, Some(user), true, clock), sp, helper, nonull).1 == PAM_SUCCESS <==>
      && (OrEmpty(text) != "" || !nonull)
      && sp(user).Found? && Opens(w.crypt, OrEmpty(text), sp(user).hash)
  {
    OpenedIs(service, Some(user), true, clock);
    LoginExactly(w, Opened(service, Some(user), true, clock), sp, helper, nonull, user, text);
  }
}
