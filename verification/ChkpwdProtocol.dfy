/** `run_unix_chkpwd` and its helper process as two interleaved programs joined by a
    pipe. A write to a pipe whose reader is gone fails; other writes are complete. A
    `reliable` configuration has no other failure than interrupted calls; an unreliable
    one may also fail to make the pipe, to fork or to start the helper, fail to write,
    read or wait, or see the helper killed. */
module ChkpwdProtocol {
  import opened PamTypes
  import opened Verdict

  const NUL: char := '\0'

  datatype Config = Config(
    limit: nat,            // PAM_MAX_RESP_SIZE
    pass: Option<string>,
    nonull: bool,
    crypt: Crypt,
    shadow: Lookup,        // what the helper sees
    permitted: bool,       // the caller is root or the user being checked
    reliable: bool
  )

  datatype ParentPc =
    | Writing       // write of the password next
    | Terminating   // write of the terminator next
    | Closing
    | Waiting
    | Done(code: int)

  datatype HelperPc =
    | Starting      // dup2, setuid, execve
    | Checking      // main up to caller_may_check_user
    | Reading
    | Deciding
    | Exited(status: int)
    | Killed

  datatype State = State(
    parent: ParentPc,
    helper: HelperPc,
    pipe: string,      // written and not yet read
    sent: string,      // everything written
    taken: string,     // everything read
    buf: string,       // the helper's password buffer
    failed: bool,      // a write failed
    readFailed: bool
  )

  datatype Action =
    | WriteAll | WriteFails | CloseEnd | WaitInterrupted | Reap | WaitFails
    | Exec | StartFails | Check | ReadByte | ReadEof | ReadInterrupted | ReadFails | Decide | Kill

  ghost predicate NoNul(s: string) {
    forall i :: 0 <= i < |s| ==> s[i] != NUL
  }

  ghost predicate Legal(cfg: Config) {
    NoNul(OrEmpty(cfg.pass))
  }

  /** The part of the password that is sent. */
  function Truncated(cfg: Config): string {
    var pass := OrEmpty(cfg.pass);
    if |pass| > cfg.limit then pass[..cfg.limit] else pass
  }

  /** What the parent writes next. */
  function Outgoing(cfg: Config, s: State): string {
    if s.parent.Writing? then Truncated(cfg) else [NUL]
  }

  predicate Alive(s: State) {
    !s.helper.Exited? && !s.helper.Killed?
  }

  predicate WriterOpen(s: State) {
    s.parent.Writing? || s.parent.Terminating? || s.parent.Closing?
  }

  predicate Enabled(cfg: Config, s: State, a: Action) {
    match a
    case WriteAll => (s.parent.Writing? || s.parent.Terminating?) && (Alive(s) || Outgoing(cfg, s) == "")
    case WriteFails => (s.parent.Writing? || s.parent.Terminating?)
      && ((!Alive(s) && Outgoing(cfg, s) != "") || !cfg.reliable)
    case CloseEnd => s.parent.Closing?
    case WaitInterrupted => s.parent.Waiting?
    case Reap => s.parent.Waiting? && !Alive(s)
    case WaitFails => s.parent.Waiting? && !cfg.reliable
    case Exec => s.helper.Starting?
    case StartFails => s.helper.Starting? && !cfg.reliable
    case Check => s.helper.Checking?
    case ReadByte => s.helper.Reading? && s.pipe != ""
    case ReadEof => s.helper.Reading? && s.pipe == "" && !WriterOpen(s)
    case ReadInterrupted => s.helper.Reading?
    case ReadFails => s.helper.Reading? && !cfg.reliable
    case Decide => s.helper.Deciding?
    case Kill => Alive(s) && !cfg.reliable
  }

  /** The read loop continues while there is room for another character. */
  function AfterRead(cfg: Config, buf: string): HelperPc {
    if |buf| < cfg.limit then Reading else Deciding
  }

  function Apply(cfg: Config, s: State, a: Action): State
    requires Enabled(cfg, s, a)
  {
    match a
    case WriteAll =>
      var data := Outgoing(cfg, s);
      s.(parent := if s.parent.Writing? then Terminating else Closing,
         pipe := s.pipe + data, sent := s.sent + data)
    case WriteFails => s.(parent := Closing, failed := true)
    case CloseEnd => s.(parent := Waiting)
    case WaitInterrupted => s
    case Reap =>
      var code := if s.helper.Killed? || s.failed then PAM_AUTH_ERR else s.helper.status % 256;
      s.(parent := Done(code))
    case WaitFails => s.(parent := Done(PAM_AUTH_ERR))
    case Exec => s.(helper := Checking)
    case StartFails => s.(helper := Exited(PAM_AUTHINFO_UNAVAIL))
    case Check => s.(helper := if cfg.permitted then AfterRead(cfg, s.buf) else Exited(PAM_AUTH_ERR))
    case ReadByte =>
      var c := s.pipe[0];
      var s' := s.(pipe := s.pipe[1..], taken := s.taken + [c]);
      if c == NUL then s'.(helper := Deciding)
      else s'.(buf := s.buf + [c], helper := AfterRead(cfg, s.buf + [c]))
    case ReadEof => s.(helper := Deciding)
    case ReadInterrupted => s
    case ReadFails => s.(helper := Deciding, buf := "", readFailed := true)
    case Decide => s.(helper := Exited(HelperVerdict(cfg.crypt, cfg.shadow, cfg.permitted, cfg.nonull, s.buf)))
    case Kill => s.(helper := Killed)
  }

  function Boot(cfg: Config): State {
    State(if cfg.pass.None? then Terminating else Writing, Starting, "", "", "", "", false, false)
  }

  predicate ValidRun(cfg: Config, s: State, actions: seq<Action>)
    decreases |actions|
  {
    actions != [] ==> Enabled(cfg, s, actions[0]) && ValidRun(cfg, Apply(cfg, s, actions[0]), actions[1..])
  }

  function Run(cfg: Config, s: State, actions: seq<Action>): State
    requires ValidRun(cfg, s, actions)
    decreases |actions|
  {
    if actions == [] then s else Run(cfg, Apply(cfg, s, actions[0]), actions[1..])
  }

  ghost predicate Reachable(cfg: Config, s: State) {
    exists actions :: ValidRun(cfg, Boot(cfg), actions) && Run(cfg, Boot(cfg), actions) == s
  }

  /** Once both processes run, the parent can return `code`. */
  ghost predicate CanReturn(cfg: Config, code: int) {
    exists s :: Reachable(cfg, s) && s.parent == Done(code)
  }

  /** `run_unix_chkpwd` can return `code`: it refuses a missing user name, and needs a pipe
      and a second process. */
  ghost predicate CanAnswer(user: Option<string>, cfg: Config, code: int) {
    if OrEmpty(user) == "" then code == PAM_USER_UNKNOWN
    else (code == PAM_AUTHINFO_UNAVAIL && !cfg.reliable) || CanReturn(cfg, code)
  }

  // ---------------------------------------------------------------- invariant

  /** Bytes are neither lost nor invented: what was written is what was read followed
      by what is still in the pipe. */
  ghost predicate Conserved(s: State) {
    s.taken + s.pipe == s.sent
  }

  ghost predicate ParentInv(cfg: Config, s: State) {
    var p := Truncated(cfg);
    match s.parent
    case Writing => s.sent == "" && !s.failed
    case Terminating => s.sent == p && !s.failed
    case _ => if s.failed then s.sent == "" || s.sent == p else s.sent == p + [NUL]
  }

  /** The helper has stopped reading: it holds the whole truncated password, having
      consumed the terminator unless the buffer was full; or the parent gave up. */
  ghost predicate ReadComplete(cfg: Config, s: State) {
    var p := Truncated(cfg);
    && cfg.permitted
    && if s.readFailed then s.buf == "" && !cfg.reliable
       else
         || (s.buf == p && s.taken == p + [NUL])
         || (s.buf == p && s.taken == p && |p| == cfg.limit)
         || (s.failed && !cfg.reliable && s.buf == s.taken == s.sent)
  }

  ghost predicate HelperInv(cfg: Config, s: State) {
    match s.helper
    case Starting => s.taken == "" && s.buf == "" && !s.readFailed
    case Checking => s.taken == "" && s.buf == "" && !s.readFailed
    case Reading => cfg.permitted && s.buf == s.taken && NoNul(s.buf) && |s.buf| < cfg.limit && !s.readFailed
    case Deciding => ReadComplete(cfg, s)
    case Exited(status) =>
      || (status == PAM_AUTHINFO_UNAVAIL && !cfg.reliable)
      || (status == PAM_AUTH_ERR && !cfg.permitted)
      || (ReadComplete(cfg, s)
          && status == HelperVerdict(cfg.crypt, cfg.shadow, cfg.permitted, cfg.nonull, s.buf))
    case Killed => !cfg.reliable
  }

  /** A finished parent reports the helper's status unless something went wrong. */
  ghost predicate ResultInv(cfg: Config, s: State) {
    s.parent.Done? ==>
      || (s.parent.code == PAM_AUTH_ERR && (s.failed || !cfg.reliable))
      || (!s.failed && s.helper.Exited? && s.parent.code == s.helper.status)
  }

  ghost predicate Inv(cfg: Config, s: State) {
    && Conserved(s) && ParentInv(cfg, s) && HelperInv(cfg, s) && ResultInv(cfg, s)
    && (cfg.reliable && s.failed ==> s.helper.Exited?)
  }

  lemma TruncatedFits(cfg: Config)
    requires Legal(cfg)
    ensures |Truncated(cfg)| <= cfg.limit && NoNul(Truncated(cfg))
    ensures |OrEmpty(cfg.pass)| <= cfg.limit ==> Truncated(cfg) == OrEmpty(cfg.pass)
  {
  }

  /** A proper start of `p` and its terminator that shows no terminator is a start of `p`. */
  lemma StartOf(p: string, taken: string, rest: string, sent: string)
    requires NoNul(p) && taken + rest == sent && (sent == "" || sent == p || sent == p + [NUL])
    ensures |taken| <= |p| ==> taken == p[..|taken|]
    ensures NoNul(taken) <==> |taken| <= |p|
    ensures |taken| > |p| ==> taken == p + [NUL]
  {
    assert taken == sent[..|taken|];
    if |taken| > |p| { assert taken[|p|] == NUL; }
  }

  lemma BootInv(cfg: Config)
    requires Legal(cfg)
    ensures Inv(cfg, Boot(cfg))
  {
  }

  lemma ReadByteConserves(cfg: Config, s: State)
    requires Conserved(s) && Enabled(cfg, s, ReadByte)
    ensures Conserved(Apply(cfg, s, ReadByte))
  {
    assert [s.pipe[0]] + s.pipe[1..] == s.pipe;
  }

  lemma ReadByteHelper(cfg: Config, s: State)
    requires Legal(cfg) && Conserved(s) && ParentInv(cfg, s) && HelperInv(cfg, s) && Enabled(cfg, s, ReadByte)
    ensures HelperInv(cfg, Apply(cfg, s, ReadByte))
  {
    var p, s' := Truncated(cfg), Apply(cfg, s, ReadByte);
    TruncatedFits(cfg);
    ReadByteConserves(cfg, s);
    StartOf(p, s.taken, s.pipe, s.sent);
    StartOf(p, s'.taken, s'.pipe, s'.sent);
    if s.pipe[0] == NUL {
      assert s'.taken[|s.taken|] == NUL;
      assert s'.taken == p + [NUL];
    } else {
      assert NoNul(s'.taken);
      if |s'.buf| == cfg.limit { assert p[..|p|] == p; }
    }
  }

  lemma ReadByteInv(cfg: Config, s: State)
    requires Legal(cfg) && Inv(cfg, s) && Enabled(cfg, s, ReadByte)
    ensures Inv(cfg, Apply(cfg, s, ReadByte))
  {
    ReadByteConserves(cfg, s);
    ReadByteHelper(cfg, s);
  }

  lemma ReadEofInv(cfg: Config, s: State)
    requires Legal(cfg) && Inv(cfg, s) && Enabled(cfg, s, ReadEof)
    ensures Inv(cfg, Apply(cfg, s, ReadEof))
  {
    var p := Truncated(cfg);
    assert s.taken == s.sent;
    TruncatedFits(cfg);
    StartOf(p, s.taken, s.pipe, s.sent);
  }

  lemma ReapInv(cfg: Config, s: State)
    requires Legal(cfg) && Inv(cfg, s) && Enabled(cfg, s, Reap)
    ensures Inv(cfg, Apply(cfg, s, Reap))
  {
  }

  lemma OtherInv(cfg: Config, s: State, a: Action)
    requires Legal(cfg) && Inv(cfg, s) && Enabled(cfg, s, a)
    requires a != ReadByte && a != ReadEof && a != Reap
    ensures Inv(cfg, Apply(cfg, s, a))
  {
    TruncatedFits(cfg);
    var s' := Apply(cfg, s, a);
    if a == WriteAll {
      assert s'.taken + s'.pipe == (s.taken + s.pipe) + Outgoing(cfg, s);
    }
  }

  lemma StepInv(cfg: Config, s: State, a: Action)
    requires Legal(cfg) && Inv(cfg, s) && Enabled(cfg, s, a)
    ensures Inv(cfg, Apply(cfg, s, a))
  {
    match a
    case ReadByte => ReadByteInv(cfg, s);
    case ReadEof => ReadEofInv(cfg, s);
    case Reap => ReapInv(cfg, s);
    case _ => OtherInv(cfg, s, a);
  }

  lemma {:induction false} RunInv(cfg: Config, s: State, actions: seq<Action>)
    requires Legal(cfg) && Inv(cfg, s) && ValidRun(cfg, s, actions)
    ensures Inv(cfg, Run(cfg, s, actions))
    decreases |actions|
  {
    if actions != [] {
      StepInv(cfg, s, actions[0]);
      RunInv(cfg, Apply(cfg, s, actions[0]), actions[1..]);
    }
  }

  lemma ReachableInv(cfg: Config, s: State)
    requires Legal(cfg) && Reachable(cfg, s)
    ensures Inv(cfg, s)
  {
    var actions :| ValidRun(cfg, Boot(cfg), actions) && Run(cfg, Boot(cfg), actions) == s;
    BootInv(cfg);
    RunInv(cfg, Boot(cfg), actions);
  }
}
