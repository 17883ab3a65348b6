/** Every interleaving of the parent and the password helper: what the parent's answer
    can be, when it is exactly the answer of a direct check, and that it always comes. */
module ChkpwdTheorems {
  import opened PamTypes
  import opened Verdict
  import opened ChkpwdProtocol

  /** The helper decides as the direct check does, if it may and can look. */
  lemma HelperAgreesWithDirect(crypt: Crypt, sp: Lookup, nonull: bool, pass: Option<string>)
    requires sp != NotFound(true)
    ensures HelperVerdict(crypt, sp, true, nonull, OrEmpty(pass)) == DirectVerdict(crypt, sp, pass, nonull)
  {
  }

  function SentVerdict(cfg: Config): int {
    HelperVerdict(cfg.crypt, cfg.shadow, cfg.permitted, cfg.nonull, Truncated(cfg))
  }

  /** With no failure other than interruptions, the answer is the helper's verdict on
      the truncated password; for a password that fills the helper's buffer the parent
      may instead fail to deliver the terminator and answer "authentication error". */
  lemma AnswerIsVerdict(cfg: Config, code: int)
    requires Legal(cfg) && cfg.reliable && CanReturn(cfg, code)
    ensures code == SentVerdict(cfg) || (code == PAM_AUTH_ERR && |OrEmpty(cfg.pass)| >= cfg.limit)
  {
    var s :| Reachable(cfg, s) && s.parent == Done(code);
    ReachableInv(cfg, s);
    TruncatedFits(cfg);
    assert s.helper.Exited? && HelperInv(cfg, s);
    if s.failed && cfg.permitted {
      assert |s.taken| <= |s.sent|;
    }
  }

  /** Success is never invented: whatever fails on the way, the parent reports success
      only if the helper's main did, for a permitted caller, on the truncated password
      (or, after a read error in the helper, on the empty one). */
  lemma SuccessComesFromHelper(cfg: Config, s: State)
    requires Legal(cfg) && Reachable(cfg, s) && s.parent == Done(PAM_SUCCESS)
    ensures s.helper == Exited(PAM_SUCCESS) && cfg.permitted && (s.readFailed ==> !cfg.reliable)
    ensures s.buf == (if s.readFailed then "" else Truncated(cfg))
    ensures HelperVerdict(cfg.crypt, cfg.shadow, cfg.permitted, cfg.nonull, s.buf) == PAM_SUCCESS
    ensures cfg.shadow.Found? && !LockedHash(cfg.shadow.hash)
      && cfg.crypt(s.buf, cfg.shadow.hash.value) == cfg.shadow.hash
  {
    ReachableInv(cfg, s);
    assert HelperInv(cfg, s);
  }

  /** The same for the whole function: success needs a user, a permitted caller, and a
      usable hash that the truncated password reproduces, or the empty one if a read failed. */
  lemma AnsweredSuccess(user: Option<string>, cfg: Config)
    requires Legal(cfg) && CanAnswer(user, cfg, PAM_SUCCESS)
    ensures OrEmpty(user) != "" && cfg.permitted && cfg.shadow.Found?
    ensures VerifyHash(cfg.crypt, Some(Truncated(cfg)), cfg.shadow.hash) == PAM_SUCCESS
      || (!cfg.reliable && VerifyHash(cfg.crypt, Some(""), cfg.shadow.hash) == PAM_SUCCESS)
  {
    var s :| Reachable(cfg, s) && s.parent == Done(PAM_SUCCESS);
    SuccessComesFromHelper(cfg, s);
  }

  // --------------------------------------------------------------- both answers occur

  lemma {:induction false} RunExtends(cfg: Config, s: State, actions: seq<Action>, a: Action)
    requires ValidRun(cfg, s, actions) && Enabled(cfg, Run(cfg, s, actions), a)
    ensures ValidRun(cfg, s, actions + [a])
    ensures Run(cfg, s, actions + [a]) == Apply(cfg, Run(cfg, s, actions), a)
    decreases |actions|
  {
    if actions == [] {
      assert (actions + [a])[1..] == [];
    } else {
      assert (actions + [a])[1..] == actions[1..] + [a];
      RunExtends(cfg, Apply(cfg, s, actions[0]), actions[1..], a);
    }
  }

  lemma Step(cfg: Config, s: State, a: Action) returns (t: State)
    requires Reachable(cfg, s) && Enabled(cfg, s, a)
    ensures Reachable(cfg, t) && t == Apply(cfg, s, a)
  {
    var actions :| ValidRun(cfg, Boot(cfg), actions) && Run(cfg, Boot(cfg), actions) == s;
    RunExtends(cfg, Boot(cfg), actions, a);
    t := Apply(cfg, s, a);
    assert Run(cfg, Boot(cfg), actions + [a]) == t;
  }

  lemma BootReachable(cfg: Config)
    ensures Reachable(cfg, Boot(cfg))
  {
    assert ValidRun(cfg, Boot(cfg), []) && Run(cfg, Boot(cfg), []) == Boot(cfg);
  }

  /** The helper, left alone, reads what has been written up to its terminator or to
      the size of its buffer. */
  lemma {:induction false} Drain(cfg: Config, s: State, tail: string) returns (t: State)
    requires Legal(cfg) && Reachable(cfg, s) && cfg.permitted
    requires s.helper == AfterRead(cfg, s.buf) && |s.buf| <= |Truncated(cfg)|
    requires s.buf == Truncated(cfg)[..|s.buf|] && s.pipe == Truncated(cfg)[|s.buf|..] + tail
    requires tail == [NUL] || (tail == "" && |Truncated(cfg)| == cfg.limit)
    ensures Reachable(cfg, t) && t.helper == Deciding && t.buf == Truncated(cfg)
    ensures t.parent == s.parent && t.failed == s.failed
    decreases |s.pipe|
  {
    TruncatedFits(cfg);
    if s.helper.Deciding? {
      t := s;
    } else {
      var s' := Step(cfg, s, ReadByte);
      if |s.buf| == |Truncated(cfg)| {
        t := s';
      } else {
        assert Truncated(cfg)[|s.buf|..] == [Truncated(cfg)[|s.buf|]] + Truncated(cfg)[|s.buf| + 1..];
        t := Drain(cfg, s', tail);
      }
    }
  }

  lemma WritePassword(cfg: Config) returns (s: State)
    requires Legal(cfg)
    ensures Reachable(cfg, s) && s == Boot(cfg).(parent := Terminating, pipe := Truncated(cfg), sent := Truncated(cfg))
  {
    BootReachable(cfg);
    s := Boot(cfg);
    if cfg.pass.Some? { s := Step(cfg, s, WriteAll); }
  }

  lemma RunHelper(cfg: Config, s: State, tail: string) returns (t: State)
    requires Legal(cfg) && cfg.permitted && Reachable(cfg, s)
    requires s.helper == Starting && s.buf == "" && s.pipe == Truncated(cfg) + tail
    requires tail == [NUL] || (tail == "" && |Truncated(cfg)| == cfg.limit)
    ensures Reachable(cfg, t) && t.parent == s.parent && t.failed == s.failed
    ensures t.helper == Exited(SentVerdict(cfg))
  {
    t := Step(cfg, s, Exec);
    t := Step(cfg, t, Check);
    t := Drain(cfg, t, tail);
    t := Step(cfg, t, Decide);
  }

  lemma VerdictFitsStatus(cfg: Config)
    ensures 0 <= SentVerdict(cfg) < 256
  {
  }

  /** The verdict is always a possible answer. */
  lemma CanAnswerVerdict(cfg: Config)
    requires Legal(cfg) && cfg.permitted
    ensures CanReturn(cfg, SentVerdict(cfg))
  {
    var s := WritePassword(cfg);
    s := Step(cfg, s, WriteAll);
    s := Step(cfg, s, CloseEnd);
    s := RunHelper(cfg, s, [NUL]);
    VerdictFitsStatus(cfg);
    s := Step(cfg, s, Reap);
    assert s.parent == Done(SentVerdict(cfg));
  }

  /** When the password fills the helper's buffer, the helper may exit before the
      terminator is written, and even the right password is refused. */
  lemma CanRefuseLongPassword(cfg: Config)
    requires Legal(cfg) && cfg.permitted && |OrEmpty(cfg.pass)| >= cfg.limit
    ensures CanReturn(cfg, PAM_AUTH_ERR)
  {
    var s := WritePassword(cfg);
    assert Truncated(cfg) + "" == Truncated(cfg);
    s := RunHelper(cfg, s, "");
    s := Step(cfg, s, WriteFails);
    s := Step(cfg, s, CloseEnd);
    s := Step(cfg, s, Reap);
    assert s.parent == Done(PAM_AUTH_ERR);
  }

  /** The helper's verdict on the empty password. */
  function EmptyVerdict(cfg: Config): int {
    HelperVerdict(cfg.crypt, cfg.shadow, cfg.permitted, cfg.nonull, "")
  }

  /** A helper whose read fails tries the empty password. */
  lemma CanAnswerEmptyVerdict(cfg: Config)
    requires Legal(cfg) && cfg.permitted && !cfg.reliable
    requires EmptyVerdict(cfg) == PAM_SUCCESS
    ensures CanReturn(cfg, PAM_SUCCESS)
  {
    if cfg.limit == 0 {
      CanAnswerVerdict(cfg);
    } else {
      var s := WritePassword(cfg);
      s := Step(cfg, s, WriteAll);
      s := Step(cfg, s, CloseEnd);
      s := Step(cfg, s, Exec);
      s := Step(cfg, s, Check);
      s := Step(cfg, s, ReadFails);
      s := Step(cfg, s, Decide);
      s := Step(cfg, s, Reap);
      assert s.parent == Done(PAM_SUCCESS);
    }
  }

  /** Success is a possible answer exactly for a named user, a permitted caller, and a
      truncated password that the helper accepts, or an empty one if a read may fail. */
  lemma SuccessPossibleIff(user: Option<string>, cfg: Config)
    requires Legal(cfg)
    ensures CanAnswer(user, cfg, PAM_SUCCESS) <==>
      && OrEmpty(user) != "" && cfg.permitted
      && (SentVerdict(cfg) == PAM_SUCCESS || (!cfg.reliable && EmptyVerdict(cfg) == PAM_SUCCESS))
  {
    if CanAnswer(user, cfg, PAM_SUCCESS) {
      var s :| Reachable(cfg, s) && s.parent == Done(PAM_SUCCESS);
      SuccessComesFromHelper(cfg, s);
    } else if OrEmpty(user) != "" && cfg.permitted {
      if SentVerdict(cfg) == PAM_SUCCESS { CanAnswerVerdict(cfg); }
      if !cfg.reliable && EmptyVerdict(cfg) == PAM_SUCCESS { CanAnswerEmptyVerdict(cfg); }
    }
  }

  /** Without a user name nothing is started and the user is unknown; where calls can fail,
      "unavailable" is always a possible answer for a user. */
  lemma AnswerEdges(user: Option<string>, cfg: Config, code: int)
    ensures OrEmpty(user) == "" ==> (CanAnswer(user, cfg, code) <==> code == PAM_USER_UNKNOWN)
    ensures OrEmpty(user) != "" && !cfg.reliable ==> CanAnswer(user, cfg, PAM_AUTHINFO_UNAVAIL)
  {
  }

  /** `run_unix_chkpwd` always answers exactly as the direct check would. */
  ghost predicate AlwaysAgrees(user: Option<string>, cfg: Config) {
    forall code :: CanAnswer(user, cfg, code) ==> code == DirectVerdict(cfg.crypt, cfg.shadow, cfg.pass, cfg.nonull)
  }

  /** The two checks agree in every interleaving exactly when the password is shorter
      than the limit; beyond it they agree only on passwords that are wrong both in full
      and truncated. */
  lemma AgreementIff(user: Option<string>, cfg: Config)
    requires OrEmpty(user) != "" && Legal(cfg) && cfg.reliable && cfg.permitted && cfg.shadow != NotFound(true)
    ensures AlwaysAgrees(user, cfg) <==>
      || |OrEmpty(cfg.pass)| < cfg.limit
      || (DirectVerdict(cfg.crypt, cfg.shadow, cfg.pass, cfg.nonull) == PAM_AUTH_ERR
          && SentVerdict(cfg) == PAM_AUTH_ERR)
  {
    HelperAgreesWithDirect(cfg.crypt, cfg.shadow, cfg.nonull, cfg.pass);
    TruncatedFits(cfg);
    forall code | CanReturn(cfg, code)
      ensures code == SentVerdict(cfg) || (code == PAM_AUTH_ERR && |OrEmpty(cfg.pass)| >= cfg.limit)
    {
      AnswerIsVerdict(cfg, code);
    }
    CanAnswerVerdict(cfg);
    assert CanAnswer(user, cfg, SentVerdict(cfg));
    if |OrEmpty(cfg.pass)| >= cfg.limit {
      CanRefuseLongPassword(cfg);
      assert CanAnswer(user, cfg, PAM_AUTH_ERR);
    }
  }

  // ------------------------------------------------------------------- an answer comes

  function ParentLeft(pc: ParentPc): nat {
    match pc
    case Writing => 4
    case Terminating => 3
    case Closing => 2
    case Waiting => 1
    case Done(_) => 0
  }

  function HelperLeft(cfg: Config, s: State): nat {
    match s.helper
    case Starting => cfg.limit + 4
    case Checking => cfg.limit + 3
    case Reading => (if |s.buf| <= cfg.limit then cfg.limit - |s.buf| else 0) + 2
    case Deciding => 1
    case _ => 0
  }

  predicate Interruption(a: Action) {
    a == WaitInterrupted || a == ReadInterrupted
  }

  function StepsLeft(cfg: Config, s: State): nat {
    ParentLeft(s.parent) + HelperLeft(cfg, s)
  }

  lemma StepUsesUp(cfg: Config, s: State, a: Action)
    requires Enabled(cfg, s, a) && !Interruption(a) && (s.helper.Reading? ==> |s.buf| < cfg.limit)
    requires s.helper.Checking? ==> s.buf == ""
    ensures StepsLeft(cfg, Apply(cfg, s, a)) < StepsLeft(cfg, s)
  {
  }

  /** The step that is possible whatever the others are waiting for. */
  function NextStep(cfg: Config, s: State): Action {
    match s.helper
    case Starting => Exec
    case Checking => Check
    case Deciding => Decide
    case Reading =>
      if s.pipe != "" then ReadByte
      else if s.parent.Closing? then CloseEnd
      else if WriterOpen(s) then WriteAll
      else ReadEof
    case _ =>
      if s.parent.Waiting? then Reap
      else if s.parent.Closing? then CloseEnd
      else if Outgoing(cfg, s) == "" then WriteAll
      else WriteFails
  }

  /** No deadlock and no endless run: while the parent has not answered, some step other
      than an interruption is possible, and each such step uses up part of a bounded
      number of remaining steps. */
  lemma AnswerComes(cfg: Config, s: State, a: Action)
    requires Legal(cfg) && Reachable(cfg, s)
    ensures !s.parent.Done? ==> !Interruption(NextStep(cfg, s)) && Enabled(cfg, s, NextStep(cfg, s))
    ensures !Interruption(a) && Enabled(cfg, s, a) ==> StepsLeft(cfg, Apply(cfg, s, a)) < StepsLeft(cfg, s)
  {
    ReachableInv(cfg, s);
    assert HelperInv(cfg, s);
    if !Interruption(a) && Enabled(cfg, s, a) { StepUsesUp(cfg, s, a); }
  }
}
