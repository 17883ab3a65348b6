/** The password helper as a program: it reads a terminated password byte by byte into
    a fixed buffer and exits with a verdict. */
module ChkpwdHelper {
  import opened PamTypes
  import opened Transfer
  import opened Verdict

  const NUL: char := '\0'

  /** The characters before the first terminator, at most `limit` of them. */
  function UpTo(data: string, limit: nat): (p: string)
    ensures |p| <= limit && |p| <= |data| && p == data[..|p|]
    ensures forall i :: 0 <= i < |p| ==> p[i] != NUL
  {
    if limit == 0 || data == "" || data[0] == NUL then ""
    else [data[0]] + UpTo(data[1..], limit - 1)
  }

  /** What is left unread: a terminator is consumed only if there was room to read it. */
  function Unread(data: string, limit: nat): string {
    var p := UpTo(data, limit);
    if |p| == limit || |p| == |data| then data[|p|..] else data[|p| + 1..]
  }

  /** Where reading stops. */
  lemma {:induction false} UpToIs(data: string, limit: nat, n: nat)
    requires n <= |data| && n <= limit && forall i :: 0 <= i < n ==> data[i] != NUL
    requires n == limit || n == |data| || data[n] == NUL
    ensures UpTo(data, limit) == data[..n]
  {
    if n > 0 { UpToIs(data[1..], limit - 1, n - 1); }
  }

  /** A password sent with its terminator is read back as its first `limit` characters;
      the terminator is left in the pipe exactly when the password fills the buffer. */
  lemma {:induction false} ReadsWhatWasSent(pass: string, limit: nat)
    requires forall i :: 0 <= i < |pass| ==> pass[i] != NUL
    ensures UpTo(pass + [NUL], limit) == pass[..Min(|pass|, limit)]
    ensures Unread(pass + [NUL], limit) == "" <==> |pass| < limit
  {
    if pass != "" && limit > 0 {
      assert (pass + [NUL])[1..] == pass[1..] + [NUL];
      ReadsWhatWasSent(pass[1..], limit - 1);
      assert pass[..Min(|pass|, limit)] == [pass[0]] + pass[1..][..Min(|pass[1..]|, limit - 1)];
    } else if pass == "" {
      assert UpTo([NUL], limit) == "";
    }
  }

  /** The text a terminated buffer holds. */
  predicate Holds(buffer: seq<char>, text: string) {
    |text| < |buffer| && buffer[..|text|] == text && buffer[|text|] == NUL
  }

  /** `read_password`. */
  method ReadPassword(fd: Stream, buffer: array<char>) returns (ret: int)
    modifies fd, buffer
    ensures ret == 0 || ret == -1
    ensures Failed !in old(fd.script) && buffer.Length > 0 ==> ret == 0
    ensures ret == 0 ==> buffer.Length > 0
    ensures ret == 0 ==> Holds(buffer[..], UpTo(old(fd.data), buffer.Length - 1))
    ensures ret == 0 ==> fd.data == Unread(old(fd.data), buffer.Length - 1)
  {
    if buffer.Length == 0 { return -1; }
    ghost var data, limit := fd.data, buffer.Length - 1;
    var offset, done := 0, false;
    while offset + 1 < buffer.Length && !done
      invariant 0 <= offset <= limit && offset <= |data|
      invariant buffer[..offset] == data[..offset] && forall i :: 0 <= i < offset ==> data[i] != NUL
      invariant !done ==> fd.data == data[offset..]
      invariant done ==> offset < limit && (offset == |data| || data[offset] == NUL)
      invariant done ==> fd.data == if offset == |data| then "" else data[offset + 1..]
      invariant forall e :: e in fd.script ==> e in old(fd.script)
      decreases buffer.Length - offset, !done, |fd.script|
    {
      var n, interrupted, bytes := fd.Read(1);
      if n == 0 {
        done := true;
      } else if n < 0 {
        if interrupted { continue; }
        return -1;
      } else {
        var ch := bytes[0];
        assert ch == data[offset];
        if ch == NUL {
          done := true;
        } else {
          buffer[offset] := ch;
          offset := offset + 1;
        }
      }
    }
    buffer[offset] := NUL;
    UpToIs(data, limit, offset);
    return 0;
  }

  /** `caller_may_check_user`: root, or a caller whose own entry has that name. */
  predicate CallerMayCheck(isRoot: bool, ownName: Option<string>, user: string) {
    isRoot || ownName == Some(user)
  }

  /** `main` was called as intended, for a user the caller may check. */
  predicate ProperUse(terminal: bool, args: seq<string>, isRoot: bool, ownName: Option<string>) {
    && !terminal && |args| == 3 && (args[2] == "nullok" || args[2] == "nonull")
    && CallerMayCheck(isRoot, ownName, args[1])
  }

  predicate Usable(sp: Lookup) {
    sp.Found? && !LockedHash(sp.hash)
  }

  /** `main`. `buffer` is its local array of the maximum response size plus one; it does
      not hold the password on any path on which `crypt` was called. That is every proper
      use for a user with a usable hash, unless an empty password is forbidden. */
  method RunHelper(fd: Stream, terminal: bool, args: seq<string>, isRoot: bool, ownName: Option<string>,
                   getspnam: string -> Lookup, crypt: Crypt, buffer: array<char>)
    returns (status: int, ghost hashed: bool)
    requires buffer.Length > 0
    modifies fd, buffer
    ensures terminal || |args| != 3 || (args[2] != "nullok" && args[2] != "nonull") ==> status == PAM_SYSTEM_ERR
    ensures !terminal && |args| == 3 && (args[2] == "nullok" || args[2] == "nonull") && Failed !in old(fd.script) ==>
      status == HelperVerdict(crypt, getspnam(args[1]), isRoot || ownName == Some(args[1]),
                              args[2] == "nonull", UpTo(old(fd.data), buffer.Length - 1))
    ensures status == PAM_SUCCESS ==>
      && hashed && ProperUse(terminal, args, isRoot, ownName)
      && var sp, nonull, read := getspnam(args[1]), args[2] == "nonull", UpTo(old(fd.data), buffer.Length - 1);
         || HelperVerdict(crypt, sp, true, nonull, read) == PAM_SUCCESS
         || (Failed in old(fd.script) && HelperVerdict(crypt, sp, true, nonull, "") == PAM_SUCCESS)
    ensures status == PAM_SUCCESS ==> |args| == 3 && (isRoot || ownName == Some(args[1]))
    ensures !terminal && |args| == 3 && (args[2] == "nullok" || args[2] == "nonull") ==>
      !isRoot && ownName != Some(args[1]) ==>
      status == PAM_AUTH_ERR && !hashed && fd.data == old(fd.data) && buffer[..] == old(buffer[..])
    ensures hashed ==> forall i :: 0 <= i < buffer.Length ==> buffer[i] == NUL
    ensures hashed ==> ProperUse(terminal, args, isRoot, ownName) && Usable(getspnam(args[1]))
    ensures !hashed && ProperUse(terminal, args, isRoot, ownName) && Usable(getspnam(args[1])) ==>
      args[2] == "nonull" && (UpTo(old(fd.data), buffer.Length - 1) == "" || Failed in old(fd.script))
  {
    hashed := false;
    if terminal || |args| != 3 { return PAM_SYSTEM_ERR, false; }
    var user, option := args[1], args[2];
    if option != "nullok" && option != "nonull" { return PAM_SYSTEM_ERR, false; }
    if !CallerMayCheck(isRoot, ownName, user) { return PAM_AUTH_ERR, false; }
    ghost var pass := UpTo(fd.data, buffer.Length - 1);
    var ret := ReadPassword(fd, buffer);
    if ret != 0 {
      buffer[0] := NUL;
      pass := "";
    }
    assert Holds(buffer[..], pass);
    if option == "nonull" && buffer[0] == NUL { return PAM_AUTH_ERR, false; }
    var sp := getspnam(user);
    if sp.NotFound? { return (if sp.accessDenied then PAM_AUTHINFO_UNAVAIL else PAM_USER_UNKNOWN), false; }
    if LockedHash(sp.hash) { return PAM_AUTH_ERR, false; }
    var text := TextIn(buffer, pass);
    var computed := crypt(text, sp.hash.value);
    forall i | 0 <= i < buffer.Length { buffer[i] := NUL; }
    hashed := true;
    if computed == None { return PAM_AUTHINFO_UNAVAIL, hashed; }
    return (if computed.value == sp.hash.value then PAM_SUCCESS else PAM_AUTH_ERR), hashed;
  }

  /** Reading a buffer as a C string. */
  method TextIn(buffer: array<char>, ghost text: string) returns (s: string)
    requires Holds(buffer[..], text) && forall i :: 0 <= i < |text| ==> text[i] != NUL
    ensures s == text
  {
    var n := 0;
    while buffer[n] != NUL
      invariant 0 <= n <= |text|
      decreases |text| - n
      invariant buffer[..|text|] == text
    {
      n := n + 1;
    }
    return buffer[..n];
  }
}
