/** The environment table as a list of "NAME=value" texts, and what each operation of
    the library does to it. Names are what precedes the first '='. */
module EnvSpec {
  import opened PamTypes

  type Table = seq<string>

  /** The table together with the number of allocation requests made so far. */
  datatype EnvState = EnvState(table: Table, clock: nat)

  /** Position of the first '=', or -1. */
  function NameLen(s: string): (n: int)
    ensures -1 <= n < |s|
    ensures n >= 0 ==> s[n] == '=' && forall i :: 0 <= i < n ==> s[i] != '='
    ensures n < 0 ==> forall i :: 0 <= i < |s| ==> s[i] != '='
  {
    if s == "" then -1
    else if s[0] == '=' then 0
    else var n := NameLen(s[1..]); if n < 0 then -1 else n + 1
  }

  predicate Named(entry: string) {
    NameLen(entry) > 0
  }

  function NameOf(entry: string): string
    requires Named(entry)
  {
    entry[..NameLen(entry)]
  }

  predicate PlainName(name: string) {
    name != "" && NameLen(name) < 0
  }

  /** The library's comparison: the entry starts with the name followed by '='. */
  predicate Matches(entry: string, name: string) {
    |entry| > |name| && entry[..|name|] == name && entry[|name|] == '='
  }

  /** Entries have non-empty, pairwise different names. */
  ghost predicate Proper(t: Table) {
    && (forall i :: 0 <= i < |t| ==> Named(t[i]))
    && (forall i, j :: 0 <= i < j < |t| ==> NameOf(t[i]) != NameOf(t[j]))
  }

  /** Index of the first matching entry, or the length of the table. */
  function IndexOf(t: Table, name: string): (k: nat)
    ensures k <= |t|
    ensures k < |t| ==> Matches(t[k], name)
    ensures forall i :: 0 <= i < k ==> !Matches(t[i], name)
  {
    if t == [] then 0
    else if Matches(t[0], name) then 0
    else 1 + IndexOf(t[1..], name)
  }

  function GetEnv(t: Table, name: string): Option<string> {
    var k := IndexOf(t, name);
    if k < |t| then Some(t[k][|name| + 1..]) else None
  }

  /** Replace the entry of that name in place, or add one at the end. */
  function Store(t: Table, nv: string): Table
    requires Named(nv)
  {
    var k := IndexOf(t, NameOf(nv));
    if k < |t| then t[k := nv] else t + [nv]
  }

  /** Close the gap left by the entry of that name. */
  function Remove(t: Table, name: string): Table {
    var k := IndexOf(t, name);
    if k < |t| then t[..k] + t[k + 1..] else t
  }

  /** `pam_putenv`: set "NAME=value", or delete "NAME". */
  function PutEnv(fails: nat -> bool, s: EnvState, nameValue: Option<string>): (EnvState, int) {
    if nameValue.None? || nameValue.value == "" then (s, PAM_SYSTEM_ERR)
    else
      var nv := nameValue.value;
      var n := NameLen(nv);
      if n < 0 then
        if IndexOf(s.table, nv) < |s.table| then (s.(table := Remove(s.table, nv)), PAM_SUCCESS)
        else (s, PAM_BAD_ITEM)
      else if n == 0 then (s, PAM_SYSTEM_ERR)
      else
        // an update copies the text; a new entry first grows the array
        var present := IndexOf(s.table, nv[..n]) < |s.table|;
        if fails(s.clock) then (s.(clock := s.clock + 1), PAM_BUF_ERR)
        else if present then (EnvState(Store(s.table, nv), s.clock + 1), PAM_SUCCESS)
        else if fails(s.clock + 1) then (s.(clock := s.clock + 2), PAM_BUF_ERR)
        else (EnvState(Store(s.table, nv), s.clock + 2), PAM_SUCCESS)
  }

  /** `pam_misc_setenv`: the text is built in a temporary buffer first. */
  function SetEnv(fails: nat -> bool, s: EnvState, name: Option<string>, value: Option<string>): (EnvState, int) {
    if name.None? || value.None? then (s, PAM_SYSTEM_ERR)
    else if fails(s.clock) then (s.(clock := s.clock + 1), PAM_BUF_ERR)
    else PutEnv(fails, s.(clock := s.clock + 1), Some(name.value + "=" + value.value))
  }

  /** `pam_misc_paste_env`: `PutEnv` of each text, up to the first failure. */
  function PasteEnv(fails: nat -> bool, s: EnvState, list: seq<string>): (EnvState, int)
    decreases |list|
  {
    if list == [] then (s, PAM_SUCCESS)
    else
      var (s', code) := PutEnv(fails, s, Some(list[0]));
      if code != PAM_SUCCESS then (s', code) else PasteEnv(fails, s', list[1..])
  }

  /** Pasting two lists one after the other is pasting them as one, unless the first one
      fails; and pasting one text is `PutEnv`. */
  lemma {:induction false} PasteConcat(fails: nat -> bool, s: EnvState, list: seq<string>, more: seq<string>)
    ensures var (s', code) := PasteEnv(fails, s, list);
      PasteEnv(fails, s, list + more) == if code == PAM_SUCCESS then PasteEnv(fails, s', more) else (s', code)
    decreases |list|
  {
    if list == [] {
      assert list + more == more;
    } else {
      assert (list + more)[0] == list[0] && (list + more)[1..] == list[1..] + more;
      PasteConcat(fails, PutEnv(fails, s, Some(list[0])).0, list[1..], more);
    }
  }

  lemma {:induction false} PasteSingle(fails: nat -> bool, s: EnvState, text: string)
    ensures PasteEnv(fails, s, [text]) == PutEnv(fails, s, Some(text))
  {
    var (s', code) := PutEnv(fails, s, Some(text));
    assert [text][1..] == [];
  }

  /** A paste fails at the first text that is refused, with the code of that refusal, and
      keeps what stands before it; what follows is not looked at. */
  lemma {:induction false} PasteStops(fails: nat -> bool, s: EnvState, list: seq<string>) returns (k: nat)
    ensures k <= |list| && PasteEnv(fails, s, list[..k]).1 == PAM_SUCCESS
    ensures k < |list| ==>
      && PutEnv(fails, PasteEnv(fails, s, list[..k]).0, Some(list[k])).1 != PAM_SUCCESS
      && PasteEnv(fails, s, list) == PutEnv(fails, PasteEnv(fails, s, list[..k]).0, Some(list[k]))
    ensures k == |list| ==> PasteEnv(fails, s, list).1 == PAM_SUCCESS
    decreases |list|
  {
    if list == [] { return 0; }
    var (s', code) := PutEnv(fails, s, Some(list[0]));
    if code != PAM_SUCCESS { return 0; }
    k := PasteStops(fails, s', list[1..]);
    assert list[..k + 1] == [list[0]] + list[1..][..k];
    PasteSingle(fails, s, list[0]);
    PasteConcat(fails, s, [list[0]], list[1..][..k]);
    k := k + 1;
  }

  // ------------------------------------------------------------- what matching means

  /** A name without '=' matches an entry exactly when it is the entry's name. */
  lemma MatchesPlain(entry: string, name: string)
    requires Named(entry) && PlainName(name)
    ensures Matches(entry, name) <==> NameOf(entry) == name
  {
    if Matches(entry, name) {
      assert entry[|name|] == '=' && forall i :: 0 <= i < |name| ==> entry[i] == name[i];
    }
  }

  /** Whatever the name asked for, a matching entry's own name is its part before '='. */
  lemma {:induction false} MatchesOdd(entry: string, name: string)
    requires Named(entry) && Matches(entry, name) && name != ""
    ensures var n := NameLen(name); NameOf(entry) == (if n < 0 then name else name[..n])
  {
    var n := NameLen(name);
    assert forall i :: 0 <= i < |name| ==> entry[i] == entry[..|name|][i];
    var m := if n < 0 then |name| else n;
    assert entry[m] == '=' && forall i :: 0 <= i < m ==> entry[i] != '=';
    assert NameLen(entry) == m;
  }

  /** In a proper table at most one entry can match, so the search order is immaterial. */
  lemma {:induction false} MatchUnique(t: Table, name: string, i: nat)
    requires Proper(t) && i < |t| && Matches(t[i], name) && name != ""
    ensures IndexOf(t, name) == i
  {
    var k := IndexOf(t, name);
    MatchesOdd(t[i], name);
    MatchesOdd(t[k], name);
  }

  lemma {:induction false} IndexByName(t: Table, name: string)
    requires Proper(t) && PlainName(name)
    ensures IndexOf(t, name) < |t| <==> exists i :: 0 <= i < |t| && NameOf(t[i]) == name
    ensures IndexOf(t, name) < |t| ==> NameOf(t[IndexOf(t, name)]) == name
  {
    forall i | 0 <= i < |t| ensures Matches(t[i], name) <==> NameOf(t[i]) == name {
      MatchesPlain(t[i], name);
    }
  }

  // ----------------------------------------------------- refinement of an ordered map

  /** The names, in table order. */
  ghost function Names(t: Table): seq<string>
    requires Proper(t)
  {
    seq(|t|, i requires 0 <= i < |t| => NameOf(t[i]))
  }

  lemma {:induction false} NameOfSet(nv: string)
    requires Named(nv)
    ensures PlainName(NameOf(nv)) && nv == NameOf(nv) + "=" + nv[NameLen(nv) + 1..]
  {
    var n := NameLen(nv);
    var name := nv[..n];
    forall i | 0 <= i < n ensures name[i] != '=' { assert name[i] == nv[i]; }
    assert nv == nv[..n] + [nv[n]] + nv[n + 1..];
  }

  lemma {:induction false} NamesIff(t: Table, name: string)
    requires Proper(t) && PlainName(name)
    ensures name in Names(t) <==> IndexOf(t, name) < |t|
    ensures IndexOf(t, name) < |t| ==> Names(t)[IndexOf(t, name)] == name
  {
    IndexByName(t, name);
    assert forall i :: 0 <= i < |t| ==> Names(t)[i] == NameOf(t[i]);
  }

  /** An error leaves the table alone; the code says which error, exactly. */
  lemma PutEnvErrors(fails: nat -> bool, s: EnvState, nameValue: Option<string>)
    requires Proper(s.table)
    ensures var (s', code) := PutEnv(fails, s, nameValue);
      var nv := OrEmpty(nameValue);
      && (code != PAM_SUCCESS ==> s'.table == s.table)
      && (code == PAM_SYSTEM_ERR <==> nv == "" || nv[0] == '=')
      && (code == PAM_BAD_ITEM <==> PlainName(nv) && nv !in Names(s.table))
      && (code == PAM_BUF_ERR <==>
           Named(nv) && (fails(s.clock) || (NameOf(nv) !in Names(s.table) && fails(s.clock + 1))))
      && (code == PAM_SUCCESS || code == PAM_SYSTEM_ERR || code == PAM_BAD_ITEM || code == PAM_BUF_ERR)
  {
    var nv := OrEmpty(nameValue);
    if PlainName(nv) { NamesIff(s.table, nv); }
    if Named(nv) { NameOfSet(nv); NamesIff(s.table, NameOf(nv)); }
  }

  /** A stored text is found at its place. */
  lemma {:induction false} StoreProper(t: Table, nv: string)
    requires Proper(t) && Named(nv)
    ensures Proper(Store(t, nv))
    ensures IndexOf(Store(t, nv), NameOf(nv)) == IndexOf(t, NameOf(nv))
    ensures Store(t, nv)[IndexOf(t, NameOf(nv))] == nv
  {
    var t', name := Store(t, nv), NameOf(nv);
    NameOfSet(nv);
    IndexByName(t, name);
    var k := IndexOf(t, name);
    assert t'[k] == nv && forall i :: 0 <= i < |t| && i != k ==> t'[i] == t[i];
    MatchesPlain(nv, name);
    MatchUnique(t', name, k);
  }

  lemma StoreNames(t: Table, nv: string)
    requires Proper(t) && Named(nv)
    ensures Proper(Store(t, nv))
    ensures Names(Store(t, nv)) == Names(t) + (if NameOf(nv) in Names(t) then [] else [NameOf(nv)])
  {
    StoreProper(t, nv);
    NameOfSet(nv);
    NamesIff(t, NameOf(nv));
  }

  /** A lookup does not see a place whose text does not match. */
  lemma GetIgnores(t: Table, t': Table, k: nat, other: string)
    requires k <= |t| && |t'| == (if k == |t| then k + 1 else |t|)
    requires forall i :: 0 <= i < |t| && i != k ==> t'[i] == t[i]
    requires k < |t| ==> !Matches(t[k], other)
    requires !Matches(t'[k], other)
    ensures GetEnv(t', other) == GetEnv(t, other)
  {
    var i, j := IndexOf(t, other), IndexOf(t', other);
    if i < |t| { assert t'[i] == t[i]; }
    if j < |t'| { assert t'[j] == t[j]; }
  }

  lemma {:induction false} GetSkips(t: Table, k: nat, other: string)
    requires k < |t| && !Matches(t[k], other)
    ensures GetEnv(t[..k] + t[k + 1..], other) == GetEnv(t, other)
  {
    var t' := t[..k] + t[k + 1..];
    var i, j := IndexOf(t, other), IndexOf(t', other);
    assert forall m :: 0 <= m < k ==> t'[m] == t[m];
    assert forall m :: k < m < |t| ==> t'[m - 1] == t[m];
    if i < |t| {
      var i' := if i < k then i else i - 1;
      assert t'[i'] == t[i];
      assert j <= i';
    }
    if j < |t'| {
      var j' := if j < k then j else j + 1;
      assert t[j'] == t'[j];
      assert i <= j';
    }
  }

  lemma {:induction false} GetFound(t: Table, name: string, k: nat, nv: string)
    requires k < |t| && IndexOf(t, name) == k && t[k] == nv
    ensures |nv| > |name| && GetEnv(t, name) == Some(nv[|name| + 1..])
  {
  }

  lemma {:induction false} StoreAt(t: Table, nv: string)
    requires Proper(t) && Named(nv)
    ensures var k := IndexOf(t, NameOf(nv));
      k < |Store(t, nv)| && Store(t, nv)[k] == nv && IndexOf(Store(t, nv), NameOf(nv)) == k
  {
    StoreProper(t, nv);
  }

  lemma {:induction false} StoreGetSame(t: Table, nv: string)
    requires Proper(t) && Named(nv)
    ensures GetEnv(Store(t, nv), NameOf(nv)) == Some(nv[NameLen(nv) + 1..])
  {
    StoreAt(t, nv);
    GetFound(Store(t, nv), NameOf(nv), IndexOf(t, NameOf(nv)), nv);
    assert |NameOf(nv)| == NameLen(nv);
  }

  lemma OtherMismatches(entry: string, name: string, other: string)
    requires Named(entry) && PlainName(name) && PlainName(other) && Matches(entry, name) && other != name
    ensures !Matches(entry, other)
  {
    MatchesPlain(entry, name);
    MatchesPlain(entry, other);
  }

  lemma StoreGetOther(t: Table, nv: string, other: string)
    requires Proper(t) && Named(nv) && PlainName(other) && other != NameOf(nv)
    ensures GetEnv(Store(t, nv), other) == GetEnv(t, other)
  {
    var k := IndexOf(t, NameOf(nv));
    StoreProper(t, nv);
    NameOfSet(nv);
    MatchesPlain(nv, other);
    if k < |t| { OtherMismatches(t[k], NameOf(nv), other); }
    GetIgnores(t, Store(t, nv), k, other);
  }

  /** Setting a name gives it the value and touches no other name. */
  lemma {:induction false} StoreGet(t: Table, nv: string, other: string)
    requires Proper(t) && Named(nv) && PlainName(other)
    ensures GetEnv(Store(t, nv), other) ==
      if other == NameOf(nv) then Some(nv[NameLen(nv) + 1..]) else GetEnv(t, other)
  {
    if other == NameOf(nv) { StoreGetSame(t, nv); } else { StoreGetOther(t, nv, other); }
  }

  /** Closing a gap keeps a table proper and the names in order. */
  lemma GapProper(t: Table, k: nat)
    requires Proper(t) && k < |t|
    ensures Proper(t[..k] + t[k + 1..])
    ensures Names(t[..k] + t[k + 1..]) == Names(t)[..k] + Names(t)[k + 1..]
    ensures Names(t)[k] !in Names(t[..k] + t[k + 1..])
  {
    var t' := t[..k] + t[k + 1..];
    forall i | 0 <= i < |t'| ensures t'[i] == t[if i < k then i else i + 1] {}
  }

  /** Removing a name closes its gap; it is gone afterwards. */
  lemma {:induction false} RemoveProper(t: Table, name: string)
    requires Proper(t) && PlainName(name) && IndexOf(t, name) < |t|
    ensures Proper(Remove(t, name)) && GetEnv(Remove(t, name), name) == None
    ensures var k := IndexOf(t, name);
      Names(t)[k] == name && Names(Remove(t, name)) == Names(t)[..k] + Names(t)[k + 1..]
  {
    NamesIff(t, name);
    GapProper(t, IndexOf(t, name));
    NamesIff(Remove(t, name), name);
  }

  lemma {:induction false} RemoveGet(t: Table, name: string, other: string)
    requires Proper(t) && PlainName(name) && PlainName(other) && IndexOf(t, name) < |t|
    ensures GetEnv(Remove(t, name), other) == if other == name then None else GetEnv(t, other)
  {
    RemoveProper(t, name);
    if other != name {
      var k := IndexOf(t, name);
      MatchesPlain(t[k], name);
      MatchesPlain(t[k], other);
      GetSkips(t, k, other);
    }
  }

  /** `pam_putenv` is an update, an append or a deletion of an insertion-ordered map. */
  lemma PutEnvRefines(fails: nat -> bool, s: EnvState, nameValue: Option<string>, other: string)
    requires Proper(s.table) && PlainName(other)
    ensures var (s', code) := PutEnv(fails, s, nameValue);
      var nv := OrEmpty(nameValue);
      && Proper(s'.table)
      && (code == PAM_SUCCESS && Named(nv) ==>
           && Names(s'.table) == Names(s.table) + (if NameOf(nv) in Names(s.table) then [] else [NameOf(nv)])
           && GetEnv(s'.table, other) ==
                if other == NameOf(nv) then Some(nv[NameLen(nv) + 1..]) else GetEnv(s.table, other))
      && (code == PAM_SUCCESS && !Named(nv) ==>
           && PlainName(nv)
           && (exists k :: 0 <= k < |s.table| && Names(s.table)[k] == nv
                && Names(s'.table) == Names(s.table)[..k] + Names(s.table)[k + 1..])
           && GetEnv(s'.table, other) == if other == nv then None else GetEnv(s.table, other))
      && (code != PAM_SUCCESS ==> s'.table == s.table)
  {
    var nv := OrEmpty(nameValue);
    PutEnvErrors(fails, s, nameValue);
    if Named(nv) {
      StoreNames(s.table, nv);
      StoreGet(s.table, nv, other);
    } else if PlainName(nv) && IndexOf(s.table, nv) < |s.table| {
      RemoveProper(s.table, nv);
      RemoveGet(s.table, nv, other);
      NamesIff(s.table, nv);
    }
  }

  lemma PutEnvProper(fails: nat -> bool, s: EnvState, nameValue: Option<string>)
    requires Proper(s.table)
    ensures Proper(PutEnv(fails, s, nameValue).0.table)
  {
    PutEnvRefines(fails, s, nameValue, "A");
  }

  lemma SetEnvProper(fails: nat -> bool, s: EnvState, name: Option<string>, value: Option<string>)
    requires Proper(s.table)
    ensures Proper(SetEnv(fails, s, name, value).0.table)
  {
    if name.Some? && value.Some? {
      PutEnvProper(fails, s.(clock := s.clock + 1), Some(name.value + "=" + value.value));
    }
  }

  // --------------------------------------------------------------------- round trips

  lemma {:induction false} FirstEquals(s: string, n: nat)
    requires n < |s| && s[n] == '=' && forall i :: 0 <= i < n ==> s[i] != '='
    ensures NameLen(s) == n
  {
  }

  /** A NULL argument is an error and changes nothing. */
  lemma SetEnvNull(fails: nat -> bool, s: EnvState, name: Option<string>, value: Option<string>)
    requires name == None || value == None
    ensures SetEnv(fails, s, name, value) == (s, PAM_SYSTEM_ERR)
  {
  }

  /** Where the first '=' of "name=value" is. */
  lemma JoinedPlain(name: string, value: string)
    requires PlainName(name)
    ensures var nv := name + "=" + value;
      Named(nv) && NameOf(nv) == name && nv[|name| + 1..] == value
  {
    var nv := name + "=" + value;
    FirstEquals(nv, |name|);
  }

  lemma {:induction false} JoinedOdd(name: string, value: string)
    requires Named(name)
    ensures var nv := name + "=" + value;
      Named(nv) && NameOf(nv) == NameOf(name) && nv[NameLen(nv) + 1..] == name[NameLen(name) + 1..] + "=" + value
  {
    var nv := name + "=" + value;
    FirstEquals(nv, NameLen(name));
  }

  lemma JoinedMatches(name: string, value: string)
    requires name != "" && name[0] != '='
    ensures var nv := name + "=" + value;
      Named(nv) && Matches(nv, name) && nv[|name| + 1..] == value
  {
    var nv := name + "=" + value;
    if NameLen(name) < 0 { JoinedPlain(name, value); } else { JoinedOdd(name, value); }
    assert nv[..|name|] == name;
  }

  /** Whatever name `pam_misc_setenv` accepts, with or without '=' inside, is read back;
      and a name containing '=' overwrites the variable named by its first part. */
  lemma {:induction false} SetThenGet(fails: nat -> bool, s: EnvState, name: string, value: string)
    requires Proper(s.table)
    requires SetEnv(fails, s, Some(name), Some(value)).1 == PAM_SUCCESS
    ensures var t' := SetEnv(fails, s, Some(name), Some(value)).0.table;
      && GetEnv(t', name) == Some(value)
      && (NameLen(name) > 0 ==>
           GetEnv(t', NameOf(name)) == Some(name[NameLen(name) + 1..] + "=" + value))
  {
    SetEnvAccepts(fails, s, name, value);
    StoreJoined(s.table, name, value);
    SetStores(fails, s, name, value);
  }

  lemma SetStores(fails: nat -> bool, s: EnvState, name: string, value: string)
    requires Named(name + "=" + value) && SetEnv(fails, s, Some(name), Some(value)).1 == PAM_SUCCESS
    ensures SetEnv(fails, s, Some(name), Some(value)).0.table == Store(s.table, name + "=" + value)
  {
    PutNamed(fails, s.(clock := s.clock + 1), name + "=" + value);
  }

  /** Setting succeeds as a store. */
  lemma PutNamed(fails: nat -> bool, s: EnvState, nv: string)
    requires Named(nv)
    ensures var (s', code) := PutEnv(fails, s, Some(nv));
      && (code == PAM_SUCCESS ==> s'.table == Store(s.table, nv))
      && (code != PAM_SUCCESS ==> code == PAM_BUF_ERR && s'.table == s.table)
      && var k := IndexOf(s.table, NameOf(nv));
        && (code == PAM_SUCCESS <==> !fails(s.clock) && (k < |s.table| || !fails(s.clock + 1)))
        && (code == PAM_SUCCESS ==> s'.clock == s.clock + (if k < |s.table| then 1 else 2))
  {
  }

  lemma {:induction false} StoreJoined(t: Table, name: string, value: string)
    requires Proper(t) && name != "" && name[0] != '='
    ensures var nv := name + "=" + value;
      && Named(nv)
      && GetEnv(Store(t, nv), name) == Some(value)
      && (NameLen(name) > 0 ==>
           GetEnv(Store(t, nv), NameOf(name)) == Some(name[NameLen(name) + 1..] + "=" + value))
  {
    var nv := name + "=" + value;
    JoinedMatches(name, value);
    StoreProper(t, nv);
    MatchUnique(Store(t, nv), name, IndexOf(t, NameOf(nv)));
    if NameLen(name) > 0 {
      JoinedOdd(name, value);
      StoreGetSame(t, nv);
    }
  }

  /** It accepts exactly the non-empty names that do not start with '='. */
  lemma SetEnvAccepts(fails: nat -> bool, s: EnvState, name: string, value: string)
    requires Proper(s.table)
    ensures var code := SetEnv(fails, s, Some(name), Some(value)).1;
      && (code == PAM_SUCCESS || code == PAM_BUF_ERR || code == PAM_SYSTEM_ERR)
      && (code == PAM_SUCCESS ==> name != "" && name[0] != '=')
      && (code == PAM_SYSTEM_ERR <==> !fails(s.clock) && (name == "" || name[0] == '='))
      && (code == PAM_BUF_ERR <==>
           || fails(s.clock)
           || (name != "" && name[0] != '=' && fails(s.clock + 1))
           || (name != "" && name[0] != '=' && fails(s.clock + 2)
               && Named(name + "=" + value) && NameOf(name + "=" + value) !in Names(s.table)))
  {
    var nv := name + "=" + value;
    assert nv[|name|] == '=';
    assert name != "" ==> nv[0] == name[0];
    assert NameLen(nv) >= 0;
    PutEnvErrors(fails, s.(clock := s.clock + 1), Some(nv));
  }

  /** Pasting an exported environment into an empty table copies it in order; if an
      allocation fails, exactly the entries before the failure are there. */
  lemma {:induction false} PasteRest(fails: nat -> bool, t: Table, n: nat, clock: nat)
    requires Proper(t) && n <= |t|
    ensures var (s', code) := PasteEnv(fails, EnvState(t[..n], clock), t[n..]);
      && n <= |s'.table| <= |t| && s'.table == t[..|s'.table|]
      && (code == PAM_SUCCESS <==> s'.table == t)
      && (code == PAM_SUCCESS || code == PAM_BUF_ERR)
      && ((forall k :: k >= clock ==> !fails(k)) ==> code == PAM_SUCCESS)
    decreases |t| - n
  {
    if n == |t| {
      assert t[..n] == t && t[n..] == [];
    } else {
      PasteOne(fails, t, n, clock);
      assert t[n..][0] == t[n] && t[n..][1..] == t[n + 1..];
      PasteRest(fails, t, n + 1, clock + 2);
    }
  }

  lemma PasteOne(fails: nat -> bool, t: Table, n: nat, clock: nat)
    requires Proper(t) && n < |t|
    ensures var (s', code) := PutEnv(fails, EnvState(t[..n], clock), Some(t[n]));
      if fails(clock) || fails(clock + 1) then code == PAM_BUF_ERR && s'.table == t[..n]
      else code == PAM_SUCCESS && s' == EnvState(t[..n + 1], clock + 2)
  {
    NewName(t, n);
    PutNamed(fails, EnvState(t[..n], clock), t[n]);
    assert t[..n] + [t[n]] == t[..n + 1];
  }

  lemma NewName(t: Table, n: nat)
    requires Proper(t) && n < |t|
    ensures IndexOf(t[..n], NameOf(t[n])) == n
  {
    NameOfSet(t[n]);
    var k := IndexOf(t[..n], NameOf(t[n]));
    if k < n { MatchesPlain(t[k], NameOf(t[n])); }
  }

  lemma {:induction false} PasteIntoEmpty(fails: nat -> bool, t: Table, clock: nat)
    requires Proper(t)
    ensures var (s', code) := PasteEnv(fails, EnvState([], clock), t);
      && |s'.table| <= |t| && s'.table == t[..|s'.table|]
      && (code == PAM_SUCCESS <==> s'.table == t)
      && ((forall k :: k >= clock ==> !fails(k)) ==> code == PAM_SUCCESS)
  {
    PasteRest(fails, t, 0, clock);
    assert t[..0] == [] && t[0..] == t;
  }

  /** Pasting an exported environment back changes nothing, failing or not. */
  lemma {:induction false} PasteBack(fails: nat -> bool, t: Table, n: nat, clock: nat)
    requires Proper(t) && n <= |t|
    ensures var (s', code) := PasteEnv(fails, EnvState(t, clock), t[n..]);
      s'.table == t && (code == PAM_SUCCESS || code == PAM_BUF_ERR)
    decreases |t| - n
  {
    if n < |t| {
      assert t[n..][0] == t[n] && t[n..][1..] == t[n + 1..];
      PutOwn(fails, t, n, clock);
      if !fails(clock) { PasteBack(fails, t, n + 1, clock + 1); }
    }
  }

  lemma PutOwn(fails: nat -> bool, t: Table, n: nat, clock: nat)
    requires Proper(t) && n < |t|
    ensures PutEnv(fails, EnvState(t, clock), Some(t[n])) ==
      (EnvState(t, clock + 1), if fails(clock) then PAM_BUF_ERR else PAM_SUCCESS)
  {
    OwnName(t, n);
    PutNamed(fails, EnvState(t, clock), t[n]);
  }

  /** An entry of the table is found under its own name, and storing it changes nothing. */
  lemma {:induction false} OwnName(t: Table, n: nat)
    requires Proper(t) && n < |t|
    ensures IndexOf(t, NameOf(t[n])) == n && Store(t, t[n]) == t
  {
    NameOfSet(t[n]);
    MatchesPlain(t[n], NameOf(t[n]));
    MatchUnique(t, NameOf(t[n]), n);
    assert t[n := t[n]] == t;
  }
}
