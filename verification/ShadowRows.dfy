/** The shadow table as a list of rows, and what one password change does to it. */
module ShadowRows {
  import opened PamTypes

  datatype Aging = Aging(min: int, max: int, warn: int, inact: int, expire: int, flag: int)
  datatype Row = Row(name: string, hash: string, lastChange: int, aging: Aging)

  /** The day number read from the clock while row i is being written. */
  type Days = nat -> int

  datatype Change = Change(user: string, hash: string, days: Days)

  /** How often a password change tries to take the lock. */
  const MAX_ATTEMPTS := 100

  const UNSET := Aging(-1, -1, -1, -1, -1, -1)

  /** Day 0 would mean "must change now", so it is stored as "unset". */
  function Stamp(day: int): int {
    if day == 0 then -1 else day
  }

  function RewriteRow(row: Row, i: nat, c: Change): Row {
    if row.name == c.user then row.(hash := c.hash, lastChange := Stamp(c.days(i))) else row
  }

  function Rewrite(rows: seq<Row>, c: Change): (out: seq<Row>)
    ensures |out| == |rows|
  {
    seq(|rows|, i requires 0 <= i < |rows| => RewriteRow(rows[i], i, c))
  }

  predicate Mentions(rows: seq<Row>, user: string) {
    exists i :: 0 <= i < |rows| && rows[i].name == user
  }

  function NewRow(c: Change, day: int): Row {
    Row(c.user, c.hash, Stamp(day), UNSET)
  }

  /** The table one successful password change leaves behind. */
  function Update(rows: seq<Row>, c: Change): seq<Row> {
    if Mentions(rows, c.user) then Rewrite(rows, c)
    else Rewrite(rows, c) + [NewRow(c, c.days(|rows|))]
  }

  /** The table a list of changes leaves behind, oldest first. */
  function Replay(rows: seq<Row>, changes: seq<Change>): seq<Row> {
    if changes == [] then rows
    else Update(Replay(rows, changes[..|changes| - 1]), changes[|changes| - 1])
  }

  /** `getspnam` on a readable table: the first row with that name. */
  function Find(rows: seq<Row>, user: string): Option<Row> {
    if rows == [] then None
    else if rows[0].name == user then Some(rows[0])
    else Find(rows[1..], user)
  }

  function LookupIn(rows: seq<Row>, user: string): Lookup {
    match Find(rows, user)
    case Some(row) => Found(Some(row.hash))
    case None => NotFound(false)
  }

  function Names(rows: seq<Row>): seq<string> {
    seq(|rows|, i requires 0 <= i < |rows| => rows[i].name)
  }

  lemma {:induction false} FindFirst(rows: seq<Row>, user: string)
    ensures Find(rows, user).None? <==> !Mentions(rows, user)
    ensures Find(rows, user).Some? ==> exists i ::
      0 <= i < |rows| && rows[i] == Find(rows, user).value && rows[i].name == user
      && forall j :: 0 <= j < i ==> rows[j].name != user
  {
    if rows != [] && rows[0].name != user {
      FindFirst(rows[1..], user);
      if i :| 0 <= i < |rows| && rows[i].name == user {
        assert rows[1..][i - 1].name == user;
      }
      if Find(rows[1..], user).Some? {
        var i :| 0 <= i < |rows[1..]| && rows[1..][i] == Find(rows[1..], user).value && rows[1..][i].name == user
          && forall j :: 0 <= j < i ==> rows[1..][j].name != user;
        assert rows[i + 1] == Find(rows, user).value;
        assert forall j :: 0 < j < i + 1 ==> rows[j] == rows[1..][j - 1];
      }
    }
  }

  /** The first row is the only one that decides: any list position satisfying the
      description is what `Find` returns. */
  lemma {:induction false} FindAt(rows: seq<Row>, user: string, i: nat)
    requires i < |rows| && rows[i].name == user
    requires forall j :: 0 <= j < i ==> rows[j].name != user
    ensures Find(rows, user) == Some(rows[i])
  {
    if i > 0 {
      assert rows[1..][i - 1] == rows[i];
      FindAt(rows[1..], user, i - 1);
    }
  }

  lemma {:induction false} FindNone(rows: seq<Row>, user: string)
    requires !Mentions(rows, user)
    ensures Find(rows, user) == None
  {
    FindFirst(rows, user);
  }

  /** After a change the changed user's first row carries the new hash, and every
      other user is looked up exactly as before. */
  lemma {:induction false} UpdateLookup(rows: seq<Row>, c: Change, user: string)
    ensures user == c.user ==> Find(Update(rows, c), user).Some? && Find(Update(rows, c), user).value.hash == c.hash
    ensures user != c.user ==> Find(Update(rows, c), user) == Find(rows, user)
  {
    var out := Update(rows, c);
    FindFirst(rows, user);
    if Find(rows, user).Some? {
      var i :| 0 <= i < |rows| && rows[i] == Find(rows, user).value && rows[i].name == user
        && forall j :: 0 <= j < i ==> rows[j].name != user;
      assert out[i] == RewriteRow(rows[i], i, c);
      assert forall j :: 0 <= j < i ==> out[j] == RewriteRow(rows[j], j, c);
      FindAt(out, user, i);
    } else {
      assert forall j :: 0 <= j < |rows| ==> out[j] == RewriteRow(rows[j], j, c) && out[j].name != user;
      if user == c.user {
        FindAt(out, user, |rows|);
      } else {
        FindNone(out, user);
      }
    }
  }

  /** Rows keep their names and order; at most one row is added, at the end, and only
      for a user the table did not mention; aging data never changes. */
  lemma UpdateKeepsOrder(rows: seq<Row>, c: Change)
    ensures Names(Update(rows, c)) == Names(rows) + (if Mentions(rows, c.user) then [] else [c.user])
    ensures forall i :: 0 <= i < |rows| ==> Update(rows, c)[i].aging == rows[i].aging
    ensures forall i :: 0 <= i < |rows| && rows[i].name != c.user ==> Update(rows, c)[i] == rows[i]
  {
    var out := Update(rows, c);
    assert forall i :: 0 <= i < |rows| ==> out[i] == RewriteRow(rows[i], i, c);
  }

  /** Every row of the changed user, not only the first, gets the new hash and the day of
      the change, day 0 as "unset"; nothing else of it changes. */
  lemma UpdateRow(rows: seq<Row>, c: Change, i: nat)
    requires i < |rows| && rows[i].name == c.user
    ensures Update(rows, c)[i] == Row(c.user, c.hash, if c.days(i) == 0 then -1 else c.days(i), rows[i].aging)
  {
    assert Update(rows, c)[i] == RewriteRow(rows[i], i, c);
  }

  /** A user without a row gets one behind the others, without any aging data. */
  lemma UpdateAppends(rows: seq<Row>, c: Change)
    requires forall i :: 0 <= i < |rows| ==> rows[i].name != c.user
    ensures var day := c.days(|rows|);
      Update(rows, c) == rows + [Row(c.user, c.hash, if day == 0 then -1 else day, Aging(-1, -1, -1, -1, -1, -1))]
  {
    assert Rewrite(rows, c) == rows by {
      assert forall i :: 0 <= i < |rows| ==> Rewrite(rows, c)[i] == RewriteRow(rows[i], i, c);
    }
  }

  /** The hash a user ends up with: that of the user's last change, or the original one. */
  function LastHash(rows: seq<Row>, changes: seq<Change>, user: string): Option<string> {
    if changes == [] then
      match Find(rows, user) case Some(row) => Some(row.hash) case None => None
    else if changes[|changes| - 1].user == user then Some(changes[|changes| - 1].hash)
    else LastHash(rows, changes[..|changes| - 1], user)
  }

  /** Last writer wins, user by user. */
  lemma {:induction false} ReplayLookup(rows: seq<Row>, changes: seq<Change>, user: string)
    ensures LookupIn(Replay(rows, changes), user) ==
      match LastHash(rows, changes, user) case Some(h) => Found(Some(h)) case None => NotFound(false)
  {
    if changes != [] {
      var before := changes[..|changes| - 1];
      ReplayLookup(rows, before, user);
      UpdateLookup(Replay(rows, before), changes[|changes| - 1], user);
    }
  }

  /** And every row of a user who was changed holds that hash. */
  lemma {:induction false} ReplayRows(rows: seq<Row>, changes: seq<Change>, user: string, i: nat)
    requires i < |Replay(rows, changes)| && Replay(rows, changes)[i].name == user
    requires exists k :: 0 <= k < |changes| && changes[k].user == user
    ensures Some(Replay(rows, changes)[i].hash) == LastHash(rows, changes, user)
    decreases |changes|
  {
    var last := |changes| - 1;
    var before, c := Replay(rows, changes[..last]), changes[last];
    if i < |before| {
      UpdateKeepsOrder(before, c);
      assert Names(before)[i] == Names(Update(before, c))[i];
      if c.user == user {
        UpdateRow(before, c, i);
      } else {
        var k :| 0 <= k < |changes| && changes[k].user == user;
        assert changes[..last][k].user == user;
        ReplayRows(rows, changes[..last], user, i);
      }
    }
  }

  /** Extending a rewritten prefix by one row is one turn of the copy loop. */
  lemma RewriteExtends(rows: seq<Row>, k: nat, c: Change)
    requires k < |rows|
    ensures Rewrite(rows[..k + 1], c) == Rewrite(rows[..k], c) + [RewriteRow(rows[k], k, c)]
    ensures Mentions(rows[..k + 1], c.user) <==> Mentions(rows[..k], c.user) || rows[k].name == c.user
  {
    var shorter, longer := rows[..k], rows[..k + 1];
    assert forall i :: 0 <= i < k ==> longer[i] == shorter[i];
    assert longer[k] == rows[k];
  }
}
