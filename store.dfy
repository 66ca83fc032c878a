/**
 * The user store of database.py: one `users` table whose primary key is
 * `user_id`, so the table is a map from that key to the rest of the row.
 * Connection handling, schema creation and the `registration_date` column are
 * not part of this model.
 */
module Store {
  import opened Wrappers

  /** A row of `users` without its key. `isBanned` is the `is_banned` column read as a bool. */
  datatype Row = Row(username: string, fullName: string, city: string, shopAddress: string, isBanned: bool)

  /** What `get_user` returns: the whole row, its key and its ban flag. */
  datatype UserRecord = UserRecord(userId: int, username: string, fullName: string, city: string, shopAddress: string, isBanned: bool)

  /** What `get_all_users` returns for each row: no ban flag. */
  datatype Recipient = Recipient(userId: int, username: string, fullName: string, city: string, shopAddress: string)

  /** At most one row per `user_id`: the primary key makes the table a map. */
  type Table = map<int, Row>

  function RecipientOf(id: int, row: Row): Recipient {
    Recipient(id, row.username, row.fullName, row.city, row.shopAddress)
  }

  /** Python's `s.replace("@", "")`: every `@`, not only a leading one, is dropped. */
  function RemoveAt(s: string): (r: string)
    ensures '@' !in r
    ensures forall c :: c != '@' ==> (c in r <==> c in s)
    ensures |r| <= |s|
    ensures '@' !in s ==> r == s
  {
    if s == [] then []
    else (if s[0] == '@' then [] else [s[0]]) + RemoveAt(s[1..])
  }

  /** Removing `@` works character by character, so it distributes over concatenation. */
  lemma {:induction false} RemoveAtConcat(a: string, b: string)
    ensures RemoveAt(a + b) == RemoveAt(a) + RemoveAt(b)
  {
    if a != [] {
      assert (a + b)[0] == a[0] && (a + b)[1..] == a[1..] + b;
      RemoveAtConcat(a[1..], b);
      var head := if a[0] == '@' then [] else [a[0]];
      assert RemoveAt(a + b) == head + (RemoveAt(a[1..]) + RemoveAt(b));
    } else {
      assert a + b == b;
    }
  }

  /** A second replace finds nothing to remove. */
  lemma RemoveAtIdempotent(s: string)
    ensures RemoveAt(RemoveAt(s)) == RemoveAt(s)
  {
  }

  /**
   * The rows `UPDATE users SET is_banned = 1 WHERE username = ? AND is_banned = 0`
   * touches; `cursor.rowcount` is the size of this set.
   */
  function Targets(t: Table, name: string): set<int> {
    set id | id in t && t[id].username == name && !t[id].isBanned
  }

  /** The rows that UPDATE touches are exactly the unbanned rows with the name. */
  lemma TargetsAreNamedActive(t: Table, name: string)
    ensures Targets(t, name) <= ActiveIds(t)
    ensures forall id :: id in ActiveIds(t) ==> (id in Targets(t, name) <==> t[id].username == name)
  {
  }

  /** The table after that UPDATE. */
  function BanAll(t: Table, name: string): (t': Table)
    ensures t'.Keys == t.Keys
    ensures forall id :: id in t && t[id].username == name ==> t'[id].isBanned
    ensures forall id :: id in t && t[id].username != name ==> t'[id] == t[id]
    ensures forall id :: id in t ==> t'[id].(isBanned := false) == t[id].(isBanned := false)
    ensures forall id :: id in t && t[id].isBanned ==> t'[id].isBanned
  {
    map id | id in t :: if t[id].username == name then t[id].(isBanned := true) else t[id]
  }

  /** Banning is idempotent: a second UPDATE with the same name changes no row and reports nothing. */
  lemma BanIdempotent(t: Table, name: string)
    ensures Targets(BanAll(t, name), name) == {}
    ensures BanAll(BanAll(t, name), name) == BanAll(t, name)
  {
    var once := BanAll(t, name);
    assert forall id :: id in once ==> once[id].username == t[id].username;
  }

  /** A name no unbanned row carries changes nothing: the UPDATE only sets flags that are already set. */
  lemma BanWithoutTargetsIsNoop(t: Table, name: string)
    requires Targets(t, name) == {}
    ensures BanAll(t, name) == t
  {
    var t' := BanAll(t, name);
    forall id | id in t ensures t'[id] == t[id] {
      if t[id].username == name {
        assert id !in Targets(t, name);
      }
    }
  }

  /** The keys of the unbanned rows: what `WHERE is_banned = 0` selects. */
  function ActiveIds(t: Table): (ids: set<int>)
    ensures ids <= t.Keys
    ensures forall id :: id in t ==> (id in ids <==> !t[id].isBanned)
  {
    set id | id in t && !t[id].isBanned
  }

  /** A set that is not empty has an element: extensionality, stated for the solver. */
  lemma NonEmptyHasKey(ids: set<int>)
    requires ids != {}
    ensures exists y :: y in ids
  {
    assert (forall y :: y !in ids) ==> ids == {};
  }

  /** Some key of a non-empty set of keys. */
  ghost function Pick(ids: set<int>): (y: int)
    requires ids != {}
    ensures y in ids
  {
    NonEmptyHasKey(ids);
    var y :| y in ids; y
  }

  /** A smallest element of a non-empty finite set of keys, found by removing one key at a time. */
  ghost function MinOf(ids: set<int>): (m: int)
    requires ids != {}
    ensures m in ids
    ensures forall x :: x in ids ==> m <= x
    decreases ids
  {
    var y := Pick(ids);
    if ids == {y} then y
    else
      var rest := MinOf(ids - {y});
      assert forall x :: x in ids ==> x == y || x in ids - {y};
      if y < rest then y else rest
  }

  /** The smallest key of a non-empty set of keys. */
  function Least(ids: set<int>): (m: int)
    requires ids != {}
    ensures m in ids
    ensures forall x :: x in ids ==> m <= x
  {
    assert MinOf(ids) in ids && forall x :: x in ids ==> MinOf(ids) <= x;
    var m :| m in ids && forall x :: x in ids ==> m <= x;
    m
  }

  /** The keys in ascending order, each once: the order of a rowid scan. */
  function SortedIds(ids: set<int>): (r: seq<int>)
    ensures |r| == |ids|
    ensures forall i :: 0 <= i < |r| ==> r[i] in ids
    ensures forall id :: id in ids ==> id in r
    ensures forall i, j :: 0 <= i < j < |r| ==> r[i] < r[j]
    decreases ids
  {
    if ids == {} then []
    else
      var m := Least(ids);
      var rest := SortedIds(ids - {m});
      assert forall j :: 0 <= j < |rest| ==> m < rest[j] by {
        assert forall j :: 0 <= j < |rest| ==> rest[j] in ids && rest[j] != m;
      }
      PrependSorted(m, rest);
      [m] + rest
  }

  /** A key below every key of an ascending sequence keeps it ascending when put in front. */
  lemma PrependSorted(m: int, rest: seq<int>)
    requires forall j :: 0 <= j < |rest| ==> m < rest[j]
    requires forall i, j :: 0 <= i < j < |rest| ==> rest[i] < rest[j]
    ensures forall i, j :: 0 <= i < j < |[m] + rest| ==> ([m] + rest)[i] < ([m] + rest)[j]
  {
    var r := [m] + rest;
    assert forall i :: 0 < i < |r| ==> r[i] == rest[i - 1];
  }

  class Database {
    /** The `users` table. */
    var users: Table

    /** A fresh, empty table (`init_db` on a new file). */
    constructor ()
      ensures users == map[]
    {
      users := map[];
    }

    /**
     * `add_user`: `INSERT OR REPLACE` of a whole row. The replaced row is
     * re-inserted, so `is_banned` goes back to its default 0. The NOT NULL
     * columns refuse a missing name, city or address: the statement fails
     * (`ok` is false) and the table is left as it was.
     */
    method AddUser(userId: int, username: string, fullName: Option<string>, city: Option<string>, shopAddress: Option<string>)
      returns (ok: bool)
      modifies this
      ensures ok <==> fullName.Some? && city.Some? && shopAddress.Some?
      ensures ok ==> users == old(users)[userId := Row(username, fullName.value, city.value, shopAddress.value, false)]
      ensures ok ==> GetUser(userId) == Some(UserRecord(userId, username, fullName.value, city.value, shopAddress.value, false))
      ensures !ok ==> users == old(users)
    {
      ok := fullName.Some? && city.Some? && shopAddress.Some?;
      if ok {
        users := users[userId := Row(username, fullName.value, city.value, shopAddress.value, false)];
      }
    }

    /** `get_user`: the row with that key, or None when there is none. */
    function GetUser(userId: int): (r: Option<UserRecord>)
      reads this
      ensures r.None? <==> userId !in users
      ensures r.Some? ==> r.value.userId == userId
      ensures r.Some? ==> users[userId] == Row(r.value.username, r.value.fullName, r.value.city, r.value.shopAddress, r.value.isBanned)
    {
      if userId in users then
        var row := users[userId];
        Some(UserRecord(userId, row.username, row.fullName, row.city, row.shopAddress, row.isBanned))
      else None
    }

    /**
     * `get_all_users`: every unbanned row, each once, without its ban flag.
     * The query has no ORDER BY; the model lists the rows in ascending key
     * order, the order in which SQLite scans a table keyed by its rowid.
     */
    function GetAllUsers(): (rs: seq<Recipient>)
      reads this
      ensures |rs| == |ActiveIds(users)|
      ensures forall i :: 0 <= i < |rs| ==> rs[i].userId in users && !users[rs[i].userId].isBanned
      ensures forall i :: 0 <= i < |rs| ==> rs[i] == RecipientOf(rs[i].userId, users[rs[i].userId])
      ensures forall id :: id in users && !users[id].isBanned ==> exists i :: 0 <= i < |rs| && rs[i].userId == id
      ensures forall i, j :: 0 <= i < j < |rs| ==> rs[i].userId < rs[j].userId
    {
      var ids := SortedIds(ActiveIds(users));
      var rs := Project(users, ids);
      ProjectionOfActive(users, ids, rs);
      rs
    }

    /**
     * `ban_user_by_username`: every `@` is removed from the argument, then
     * every unbanned row with that username is banned. The result says
     * whether any row changed.
     */
    method BanUserByUsername(username: string) returns (changed: bool)
      modifies this
      ensures users == BanAll(old(users), RemoveAt(username))
      ensures changed <==> Targets(old(users), RemoveAt(username)) != {}
    {
      var name := RemoveAt(username);
      changed := Targets(users, name) != {};
      users := BanAll(users, name);
    }

    /** `is_user_banned`: the row's flag, and false for a key with no row. */
    function IsUserBanned(userId: int): (b: bool)
      reads this
      ensures b <==> GetUser(userId).Some? && GetUser(userId).value.isBanned
      ensures userId !in users ==> !b
    {
      userId in users && users[userId].isBanned
    }
  }

  /** The rows with the given keys, in the order of the keys. */
  function Project(t: Table, ids: seq<int>): (rs: seq<Recipient>)
    requires forall i :: 0 <= i < |ids| ==> ids[i] in t
    ensures |rs| == |ids|
    ensures forall i :: 0 <= i < |ids| ==> rs[i] == RecipientOf(ids[i], t[ids[i]])
  {
    if ids == [] then [] else [RecipientOf(ids[0], t[ids[0]])] + Project(t, ids[1..])
  }

  /** The rows of the unbanned keys, listed in ascending key order: what `get_all_users` promises. */
  lemma ProjectionOfActive(t: Table, ids: seq<int>, rs: seq<Recipient>)
    requires |ids| == |ActiveIds(t)|
    requires forall i :: 0 <= i < |ids| ==> ids[i] in ActiveIds(t)
    requires forall id :: id in ActiveIds(t) ==> id in ids
    requires forall i, j :: 0 <= i < j < |ids| ==> ids[i] < ids[j]
    requires |rs| == |ids|
    requires forall i :: 0 <= i < |ids| ==> ids[i] in t && rs[i] == RecipientOf(ids[i], t[ids[i]])
    ensures |rs| == |ActiveIds(t)|
    ensures forall i :: 0 <= i < |rs| ==> rs[i].userId in t && !t[rs[i].userId].isBanned
    ensures forall i :: 0 <= i < |rs| ==> rs[i] == RecipientOf(rs[i].userId, t[rs[i].userId])
    ensures forall id :: id in t && !t[id].isBanned ==> exists i :: 0 <= i < |rs| && rs[i].userId == id
    ensures forall i, j :: 0 <= i < j < |rs| ==> rs[i].userId < rs[j].userId
  {
    assert forall i :: 0 <= i < |rs| ==> rs[i].userId == ids[i];
    forall id | id in t && !t[id].isBanned
      ensures exists i :: 0 <= i < |rs| && rs[i].userId == id
    {
      assert id in ActiveIds(t);
      var i := IndexOf(ids, id);
      assert rs[i].userId == id;
    }
  }

  /** The position of a key that occurs in a sequence of keys. */
  function IndexOf(s: seq<int>, x: int): (i: nat)
    requires x in s
    ensures i < |s| && s[i] == x
  {
    if s[0] == x then 0 else 1 + IndexOf(s[1..], x)
  }
}
