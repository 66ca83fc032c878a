/**
 * Whole conversations, run against a fresh store and a fresh session, that
 * follow from the handlers' contracts alone.
 */
module Scenarios {
  import opened Wrappers
  import opened States
  import opened Store
  import opened Fsm
  import opened Broadcast
  import opened Bot

  /**
   * A new user without a Telegram username registers in three messages;
   * the notice to the admin group is lost. The row is stored with the
   * placeholder handle, unbanned, and the session ends empty.
   */
  method RegistrationFlow(userId: int, name: string, city: string, address: string)
    returns (replies: seq<Reply>, record: Option<UserRecord>, state: State, data: map<Field, Value>)
    ensures replies == [AskName, AskCity, AskAddress, Registered(Notice(name, city, address, NoUsername, userId), false)]
    ensures record == Some(UserRecord(userId, NoUsername, name, city, address, false))
    ensures state == NoState && data == map[]
  {
    var db := new Database();
    var s := new Session();
    var r1 := CmdStart(db, s, userId, Found(Left));
    var r2 := ProcessName(s, Some(name));
    var r3 := ProcessCity(s, Some(city));
    var r4 := ProcessAddress(db, s, userId, None, Some(address), false);
    replies, record, state, data := [r1, r2, r3, r4], db.GetUser(userId), s.state, s.data;
  }

  /**
   * An admin stages a message and confirms it for three users; the copy to
   * the second is refused with a 400 error such as "chat not found"
   * (`TelegramBadRequest`), whose text `why` the report carries. The report
   * names them in key order, and the tally
   * reads two delivered, one failed, three in total.
   */
  method BroadcastToThree(a: Recipient, b: Recipient, c: Recipient, why: string, copy: int -> Delivery) returns (reply: Reply)
    requires a.userId < b.userId < c.userId
    requires copy(a.userId) == Ok && copy(b.userId) == BadRequest(why) && copy(c.userId) == Ok
    ensures reply == BroadcastDone([Delivered(a), Failed(b, Some(why)), Delivered(c)], Tally(2, 1, 3))
  {
    var db := ThreeUsers(a, b, c);
    SnapshotOfThree(db, a, b, c);
    var s := StageBroadcast(db, 501, -1001);
    reply := ConfirmThree(db, s, a, b, c, why, copy);
  }

  /** The confirmation step of that broadcast, on a staged session. */
  method ConfirmThree(db: Database, s: Session, a: Recipient, b: Recipient, c: Recipient, why: string, copy: int -> Delivery)
    returns (reply: Reply)
    requires s.Valid() && Staged(s.data)
    requires db.GetAllUsers() == [a, b, c]
    requires copy(a.userId) == Ok && copy(b.userId) == BadRequest(why) && copy(c.userId) == Ok
    modifies s
    ensures reply == BroadcastDone([Delivered(a), Failed(b, Some(why)), Delivered(c)], Tally(2, 1, 3))
  {
    ghost var users := db.GetAllUsers();
    reply := ConfirmBroadcast(db, s, copy);
    ghost var lines := Reports(users, copy);
    assert reply == BroadcastDone(lines, Tally(CountDelivered(lines), CountFailed(lines), |users|));
    DoneOfThree(users, a, b, c, why, copy, reply);
  }

  /** An admin on a fresh session presses the broadcast button and sends the message to copy. */
  method StageBroadcast(db: Database, messageId: int, chatId: int) returns (s: Session)
    requires messageId != 0 && chatId != 0
    ensures fresh(s) && s.Valid() && Staged(s.data)
  {
    s := new Session();
    var r1 := StartBroadcast(s);
    StagingNonZeroIds(s.data, messageId, chatId);
    var r2 := ProcessBroadcastMessage(db, s, messageId, chatId);
  }

  /** Three registrations on a fresh store leave exactly their three rows, unbanned. */
  method ThreeUsers(a: Recipient, b: Recipient, c: Recipient) returns (db: Database)
    requires a.userId < b.userId < c.userId
    ensures fresh(db)
    ensures db.users == map[a.userId := RowOf(a), b.userId := RowOf(b), c.userId := RowOf(c)]
  {
    db := new Database();
    var ok1 := db.AddUser(a.userId, a.username, Some(a.fullName), Some(a.city), Some(a.shopAddress));
    var ok2 := db.AddUser(b.userId, b.username, Some(b.fullName), Some(b.city), Some(b.shopAddress));
    var ok3 := db.AddUser(c.userId, c.username, Some(c.fullName), Some(c.city), Some(c.shopAddress));
  }

  /**
   * An admin bans a user by typing the username with an `@` and spaces
   * around it: the row is banned, a second attempt reports nothing to ban,
   * and the user's next /start is refused.
   */
  method BanFlow(userId: int, handle: string, name: string, city: string, address: string)
    returns (first: Reply, second: Reply, start: Reply, active: seq<Recipient>)
    requires handle != [] && '@' !in handle && !IsSpace(handle[|handle| - 1])
    ensures first == BanReport(true, handle)
    ensures second == BanReport(false, handle)
    ensures start == Rejected
    ensures active == []
  {
    var db := new Database();
    var ok := db.AddUser(userId, handle, Some(name), Some(city), Some(address));
    ghost var t := db.users;
    BanOnlyRow(t, userId, handle);
    var s := new Session();
    var typed := " @" + handle + " ";
    TypedWithSpaces(handle);
    var r1 := BanUserButton(s, Found(Administrator));
    first := ProcessBanUsername(db, s, Some(typed));
    assert db.users == BanAll(t, handle);
    var r2 := BanUserButton(s, Found(Administrator));
    second := ProcessBanUsername(db, s, Some(typed));
    assert db.users == BanAll(t, handle);
    start := CmdStart(db, s, userId, Found(Left));
    assert db.IsUserBanned(userId);
    active := db.GetAllUsers();
  }

  /** Banning the handle of the only row bans it, leaves no one to list and nothing to ban again. */
  lemma BanOnlyRow(t: Table, id: int, handle: string)
    requires t.Keys == {id} && t[id].username == handle && !t[id].isBanned
    ensures Targets(t, handle) != {}
    ensures Targets(BanAll(t, handle), handle) == {}
    ensures BanAll(BanAll(t, handle), handle) == BanAll(t, handle)
    ensures id in BanAll(t, handle) && BanAll(t, handle)[id].isBanned
    ensures ActiveIds(BanAll(t, handle)) == {}
  {
    assert id in Targets(t, handle);
    BanIdempotent(t, handle);
    var t' := BanAll(t, handle);
    assert forall x :: x in ActiveIds(t') ==> x == id;
  }

  function RowOf(u: Recipient): Row {
    Row(u.username, u.fullName, u.city, u.shopAddress, false)
  }

  /** The report and the counts of a run over three recipients where only the second fails. */
  lemma ReportsOfThree(a: Recipient, b: Recipient, c: Recipient, why: string, copy: int -> Delivery)
    requires copy(a.userId) == Ok && copy(b.userId) == BadRequest(why) && copy(c.userId) == Ok
    ensures var lines := Reports([a, b, c], copy);
      && lines == [Delivered(a), Failed(b, Some(why)), Delivered(c)]
      && CountDelivered(lines) == 2 && CountFailed(lines) == 1
  {
    var lines := Reports([a, b, c], copy);
    var one, two := [Delivered(a)], [Delivered(a), Failed(b, Some(why))];
    assert lines == two + [Delivered(c)];
    assert lines[..2] == two && two[..1] == one && one[..0] == [];
    assert CountDelivered(one) == 1 && CountFailed(one) == 0;
    assert CountDelivered(two) == 1 && CountFailed(two) == 1;
  }

  /** The closing reply of a run over exactly those three recipients. */
  lemma DoneOfThree(users: seq<Recipient>, a: Recipient, b: Recipient, c: Recipient, why: string, copy: int -> Delivery, reply: Reply)
    requires users == [a, b, c]
    requires copy(a.userId) == Ok && copy(b.userId) == BadRequest(why) && copy(c.userId) == Ok
    requires var lines := Reports(users, copy);
      reply == BroadcastDone(lines, Tally(CountDelivered(lines), CountFailed(lines), |users|))
    ensures reply == BroadcastDone([Delivered(a), Failed(b, Some(why)), Delivered(c)], Tally(2, 1, 3))
  {
    ReportsOfThree(a, b, c, why, copy);
  }

  /** The snapshot of three unbanned rows lists them in key order. */
  lemma SnapshotOfThree(db: Database, a: Recipient, b: Recipient, c: Recipient)
    requires a.userId < b.userId < c.userId
    requires db.users == map[a.userId := RowOf(a), b.userId := RowOf(b), c.userId := RowOf(c)]
    ensures db.GetAllUsers() == [a, b, c]
  {
    var t := db.users;
    assert ActiveIds(t) == {a.userId, b.userId, c.userId} by {
      assert t.Keys == {a.userId, b.userId, c.userId};
      assert forall id :: id in t ==> !t[id].isBanned;
      NoneBannedAllActive(t);
    }
    var rs := db.GetAllUsers();
    InKeyOrder(rs, t, a, b, c);
  }

  /** Three rows listed once each in ascending key order are listed as a, b, c. */
  lemma InKeyOrder(rs: seq<Recipient>, t: Table, a: Recipient, b: Recipient, c: Recipient)
    requires a.userId < b.userId < c.userId
    requires t == map[a.userId := RowOf(a), b.userId := RowOf(b), c.userId := RowOf(c)]
    requires |rs| == |{a.userId, b.userId, c.userId}|
    requires forall i :: 0 <= i < |rs| ==> rs[i].userId in t && rs[i] == RecipientOf(rs[i].userId, t[rs[i].userId])
    requires forall i, j :: 0 <= i < j < |rs| ==> rs[i].userId < rs[j].userId
    ensures rs == [a, b, c]
  {
    assert |rs| == 3;
    var x, y, z := rs[0].userId, rs[1].userId, rs[2].userId;
    assert x in t && y in t && z in t && x < y < z;
    assert x == a.userId || x == b.userId || x == c.userId;
    assert y == a.userId || y == b.userId || y == c.userId;
    assert z == a.userId || z == b.userId || z == c.userId;
    assert x == a.userId && y == b.userId && z == c.userId;
  }

  /** With no row banned, every key is selected. */
  lemma NoneBannedAllActive(t: Table)
    requires forall id :: id in t ==> !t[id].isBanned
    ensures ActiveIds(t) == t.Keys
  {
    assert forall id :: id in ActiveIds(t) <==> id in t.Keys;
  }

  /** What the ban handler makes of " @" + handle + " ". */
  lemma TypedWithSpaces(handle: string)
    requires handle != [] && '@' !in handle && !IsSpace(handle[|handle| - 1])
    ensures RemoveAt(Strip(" @" + handle + " ")) == handle
  {
    var core := "@" + handle;
    assert " " + core + " " == " @" + handle + " ";
    TypedHandle(" ", core, " ");
    RemoveAtConcat("@", handle);
  }
}
