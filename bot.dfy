/**
 * The handlers of bot.py, one session and one store at a time. Three calls
 * to Telegram are replaced by their results, passed in: the membership
 * lookup of `is_admin`, the outcome of each `copy_message`, whether the admin
 * group received the registration notice. Every other answer or edit sent
 * to the user is taken to succeed. What a handler sends back is returned as
 * a `Reply`; an exception that escapes a handler is `Raised`.
 */
module Bot {
  import opened Wrappers
  import opened States
  import opened Store
  import opened Fsm
  import opened Broadcast

  // ---------------------------------------------------------------------
  // The admin check

  /** Telegram's chat member statuses. */
  datatype MemberStatus = Creator | Administrator | Member | Restricted | Left | Kicked

  /** The answer of `get_chat_member` for the admin group, or the exception it raised. */
  datatype Membership = Found(status: MemberStatus) | LookupFailed

  /** `is_admin`: any member of the admin group who is not restricted, gone or banned; false when the lookup fails. */
  function IsAdmin(lookup: Membership): (admin: bool)
    ensures lookup.LookupFailed? ==> !admin
    ensures lookup.Found? ==> (admin <==> !(lookup.status.Restricted? || lookup.status.Left? || lookup.status.Kicked?))
  {
    lookup.Found? && lookup.status in {Creator, Administrator, Member}
  }

  // ---------------------------------------------------------------------
  // Text handling

  /** `str.isspace()` for one character. */
  predicate IsSpace(c: char) {
    || ('\t' <= c <= '\r')
    || ('\U{1C}' <= c <= ' ')
    || c == '\U{85}' || c == '\U{A0}' || c == '\U{1680}'
    || ('\U{2000}' <= c <= '\U{200A}')
    || c == '\U{2028}' || c == '\U{2029}' || c == '\U{202F}' || c == '\U{205F}' || c == '\U{3000}'
  }

  /**
   * The ASCII blanks are whitespace, and no visible ASCII character is, so
   * none of those a Telegram username or the `@` before it is made of.
   */
  lemma AsciiWhitespace(c: char)
    ensures c in " \t\n\r\U{B}\U{C}" ==> IsSpace(c)
    ensures '!' <= c <= '~' ==> !IsSpace(c)
  {
  }

  /** Leading whitespace removed. */
  function StripLeft(s: string): (r: string)
    ensures |r| <= |s| && r == s[|s| - |r|..]
    ensures forall i :: 0 <= i < |s| - |r| ==> IsSpace(s[i])
    ensures r == [] || !IsSpace(r[0])
  {
    if s != [] && IsSpace(s[0]) then StripLeft(s[1..]) else s
  }

  /** Trailing whitespace removed. */
  function StripRight(s: string): (r: string)
    ensures |r| <= |s| && r == s[..|r|]
    ensures forall i :: |r| <= i < |s| ==> IsSpace(s[i])
    ensures r == [] || !IsSpace(r[|r| - 1])
  {
    if s != [] && IsSpace(s[|s| - 1]) then StripRight(s[..|s| - 1]) else s
  }

  /** `str.strip()`. */
  function Strip(s: string): (r: string)
    ensures r == [] || (!IsSpace(r[0]) && !IsSpace(r[|r| - 1]))
    ensures |r| <= |s|
  {
    StripRight(StripLeft(s))
  }

  lemma {:induction false} StripLeftPadded(pad: string, rest: string)
    requires forall i :: 0 <= i < |pad| ==> IsSpace(pad[i])
    requires rest == [] || !IsSpace(rest[0])
    ensures StripLeft(pad + rest) == rest
  {
    if pad == [] {
      assert pad + rest == rest;
    } else {
      assert (pad + rest)[1..] == pad[1..] + rest;
      StripLeftPadded(pad[1..], rest);
    }
  }

  lemma {:induction false} StripRightPadded(rest: string, pad: string)
    requires forall i :: 0 <= i < |pad| ==> IsSpace(pad[i])
    requires rest == [] || !IsSpace(rest[|rest| - 1])
    ensures StripRight(rest + pad) == rest
  {
    if pad == [] {
      assert rest + pad == rest;
    } else {
      var k := |pad| - 1;
      assert (rest + pad)[..|rest + pad| - 1] == rest + pad[..k];
      StripRightPadded(rest, pad[..k]);
    }
  }

  /**
   * `strip` removes exactly the surrounding whitespace: a text with no
   * whitespace at either end comes back unchanged from any padding.
   */
  lemma StripPadded(before: string, core: string, after: string)
    requires forall i :: 0 <= i < |before| ==> IsSpace(before[i])
    requires forall i :: 0 <= i < |after| ==> IsSpace(after[i])
    requires core == [] || (!IsSpace(core[0]) && !IsSpace(core[|core| - 1]))
    ensures Strip(before + core + after) == core
  {
    if core == [] {
      assert before + core + after == before + after;
      StripLeftPadded(before + after, []);
      assert before + after + [] == before + after;
    } else {
      assert before + core + after == before + (core + after);
      StripLeftPadded(before, core + after);
      StripRightPadded(core, after);
    }
  }

  /** A text with no whitespace at either end is left as it is. */
  lemma StripUnpadded(s: string)
    requires s == [] || (!IsSpace(s[0]) && !IsSpace(s[|s| - 1]))
    ensures Strip(s) == s
  {
    assert StripLeft(s) == s;
    assert StripRight(s) == s;
  }

  /** Stripping twice is stripping once. */
  lemma StripIdempotent(s: string)
    ensures Strip(Strip(s)) == Strip(s)
  {
    StripUnpadded(Strip(s));
  }

  /** The handle stored for a user who has no Telegram username. */
  const NoUsername: string := "Без username"

  /** `message.from_user.username or "Без username"`: an empty or missing username gives the placeholder. */
  function Handle(username: Option<string>): (h: string)
    ensures h != ""
    ensures username.Some? && username.value != "" ==> h == username.value
    ensures username.None? || username.value == "" ==> h == NoUsername
  {
    if username.Some? && username.value != "" then username.value else NoUsername
  }

  /**
   * What the ban handler looks up for a typed text: surrounding whitespace
   * does not matter, and every `@` is dropped.
   */
  lemma TypedHandle(before: string, h: string, after: string)
    requires forall i :: 0 <= i < |before| ==> IsSpace(before[i])
    requires forall i :: 0 <= i < |after| ==> IsSpace(after[i])
    requires h != [] && !IsSpace(h[0]) && !IsSpace(h[|h| - 1])
    ensures RemoveAt(Strip(before + h + after)) == RemoveAt(h)
  {
    StripPadded(before, h, after);
  }

  /** Typed as it is, the placeholder is looked up unchanged. */
  lemma PlaceholderAsTyped()
    ensures RemoveAt(Strip(NoUsername)) == NoUsername
  {
    assert '@' !in NoUsername && !IsSpace(NoUsername[0]) && !IsSpace(NoUsername[|NoUsername| - 1]);
    StripUnpadded(NoUsername);
  }

  /**
   * The placeholder is an ordinary username to the ban handler: an admin who
   * types it bans every registered user who had no username.
   */
  lemma PlaceholderBansEveryoneWithout(t: Table, id: int)
    requires id in t && t[id].username == NoUsername
    ensures BanAll(t, RemoveAt(Strip(NoUsername)))[id].isBanned
  {
    PlaceholderAsTyped();
  }

  /** A staged text value as the database receives it: `None` for a message without text. */
  function AsText(v: Value): Option<string> {
    if v.Str? then Some(v.s) else None
  }

  // ---------------------------------------------------------------------
  // Replies

  /** The registration notice sent to the admin group. */
  datatype Notice = Notice(fullName: string, city: string, shopAddress: string, username: string, userId: int)

  /** Exceptions that escape a handler: a NOT NULL column refused the insert, or `.strip()` on a message without text. */
  datatype Error = NotNullViolation | NoText

  datatype Reply =
    | Rejected                                   // banned on /start
    | AdminMenu                                  // admin welcome with the admin menu
    | WelcomeBack                                // already registered
    | AskName
    | AskCity
    | AskAddress
    | Registered(notice: Notice, noticeSent: bool)
    | NoRights                                   // callback answer to a non-admin
    | BroadcastOffer                             // start / cancel choice
    | AskBroadcastContent
    | ConfirmPrompt(recipients: nat)
    | MessageNotFound
    | BroadcastDone(lines: seq<ReportLine>, tally: Tally)
    | AskUsername
    | BanReport(banned: bool, username: string)
    | Cancelled
    | UseStart(withAdminMenu: bool)
    | Raised(error: Error)

  // ---------------------------------------------------------------------
  // Handlers

  /**
   * `cmd_start`: the session is cleared first, whatever it held. A banned
   * caller is turned away; otherwise an admin gets the menu, a registered
   * user a welcome, and only a new user starts registration.
   */
  method CmdStart(db: Database, s: Session, userId: int, admin: Membership) returns (reply: Reply)
    modifies s
    ensures s.Valid() && s.data == map[]
    ensures db.IsUserBanned(userId) ==> reply == Rejected
    ensures !db.IsUserBanned(userId) && IsAdmin(admin) ==> reply == AdminMenu
    ensures !db.IsUserBanned(userId) && !IsAdmin(admin) ==>
              reply == (if db.GetUser(userId).Some? then WelcomeBack else AskName)
    ensures s.state == (if reply == AskName then WaitingForName else NoState)
  {
    s.Clear();
    if db.IsUserBanned(userId) {
      return Rejected;
    }
    if IsAdmin(admin) {
      reply := AdminMenu;
    } else if db.GetUser(userId).Some? {
      reply := WelcomeBack;
    } else {
      reply := AskName;
      s.SetState(WaitingForName);
    }
  }

  /** `process_name`: the text is staged as the full name and the city is asked for. */
  method ProcessName(s: Session, text: Option<string>) returns (reply: Reply)
    requires s.state == WaitingForName && s.Valid()
    modifies s
    ensures s.Valid() && reply == AskCity
    ensures s.state == WaitingForCity && s.data == old(s.data)[FullName := TextValue(text)]
  {
    s.UpdateData(map[FullName := TextValue(text)]);
    s.SetState(WaitingForCity);
    reply := AskCity;
  }

  /** `process_city`: the text is staged as the city and the address is asked for. */
  method ProcessCity(s: Session, text: Option<string>) returns (reply: Reply)
    requires s.state == WaitingForCity && s.Valid()
    modifies s
    ensures s.Valid() && reply == AskAddress
    ensures s.state == WaitingForAddress && s.data == old(s.data)[City := TextValue(text)]
  {
    s.UpdateData(map[City := TextValue(text)]);
    s.SetState(WaitingForAddress);
    reply := AskAddress;
  }

  /**
   * `process_address`: the staged name and city, the text as the address and
   * the username (or the placeholder) are upserted; the notice to the admin
   * group may fail without effect; the session is cleared. When the message
   * or a staged value had no text, the insert fails and nothing changes.
   * A valid session in this state always has both values staged, so the
   * dictionary lookups of the handler never fail.
   */
  method ProcessAddress(db: Database, s: Session, userId: int, username: Option<string>, text: Option<string>, noticeSent: bool)
    returns (reply: Reply)
    requires s.state == WaitingForAddress && s.Valid()
    modifies db, s
    ensures s.Valid()
    ensures var fullName := AsText(old(s.data)[FullName]);
            var city := AsText(old(s.data)[City]);
            if fullName.Some? && city.Some? && text.Some? then
              && db.GetUser(userId) == Some(UserRecord(userId, Handle(username), fullName.value, city.value, text.value, false))
              && db.users == old(db.users)[userId := Row(Handle(username), fullName.value, city.value, text.value, false)]
              && reply == Registered(Notice(fullName.value, city.value, text.value, Handle(username), userId), noticeSent)
              && s.state == NoState && s.data == map[]
            else
              && db.users == old(db.users)
              && reply == Raised(NotNullViolation)
              && s.state == old(s.state) && s.data == old(s.data)
  {
    var fullName := AsText(s.data[FullName]);
    var city := AsText(s.data[City]);
    var handle := Handle(username);
    var ok := db.AddUser(userId, handle, fullName, city, text);
    if !ok {
      return Raised(NotNullViolation);
    }
    reply := Registered(Notice(fullName.value, city.value, text.value, handle, userId), noticeSent);
    s.Clear();
  }

  /** `handle_broadcast_button`: only an admin is offered the broadcast; the session is not touched. */
  method BroadcastButton(admin: Membership) returns (reply: Reply)
    ensures IsAdmin(admin) ==> reply == BroadcastOffer
    ensures !IsAdmin(admin) ==> reply == NoRights
  {
    if !IsAdmin(admin) {
      return NoRights;
    }
    reply := BroadcastOffer;
  }

  /** `handle_start_broadcast`: no admin check here; the content is asked for and the data is kept. */
  method StartBroadcast(s: Session) returns (reply: Reply)
    requires s.Valid()
    modifies s
    ensures s.Valid() && reply == AskBroadcastContent
    ensures s.state == WaitingForMessage && s.data == old(s.data)
  {
    s.SetState(WaitingForMessage);
    reply := AskBroadcastContent;
  }

  /**
   * `process_broadcast_message`: only a reference to the message is staged;
   * the admin is shown how many unbanned users there are now.
   */
  method ProcessBroadcastMessage(db: Database, s: Session, messageId: int, chatId: int) returns (reply: Reply)
    requires s.state == WaitingForMessage && s.Valid()
    modifies s
    ensures s.Valid()
    ensures reply == ConfirmPrompt(|ActiveIds(old(db.users))|)
    ensures s.state == WaitingForConfirmation
    ensures s.data == old(s.data) + map[BroadcastMessageId := Int(messageId), BroadcastChatId := Int(chatId)]
  {
    s.UpdateData(map[BroadcastMessageId := Int(messageId), BroadcastChatId := Int(chatId)]);
    var users := db.GetAllUsers();
    reply := ConfirmPrompt(|users|);
    s.SetState(WaitingForConfirmation);
  }

  /**
   * `handle_confirm_broadcast`: without a staged message nothing is sent
   * and the session is left as it is. Otherwise the unbanned users of this
   * moment are each sent the message once, in order, with one report line
   * each, the tally is reported and the session is cleared. The state itself
   * is not checked, and neither is the caller.
   */
  method ConfirmBroadcast(db: Database, s: Session, copy: int -> Delivery) returns (reply: Reply)
    requires s.Valid()
    modifies s
    ensures s.Valid()
    ensures !Staged(old(s.data)) ==> reply == MessageNotFound && s.state == old(s.state) && s.data == old(s.data)
    ensures Staged(old(s.data)) ==>
              var users := old(db.GetAllUsers());
              var lines := Reports(users, copy);
              && reply == BroadcastDone(lines, Tally(CountDelivered(lines), CountFailed(lines), |users|))
              && s.state == NoState && s.data == map[]
    ensures reply.BroadcastDone? ==>
              && reply.tally.total == |reply.lines| == |ActiveIds(db.users)|
              && reply.tally.success + reply.tally.failed == reply.tally.total
  {
    if !Staged(s.data) {
      return MessageNotFound;
    }
    var users := db.GetAllUsers();
    var lines, success, failed := Deliver(users, copy);
    reply := BroadcastDone(lines, Tally(success, failed, |users|));
    s.Clear();
  }

  /** `handle_ban_user_button`: an admin is asked for a username; anyone else changes nothing. */
  method BanUserButton(s: Session, admin: Membership) returns (reply: Reply)
    requires s.Valid()
    modifies s
    ensures s.Valid()
    ensures IsAdmin(admin) ==> reply == AskUsername && s.state == WaitingForUsername && s.data == old(s.data)
    ensures !IsAdmin(admin) ==> reply == NoRights && s.state == old(s.state) && s.data == old(s.data)
  {
    if !IsAdmin(admin) {
      return NoRights;
    }
    s.SetState(WaitingForUsername);
    reply := AskUsername;
  }

  /**
   * `process_ban_username`: the text is stripped and handed to the store,
   * which drops every `@`; the admin is told whether anyone was banned and
   * the session is cleared either way. A message without text raises before
   * anything changes.
   */
  method ProcessBanUsername(db: Database, s: Session, text: Option<string>) returns (reply: Reply)
    requires s.state == WaitingForUsername && s.Valid()
    modifies db, s
    ensures s.Valid()
    ensures text.None? ==>
              reply == Raised(NoText) && db.users == old(db.users) && s.state == old(s.state) && s.data == old(s.data)
    ensures text.Some? ==>
              var name := RemoveAt(Strip(text.value));
              && db.users == BanAll(old(db.users), name)
              && reply == BanReport(Targets(old(db.users), name) != {}, name)
              && s.state == NoState && s.data == map[]
  {
    if text.None? {
      return Raised(NoText);
    }
    var username := Strip(text.value);
    reply := BanAndReport(db, username);
    ghost var banned := db.users;
    s.Clear();
    assert db.users == banned;
  }

  /** The store's part of `process_ban_username`: the ban and the answer it decides. */
  method BanAndReport(db: Database, username: string) returns (reply: Reply)
    modifies db
    ensures var name := RemoveAt(username);
            && db.users == BanAll(old(db.users), name)
            && reply == BanReport(Targets(old(db.users), name) != {}, name)
  {
    var banned := db.BanUserByUsername(username);
    reply := BanReport(banned, RemoveAt(username));
  }

  /** `handle_cancel_broadcast`: the session is cleared from any state. */
  method CancelBroadcast(s: Session) returns (reply: Reply)
    modifies s
    ensures s.Valid() && reply == Cancelled
    ensures s.state == NoState && s.data == map[]
  {
    s.Clear();
    reply := Cancelled;
  }

  /** `handle_unknown_message`: a hint to use /start, with the admin menu for an admin; the session is not touched. */
  method UnknownMessage(admin: Membership) returns (reply: Reply)
    ensures reply == UseStart(IsAdmin(admin))
  {
    reply := UseStart(IsAdmin(admin));
  }
}
