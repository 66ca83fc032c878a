# Telegram registration and broadcast bot, modelled in Dafny

The bot registers shop owners through a three-step conversation (full name,
city, shop address) and stores them in an SQLite `users` table. Members of an
admin group can broadcast a message to every unbanned user, with one report
line per recipient and a closing tally, and can ban users by their Telegram
username.

The model has four parts:

- `store.dfy` is the `Database` class of database.py. The table is a
  `map<int, Row>` keyed by `user_id`. `add_user` and `ban_user_by_username`
  are methods that update it. `get_user`, `get_all_users` and
  `is_user_banned` are functions that read it.
- `fsm.dfy` is the per-chat conversation store (`FSMContext`): a class
  `Session` with a state and a dictionary of staged values. Its invariant
  `Valid()` says which values each state relies on.
- `broadcast.dfy` is the delivery loop of the broadcast, proved against the
  list of report lines it must produce. The loop exactly as written is
  modelled beside it (see Findings).
- `bot.py`'s handlers are in `bot.dfy`, as methods over one `Database` and
  one `Session`. `states.dfy` mirrors the three `StatesGroup`s as one
  datatype.

Three calls to Telegram become inputs:

- the admin-group membership lookup (`Membership`);
- the outcome of each `copy_message`, given as `copy: int -> Delivery`;
- whether the registration notice reached the admin group.

Every other answer or edit sent back to the user is taken to succeed; see
"Left out" for what that leaves unmodelled.

What a handler answers is a `Reply`. An exception that escapes a handler is
`Raised`.

`scenarios.dfy` runs whole conversations on a fresh store and proves what
they end with: a registration, a broadcast to three users, and a ban.

## Model

| member | source | states |
|---|---|---|
| Store.RemoveAt | database.py:75 | the result contains no `@`, keeps every other character of the input, is no longer than it, and is the input itself when there was no `@` |
| Store.RemoveAtConcat | database.py:75 | removing `@` distributes over concatenation |
| Store.RemoveAtIdempotent | database.py:75 | a second removal changes nothing |
| Store.Targets | database.py:77-82 | the keys of the rows the UPDATE touches; `rowcount` is their number |
| Store.TargetsAreNamedActive | database.py:77-82 | the rows the UPDATE touches are unbanned, and among the unbanned rows they are exactly those with the name |
| Store.BanAll | database.py:77-80 | the keys are kept; every row with the name is banned; rows with another name are untouched; only `is_banned` changes; no row is unbanned |
| Store.BanIdempotent | database.py:77-82 | after a ban no unbanned row has the name, and banning the same name again leaves the table as it is |
| Store.BanWithoutTargetsIsNoop | database.py:77-82 | when no unbanned row has the name (`rowcount` 0), the UPDATE leaves the table unchanged |
| Store.ActiveIds | database.py:59 | the keys selected by `is_banned = 0`: exactly the keys of unbanned rows |
| Store.SortedIds | database.py:57-61 | the keys of a set, each exactly once, in strictly ascending order (the rowid scan order) |
| Store.ProjectionOfActive | database.py:54-71 | rows listed by the sorted unbanned keys are exactly the unbanned rows, each once, without the flag, in ascending key order |
| Store.Database.constructor | database.py:10-24 | a new database has an empty `users` table |
| Store.Database.AddUser | database.py:26-33 | the insert succeeds exactly when name, city and address are all present (NOT NULL). On success the row for the key is replaced by the new values with `is_banned` reset to 0, and `get_user` returns them. On failure the table is unchanged |
| Store.Database.GetUser | database.py:35-52 | None exactly when no row has the key; otherwise the record carries that key and every column of its row |
| Store.Database.GetAllUsers | database.py:54-71 | one entry per unbanned row (as many as there are unbanned keys), each equal to its row without the flag; every unbanned row appears; keys strictly ascending |
| Store.Database.BanUserByUsername | database.py:73-82 | the new table is `BanAll` of the old one under the `@`-free name; the result is true exactly when some unbanned row had that name |
| Store.Database.IsUserBanned | database.py:84-91 | true exactly when `get_user` finds a row whose flag is set; false for a key with no row |
| Fsm.Truthy | bot.py:165-169 | Python truthiness of `data.get(key)`: false exactly for a missing key, `None`, `0` and `""` |
| Fsm.Staged | bot.py:165-169 | the guard of the confirm handler passes exactly when both ids are staged with truthy values |
| Fsm.StagingNonZeroIds | bot.py:145-148 | staging non-zero message and chat ids makes the staged check of the confirm handler pass, whatever was staged before |
| Fsm.Session.constructor | bot.py:21 | a new chat has no state and no data, and satisfies the session invariant |
| Fsm.Session.Clear | bot.py:36 | `state.clear()`: no state, no data, invariant holds |
| Fsm.Session.SetState | bot.py:65 | `set_state`: the state is replaced and the data kept |
| Fsm.Session.UpdateData | bot.py:71 | `update_data`: the new values are merged over the old ones; the state is kept |
| Broadcast.ReportOf | bot.py:189-205 | the line names the recipient; it is a delivery exactly when the copy succeeded; a failure carries the error text exactly when the copy raised `TelegramBadRequest` |
| Broadcast.Reports | bot.py:182-205 | one line per recipient, in snapshot order, each the report of that recipient's own copy |
| Broadcast.CountDelivered | bot.py:189 | never more than the number of lines |
| Broadcast.CountFailed | bot.py:199-203 | never more than the number of lines |
| Broadcast.CountsPartition | bot.py:178-212 | deliveries plus failures equal the number of lines |
| Broadcast.DeliveredAreOk | bot.py:183-189 | the success count equals the number of recipients whose copy returned normally |
| Broadcast.Deliver | bot.py:182-205 | the loop sends exactly the report lines of the snapshot; its counters are the delivered and failed counts, and they add up to the number of recipients |
| Broadcast.StepAsWritten | bot.py:183-205 | one pass of the loop as written: a successful copy always adds to the successes, and adds to the failures too exactly when its report line could not be answered; a failed copy adds one failure; an escape stops the run and sends nothing more |
| Broadcast.RunAsWritten | bot.py:182-205 | the loop as written: successes never exceed recipients; if nothing escapes, the two counters add up to between one and two times the number of recipients |
| Broadcast.AsWrittenAgreesWhenAnswered | bot.py:182-205 | when every report reaches the admin, the loop as written produces the same lines and counts as `Deliver` |
| Broadcast.ReportFailureCountsTwice | bot.py:189-201 | one recipient who received the message, but whose report line failed, is counted once as delivered and once as failed |
| Bot.IsAdmin | bot.py:23-31 | false when the lookup raised; otherwise true exactly for creator, administrator and member |
| Bot.IsSpace | bot.py:239 | `str.isspace` on one character: the characters Python counts as whitespace |
| Bot.AsciiWhitespace | bot.py:239 | the ASCII blanks are whitespace; no visible ASCII character (so no letter, digit, `_` or `@` of a username) is |
| Bot.StripLeft | bot.py:239 | removes exactly the leading whitespace: the result is a suffix, what was removed is whitespace, and the result does not start with whitespace |
| Bot.StripRight | bot.py:239 | removes exactly the trailing whitespace: the result is a prefix, what was removed is whitespace, and the result does not end with whitespace |
| Bot.Strip | bot.py:239 | the result neither starts nor ends with whitespace and is no longer than the input |
| Bot.StripPadded | bot.py:239 | whitespace on either side of a text without surrounding whitespace is removed, and the text is kept |
| Bot.StripUnpadded | bot.py:239 | a text with no whitespace at either end is returned unchanged |
| Bot.StripIdempotent | bot.py:239 | stripping twice is stripping once |
| Bot.Handle | bot.py:87 | never empty; the Telegram username when there is a non-empty one, otherwise the placeholder |
| Bot.TypedHandle | bot.py:239 | the name the ban handler looks up does not depend on whitespace around the typed text |
| Bot.PlaceholderAsTyped | bot.py:87 | typing the placeholder looks up the placeholder itself |
| Bot.PlaceholderBansEveryoneWithout | bot.py:87 | an admin who types the placeholder bans every user stored without a username |
| Bot.CmdStart | bot.py:33-65 | the session is cleared. A banned user is refused; an admin gets the menu; a registered user is welcomed back; only a new user is asked for a name and enters `waiting_for_name` |
| Bot.ProcessName | bot.py:68-73 | the text is staged as the full name and the state moves to `waiting_for_city`; other data is kept |
| Bot.ProcessCity | bot.py:75-80 | the text is staged as the city and the state moves to `waiting_for_address`; other data is kept |
| Bot.ProcessAddress | bot.py:82-118 | with name, city and address present: the row is upserted unbanned under the handle, the notice carries the same values, and the session is cleared. Otherwise the insert raises and the table and session are untouched |
| Bot.BroadcastButton | bot.py:121-132 | an admin is offered the broadcast; anyone else is refused |
| Bot.StartBroadcast | bot.py:134-140 | the state moves to `waiting_for_message` with the data kept (no admin check) |
| Bot.ProcessBroadcastMessage | bot.py:142-160 | message and chat ids are merged into the data; the prompt shows the number of unbanned users; the state moves to `waiting_for_confirmation` |
| Bot.ConfirmBroadcast | bot.py:162-221 | with nothing staged: an error answer, session unchanged. Otherwise the report lines of the snapshot of unbanned users and their tally, which adds up to the snapshot's size, and the session is cleared |
| Bot.BanUserButton | bot.py:223-234 | an admin is asked for a username and enters `waiting_for_username`; anyone else changes nothing |
| Bot.ProcessBanUsername | bot.py:236-255 | a message without text raises with nothing changed. Otherwise the table is banned under the stripped, `@`-free name; the answer says whether an unbanned row had it; the session is cleared |
| Bot.CancelBroadcast | bot.py:257-265 | the session is cleared from any state |
| Bot.UnknownMessage | bot.py:268-279 | a hint to use /start, with the admin menu exactly for an admin |
| Scenarios.RegistrationFlow | bot.py:33-118 | /start, name, city, address from a user without a username: the four replies in order, the stored record with the placeholder handle, unbanned, and a session with no state and no data |
| Scenarios.ThreeUsers | database.py:26-33 | three successful inserts leave exactly their three unbanned rows |
| Scenarios.StageBroadcast | bot.py:134-160 | start plus a message leave a valid session with a staged message |
| Scenarios.ConfirmThree | bot.py:162-221 | confirming over a snapshot of three users where only the second fails gives their three lines and the tally 2 / 1 / 3 |
| Scenarios.BroadcastToThree | bot.py:134-221 | a whole broadcast to three users, the copy to the second refused with `TelegramBadRequest` (a 400 such as "chat not found"): the reply lists them in key order, the second with the error text, and the tally 2 / 1 / 3 |
| Scenarios.ReportsOfThree | bot.py:182-212 | the report lines and counts of a run over three recipients where only the second fails |
| Scenarios.DoneOfThree | bot.py:207-214 | the closing reply of such a run |
| Scenarios.SnapshotOfThree | database.py:54-71 | three unbanned rows are listed in ascending key order |
| Scenarios.InKeyOrder | database.py:54-71 | any listing of three rows, each once, in ascending key order, is that order |
| Scenarios.NoneBannedAllActive | database.py:59 | with no row banned, every key is selected |
| Scenarios.BanFlow | bot.py:223-255 | a ban typed as " @handle " bans the user. A second attempt reports nothing banned, the user's next /start is refused, and no one is left to broadcast to |
| Scenarios.BanOnlyRow | database.py:77-82 | banning the only row's handle finds it, bans it, leaves no unbanned key and nothing to ban a second time |
| Scenarios.TypedWithSpaces | bot.py:239-242 | " @" + handle + " " is looked up as the handle itself |

## Left out

- Telegram itself is left out. The outcomes of `get_chat_member`, of `copy_message` and of the registration notice's `send_message` are inputs. The text of the messages, the keyboards (keyboards.py is not part of this model) and logging are not modelled. A reply is a constructor, not a string.
- Bot.CmdStart: assumes the `answer` at bot.py:60-64 succeeds. If it raised, a new user would be left with no state, where the model says `waiting_for_name`.
- Bot.ProcessAddress: assumes the `answer` at bot.py:113-117 succeeds. If it raised, the row would be stored but the session not cleared.
- Bot.ProcessBanUsername: assumes the `answer`s at bot.py:244-253 succeed. If one raised, the ban would be done but the session not cleared.
- Bot.ConfirmBroadcast: every handler assumes that its `answer`, `callback.answer` and `edit_text` succeed. `ConfirmBroadcast` runs the corrected loop `Deliver`, so it never shows the double count or the escape of the loop as written (see Findings). The two agree when every report reaches the admin (`AsWrittenAgreesWhenAnswered`).
- `asyncio.sleep(0.1)` between deliveries, and the concurrency of handlers for different chats, are not modelled. Each handler runs to completion on one session and one store.
- aiogram's routing is not modelled. A message handler runs only in its state; this is its `requires` on `s.state`. The callback handlers have no state filter, so theirs have none.
- The SQLite connection, `init_db`'s schema text, the `registration_date` column and the module-level `db` instance are not modelled.
- Keys and ids are unbounded integers. The 64-bit range of SQLite `INTEGER` and of Telegram ids is not modelled.
- Usernames are compared as exact strings. This is SQLite's default for `=` on TEXT.
- `get_all_users` has no ORDER BY. The model fixes ascending key order, which is the order of a rowid scan. SQL itself does not promise it.
- A message without text is modelled (its text is `None`). Other kinds of update, such as a callback without a message, are not.

## Findings

| source | as written | input that shows it | evidently intended | confidence | as-written member | corrected member |
|---|---|---|---|---|---|---|
| bot.py:183-205 | The report to the admin (line 193) is sent inside the `try` that guards `copy_message`. If that answer raises after a successful copy, `failed_count` is incremented on top of `success_count`, and the admin gets an error line for a user who did receive the message. If the error line itself then raises, the exception leaves the loop and the run stops without a tally | One recipient: the copy succeeds, the report answer raises, and the error answer succeeds. The tally reads 1 delivered, 1 failed, 1 in total | every recipient counted exactly once, and a failed report does not affect the counts or stop the run | not executed | Broadcast.ReportFailureCountsTwice | Broadcast.Deliver |
