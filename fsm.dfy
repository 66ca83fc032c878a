/**
 * The per-chat conversation store that aiogram's `FSMContext` gives every
 * handler: a current state and a dictionary of staged values. Only the four
 * keys the bot writes are modelled.
 */
module Fsm {
  import opened Wrappers
  import opened States

  /** The keys the handlers write with `update_data`. */
  datatype Field = FullName | City | BroadcastMessageId | BroadcastChatId

  /** A staged value: message text (`Null` when the message had none) or a Telegram id. */
  datatype Value = Str(s: string) | Int(n: int) | Null

  /** Python truthiness of `data.get(key)`: a missing key, `None`, `0` and `""` are all false. */
  predicate Truthy(v: Option<Value>): (b: bool)
    ensures b <==> v.Some? && v.value !in {Null, Int(0), Str("")}
  {
    match v
    case None => false
    case Some(Str(s)) => s != ""
    case Some(Int(n)) => n != 0
    case Some(Null) => false
  }

  /** `data.get(key)`: the staged value, or None when the key was never written. */
  function Lookup(data: map<Field, Value>, f: Field): Option<Value> {
    if f in data then Some(data[f]) else None
  }

  /**
   * The test at the head of `handle_confirm_broadcast`: both the message id
   * and the chat id of the broadcast are present and truthy.
   */
  predicate Staged(data: map<Field, Value>): (b: bool)
    ensures b <==> && BroadcastMessageId in data && data[BroadcastMessageId] !in {Null, Int(0), Str("")}
                   && BroadcastChatId in data && data[BroadcastChatId] !in {Null, Int(0), Str("")}
  {
    Truthy(Lookup(data, BroadcastMessageId)) && Truthy(Lookup(data, BroadcastChatId))
  }

  /** Staging a message by non-zero ids, over whatever was staged before, passes that test. */
  lemma StagingNonZeroIds(data: map<Field, Value>, messageId: int, chatId: int)
    requires messageId != 0 && chatId != 0
    ensures Staged(data + map[BroadcastMessageId := Int(messageId), BroadcastChatId := Int(chatId)])
  {
    var d := data + map[BroadcastMessageId := Int(messageId), BroadcastChatId := Int(chatId)];
    assert d[BroadcastMessageId] == Int(messageId) && d[BroadcastChatId] == Int(chatId);
  }

  /** The value `update_data(key=message.text)` stores. */
  function TextValue(text: Option<string>): Value {
    if text.Some? then Str(text.value) else Null
  }

  class Session {
    var state: State
    var data: map<Field, Value>

    /**
     * What every handler keeps true: text fields hold text, id fields hold
     * ids, and the registration states are only entered after the values
     * they rely on were staged.
     */
    ghost predicate Valid()
      reads this
    {
      && (FullName in data ==> !data[FullName].Int?)
      && (City in data ==> !data[City].Int?)
      && (BroadcastMessageId in data ==> data[BroadcastMessageId].Int?)
      && (BroadcastChatId in data ==> data[BroadcastChatId].Int?)
      && (state == WaitingForCity ==> FullName in data)
      && (state == WaitingForAddress ==> FullName in data && City in data)
      && (state == WaitingForConfirmation ==> BroadcastMessageId in data && BroadcastChatId in data)
    }

    /** A chat the bot has not seen: no state, no data. */
    constructor ()
      ensures state == NoState && data == map[]
      ensures Valid()
    {
      state := NoState;
      data := map[];
    }

    /** `state.clear()`: back to no state, every staged value discarded. */
    method Clear()
      modifies this
      ensures state == NoState && data == map[]
      ensures Valid()
    {
      state := NoState;
      data := map[];
    }

    /** `state.set_state(s)`: the data is kept. */
    method SetState(s: State)
      modifies this
      ensures state == s && data == old(data)
    {
      state := s;
    }

    /** `state.update_data(...)`: the new values are merged over the old ones. */
    method UpdateData(d: map<Field, Value>)
      modifies this
      ensures state == old(state) && data == old(data) + d
    {
      data := data + d;
    }
  }
}
