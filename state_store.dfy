/**
 * The handlers' shared base: the per-chat conversation state dictionary,
 * the verified-user lookup and the admin broadcast.
 */
module BaseHandler {
  import opened Wrappers
  import opened Repository

  /** A value stored in a conversation state: the handlers keep strings and integers. */
  datatype Value = Str(s: string) | Num(n: int)

  /** One chat's conversation state, a dictionary from field name to value. */
  type ChatState = map<string, Value>

  /** `state.get(key)` when the stored value is text. */
  function TextField(st: ChatState, key: string): (r: Option<string>)
    ensures r.Some? <==> key in st && st[key].Str?
    ensures r.Some? ==> st[key] == Str(r.value)
  {
    if key in st && st[key].Str? then Some(st[key].s) else None
  }

  /** `state.get(key)` when the stored value is an integer. */
  function NumField(st: ChatState, key: string): (r: Option<int>)
    ensures r.Some? <==> key in st && st[key].Num?
    ensures r.Some? ==> st[key] == Num(r.value)
  {
    if key in st && st[key].Num? then Some(st[key].n) else None
  }

  /** The module-level `user_states` dictionary, keyed by Telegram user id. */
  class UserStates {
    var states: map<int, ChatState>

    /** The dictionary starts empty when the bot starts. */
    constructor ()
      ensures states == map[]
    {
      states := map[];
    }

    /** `get_user_state`: the chat's state, or an empty state for a chat that has none. */
    function Get(uid: int): (st: ChatState)
      reads this
      ensures uid !in states ==> st == map[]
      ensures uid in states ==> st == states[uid]
    {
      if uid in states then states[uid] else map[]
    }

    /** `set_user_state`: replaces the whole state of that chat; no other chat changes. */
    method Set(uid: int, st: ChatState)
      modifies this
      ensures Get(uid) == st
      ensures forall other :: other != uid ==> Get(other) == old(Get(other))
      ensures states == old(states)[uid := st]
    {
      states := states[uid := st];
    }

    /** `clear_user_state`: drops only that chat's entry; nothing happens when there is none. */
    method Clear(uid: int)
      modifies this
      ensures Get(uid) == map[]
      ensures forall other :: other != uid ==> Get(other) == old(Get(other))
      ensures uid !in old(states) ==> states == old(states)
      ensures states == old(states) - {uid}
    {
      if uid in states {
        states := states - {uid};
      }
    }
  }

  /**
   * `get_verified_user`: the account linked to the chat, provided its row is
   * marked verified; nothing when there is no such row or it is unverified.
   */
  function GetVerifiedUser(db: Database, tid: int): (r: Option<(string, Account)>)
    reads db
    requires db.Valid()
    ensures r.Some? ==> r.value.0 in db.accounts && db.accounts[r.value.0] == r.value.1
    ensures r.Some? ==> r.value.1.telegramId == Some(tid) && r.value.1.verified
    ensures r.None? ==> forall u :: u in db.accounts && db.accounts[u].telegramId == Some(tid) ==> !db.accounts[u].verified
  {
    var row := db.GetUserByTelegramId(tid);
    if row.Some? && row.value.1.verified then row else None
  }

  /**
   * Every linked row is verified (linking and registration both set the
   * flag), so the verification check never turns a linked chat away.
   */
  lemma VerifiedUserIsLinkedUser(db: Database, tid: int)
    requires db.Valid()
    ensures GetVerifiedUser(db, tid) == db.GetUserByTelegramId(tid)
  {
    var r := db.GetUserByTelegramId(tid);
    if r.Some? {
      assert db.accounts[r.value.0].telegramId.Some?;
    }
  }

  /** One delivery attempt of the admin broadcast: the admin's id and whether sending succeeded. */
  datatype Attempt = Attempt(adminId: int, delivered: bool)

  /**
   * `send_admin_notification`: tries every admin in order; a failed send is
   * logged and the loop goes on. `failing` are the admins whose send raises.
   */
  method SendAdminNotification(admins: seq<int>, failing: set<int>) returns (attempts: seq<Attempt>)
    ensures |attempts| == |admins|
    ensures forall k :: 0 <= k < |admins| ==> attempts[k].adminId == admins[k]
    ensures forall k :: 0 <= k < |admins| ==> (attempts[k].delivered <==> admins[k] !in failing)
  {
    attempts := [];
    var i := 0;
    while i < |admins|
      invariant 0 <= i <= |admins|
      invariant |attempts| == i
      invariant forall k :: 0 <= k < i ==> attempts[k] == Attempt(admins[k], admins[k] !in failing)
    {
      attempts := attempts + [Attempt(admins[i], admins[i] !in failing)];
      i := i + 1;
    }
  }
}
