/**
 * The bot's dispatcher: inline-button data is decoded into an action by a
 * first-match chain of exact names and prefixes, and free text is sent to
 * the reply-keyboard handler when it is one of the menu labels and to the
 * registration flow otherwise.
 */
module Coordinator {
  import opened Wrappers
  import opened PyStr
  import opened Catalog
  import opened Repository
  import opened BaseHandler
  import PaymentHandlers
  import Registration
  import Config

  /** What a button press asks for. Payloads are what the dispatcher hands to the handler. */
  datatype Action =
    | MainMenu
    | Support
    /**
     * The dispatcher hands this to `download_app_callback`, which the
     * user handlers do not define (they have `download_app_command`), so
     * the press ends in the dispatcher's generic error answer.
     */
    | DownloadApp
    | RegisterNew
    | LinkExisting
    | Status
    | GetSubscription(username: string)
    | TestSubscription(username: string)
    | Payment
    | PayAccount(username: string)
    | ChoosePlan(planId: string, account: Option<string>)
    | Paid(planId: string, account: Option<string>)
    | SetActiveAccount
    | MyAccounts
    | Unknown

  const GetSubscriptionPrefix := "get_subscription_"
  const TestSubPrefix := "test_sub_"
  const PayAccountPrefix := "payacc_"
  const PlanPrefix := "plan_"
  const PaidPrefix := "paid_"
  const SetActivePrefix := "set_active_account_"

  /**
   * A `plan_`/`paid_` payload as written: split on every `_`; exactly
   * three parts give the plan id and the account, anything else makes the
   * whole remainder (every copy of the prefix removed) the plan id.
   */
  function PlanPayloadAsWritten(data: string, prefix: string): (string, Option<string>) {
    var parts := Split(data, '_');
    if |parts| == 3 then (parts[1], Some(parts[2])) else (Replace(data, prefix, ""), None)
  }

  /**
   * `button_callback`'s decoding as written, first match wins in the order
   * of the chain.
   */
  function DecodeAsWritten(data: string): Action
  {
    if data == "main_menu" then MainMenu
    else if data == "support" then Support
    else if data == "download_app" then DownloadApp
    else if data == "register_new" then RegisterNew
    else if data == "link_existing" then LinkExisting
    else if data == "status" then Status
    else if StartsWith(data, GetSubscriptionPrefix) then GetSubscription(Replace(data, GetSubscriptionPrefix, ""))
    else if StartsWith(data, TestSubPrefix) then TestSubscription(Replace(data, TestSubPrefix, ""))
    else if data == "payment" then Payment
    else if StartsWith(data, PayAccountPrefix) then PayAccount(Replace(data, PayAccountPrefix, ""))
    else if StartsWith(data, PlanPrefix) then
      var p := PlanPayloadAsWritten(data, PlanPrefix); ChoosePlan(p.0, p.1)
    else if StartsWith(data, PaidPrefix) then
      var p := PlanPayloadAsWritten(data, PaidPrefix); Paid(p.0, p.1)
    else if StartsWith(data, SetActivePrefix) then SetActiveAccount
    else if data == "my_accounts" then MyAccounts
    else Unknown
  }

  /**
   * A `plan_`/`paid_` payload as intended, `data.split("_", 2)`: the plan
   * id runs to the next `_` and the account is all the rest.
   */
  function PlanPayload(data: string, prefix: string): (r: (string, Option<string>))
    requires StartsWith(data, prefix)
    ensures r.1.Some? ==> '_' !in r.0 && data == prefix + r.0 + "_" + r.1.value
    ensures r.1.None? ==> r.0 == Replace(data, prefix, "")
  {
    var parts := SplitOnce(data[|prefix|..], '_');
    assert data == prefix + data[|prefix|..];
    if |parts| == 2 then (parts[0], Some(parts[1])) else (Replace(data, prefix, ""), None)
  }

  /** The decoder with the intended `plan_`/`paid_` split; every other branch as written. */
  function Decode(data: string): Action
  {
    if StartsWith(data, PlanPrefix) then
      var p := PlanPayload(data, PlanPrefix); ChoosePlan(p.0, p.1)
    else if StartsWith(data, PaidPrefix) then
      var p := PlanPayload(data, PaidPrefix); Paid(p.0, p.1)
    else DecodeAsWritten(data)
  }

  /** Data starting with `plan_` passes every earlier test of the chain. */
  lemma PlanBranch(data: string)
    requires StartsWith(data, PlanPrefix)
    ensures DecodeAsWritten(data) == ChoosePlan(PlanPayloadAsWritten(data, PlanPrefix).0, PlanPayloadAsWritten(data, PlanPrefix).1)
    ensures Decode(data) == ChoosePlan(PlanPayload(data, PlanPrefix).0, PlanPayload(data, PlanPrefix).1)
  {
    assert data[0] == data[..5][0] == 'p' && data[1] == data[..5][1] == 'l';
  }

  /** Data starting with `paid_` passes every earlier test of the chain. */
  lemma PaidBranch(data: string)
    requires StartsWith(data, PaidPrefix)
    ensures DecodeAsWritten(data) == Paid(PlanPayloadAsWritten(data, PaidPrefix).0, PlanPayloadAsWritten(data, PaidPrefix).1)
    ensures Decode(data) == Paid(PlanPayload(data, PaidPrefix).0, PlanPayload(data, PaidPrefix).1)
  {
    assert data[0] == data[..5][0] == 'p' && data[1] == data[..5][1] == 'a' && data[2] == data[..5][2] == 'i';
  }

  /** Data starting with `payacc_` passes every earlier test of the chain. */
  lemma PayAccountBranch(data: string)
    requires StartsWith(data, PayAccountPrefix)
    ensures DecodeAsWritten(data) == PayAccount(Replace(data, PayAccountPrefix, ""))
  {
    assert data[0] == data[..7][0] == 'p' && data[1] == data[..7][1] == 'a' && data[2] == data[..7][2] == 'y';
    assert data[3] == data[..7][3] == 'a';
  }

  // ---------------------------------------------------------------------
  // The buttons the handlers build
  // ---------------------------------------------------------------------

  /** `plan_{plan.id}_{username}` and `paid_{plan.id}_{username}`. */
  function PlanButton(prefix: string, planId: int, username: string): string {
    prefix + IntToString(planId) + "_" + username
  }

  /** `payacc_{username}`. */
  function PayAccountButton(username: string): string {
    PayAccountPrefix + username
  }

  /** The plan and paid buttons split as the handlers meant for every plan id and every account without `_`. */
  lemma PlanButtonAsWritten(planId: int, username: string)
    requires '_' !in username
    ensures DecodeAsWritten(PlanButton(PlanPrefix, planId, username)) == ChoosePlan(IntToString(planId), Some(username))
    ensures DecodeAsWritten(PlanButton(PaidPrefix, planId, username)) == Paid(IntToString(planId), Some(username))
  {
    var d := IntToString(planId);
    IntToStringHasNoSeparators(planId, '_');
    var plan, paid := PlanButton(PlanPrefix, planId, username), PlanButton(PaidPrefix, planId, username);
    assert plan == "plan" + "_" + d + "_" + username;
    assert paid == "paid" + "_" + d + "_" + username;
    SplitPlanButton("plan", d, username);
    SplitPlanButton("paid", d, username);
    assert plan[..5] == PlanPrefix;
    assert paid[..5] == PaidPrefix;
    PlanBranch(plan);
    PaidBranch(paid);
  }

  lemma SplitPlanButton(word: string, d: string, u: string)
    requires '_' !in word && '_' !in d && '_' !in u
    ensures Split(word + "_" + d + "_" + u, '_') == [word, d, u]
  {
    assert word + "_" + d + "_" + u == word + ['_'] + (d + ['_'] + u);
    SplitConcat(word, d + ['_'] + u, '_');
    SplitConcat(d, u, '_');
    SplitAbsent(word, '_');
    SplitAbsent(d, '_');
    SplitAbsent(u, '_');
  }

  /**
   * For an account with `_` in its name the plan button is not split into
   * plan and account: the plan id becomes `{id}_{account}`, which names no
   * plan, so paying for such an account ends with "invalid plan".
   */
  lemma UnderscoredAccountLosesPlan(plans: seq<Plan>, planId: nat, username: string)
    requires '_' in username
    ensures var a := DecodeAsWritten(PlanButton(PlanPrefix, planId, username));
      a.ChoosePlan? && a.account.None? && FindPlan(plans, a.planId).None?
  {
    var d := IntToString(planId);
    var data := PlanButton(PlanPrefix, planId, username);
    IntToStringHasNoSeparators(planId, '_');
    assert |Split(data, '_')| != 3 by {
      assert data == "plan" + ['_'] + (d + ['_'] + username);
      SplitConcat("plan", d + ['_'] + username, '_');
      SplitConcat(d, username, '_');
      SplitAbsent("plan", '_');
      SplitAbsent(d, '_');
      JoinSplit(username, '_');
    }
    var id := Replace(data, PlanPrefix, "");
    assert '_' in id by {
      IntToStringChars(planId, 'p');
      assert data == PlanPrefix + (d + ("_" + username));
      ReplaceLeading(PlanPrefix, d + ("_" + username));
      ReplaceSkips(d, "_" + username, PlanPrefix);
      ReplaceSkips("_", username, PlanPrefix);
      assert id[|d|] == '_';
    }
    FindPlanRejectsUnderscore(plans, id);
    assert data[..5] == PlanPrefix;
    PlanBranch(data);
  }

  /** After the prefix, the plan id runs to the first `_`, so an account may hold any character. */
  lemma PayloadRoundTrip(prefix: string, d: string, u: string)
    requires |prefix| == 5 && '_' !in d
    ensures PlanPayload(prefix + d + "_" + u, prefix) == (d, Some(u))
  {
    var data := prefix + d + "_" + u;
    assert data[..|prefix|] == prefix;
    assert data[|prefix|..] == d + ['_'] + u;
    SplitOnceAt(d, u, '_');
  }

  /** The intended split gives back plan id and account for every account name. */
  lemma PlanButtonRoundTrip(planId: int, username: string)
    ensures Decode(PlanButton(PlanPrefix, planId, username)) == ChoosePlan(IntToString(planId), Some(username))
    ensures Decode(PlanButton(PaidPrefix, planId, username)) == Paid(IntToString(planId), Some(username))
  {
    var d := IntToString(planId);
    IntToStringHasNoSeparators(planId, '_');
    var plan, paid := PlanButton(PlanPrefix, planId, username), PlanButton(PaidPrefix, planId, username);
    PayloadRoundTrip(PlanPrefix, d, username);
    PayloadRoundTrip(PaidPrefix, d, username);
    assert plan[..5] == PlanPrefix;
    assert paid[..5] == PaidPrefix;
    PlanBranch(plan);
    PaidBranch(paid);
  }

  /**
   * `str.replace` removes every copy of the prefix, not just the leading
   * one: an account named `payacc_x` is decoded as `x`.
   */
  lemma PayAccountDropsEveryPrefix(username: string)
    ensures DecodeAsWritten(PayAccountButton(username)) == PayAccount(Replace(username, PayAccountPrefix, ""))
    ensures !Contains(username, PayAccountPrefix) ==> DecodeAsWritten(PayAccountButton(username)) == PayAccount(username)
    ensures DecodeAsWritten(PayAccountButton(PayAccountPrefix + username)) == DecodeAsWritten(PayAccountButton(username))
  {
    ReplaceLeading(PayAccountPrefix, username);
    ReplaceLeading(PayAccountPrefix, PayAccountPrefix + username);
    assert PayAccountButton(username)[..|PayAccountPrefix|] == PayAccountPrefix;
    assert PayAccountButton(PayAccountPrefix + username)[..|PayAccountPrefix|] == PayAccountPrefix;
    PayAccountBranch(PayAccountButton(username));
    PayAccountBranch(PayAccountButton(PayAccountPrefix + username));
    if !Contains(username, PayAccountPrefix) {
      ReplaceAbsent(username, PayAccountPrefix, "");
    }
  }

  // ---------------------------------------------------------------------
  // The `paid_` button
  // ---------------------------------------------------------------------

  /**
   * The account a `paid_` press claims for: the named account when it is
   * one of the caller's, the verified account for the old short form.
   */
  function ClaimTarget(db: Database, uid: int, account: Option<string>): (r: Option<(string, Account)>)
    reads db
    requires db.Valid()
    ensures account.Some? ==> (r.Some? <==> account.value in LinkedTo(db.accounts, uid))
    ensures account.None? ==> r == GetVerifiedUser(db, uid)
    ensures r.Some? ==> r.value.0 in db.accounts && r.value.1 == db.accounts[r.value.0] && r.value.1.telegramId == Some(uid)
  {
    if account.Some? then
      if account.value in UsersByTelegramId(db.accounts, uid) then Some((account.value, db.accounts[account.value])) else None
    else GetVerifiedUser(db, uid)
  }

  /**
   * The `paid_` branch of `button_callback`: an account that is not the
   * caller's gets "user not found" and no request is filed; otherwise the
   * claim is made for that account.
   */
  method PaidCallback(db: Database, states: UserStates, plans: seq<Plan>, admins: seq<int>, uid: int,
                      planId: string, account: Option<string>, now: int, fault: bool, messageId: int,
                      noticeFails: bool, failing: set<int>)
    returns (reply: PaymentHandlers.Reply, effects: seq<PaymentHandlers.Effect>)
    requires db.Valid()
    modifies db, states
    ensures db.Valid()
    ensures old(ClaimTarget(db, uid, account)).None? ==>
      reply == PaymentHandlers.UserNotFound && effects == [] && db.requests == old(db.requests) && states.states == old(states.states)
    ensures reply.ClaimCreated? ==> (
      && old(ClaimTarget(db, uid, account)).Some?
      && reply.requestId in db.requests
      && db.requests[reply.requestId].username == old(ClaimTarget(db, uid, account)).value.0
      && db.requests[reply.requestId].telegramId == uid)
    ensures db.accounts == old(db.accounts) && db.history == old(db.history)
  {
    var target := ClaimTarget(db, uid, account);
    if target.None? {
      return PaymentHandlers.UserNotFound, [];
    }
    reply, effects := PaymentHandlers.HandlePaymentClaim(db, states, plans, admins, uid, planId, target.value.0, uid,
      now, fault, messageId, noticeFails, failing);
  }

  // ---------------------------------------------------------------------
  // Free text
  // ---------------------------------------------------------------------

  /** The labels of the reply keyboard's buttons. */
  const MenuLabels: seq<string> := [
    "🏠 Главное меню", "📊 Мой статус", "🔗 Ссылка подписки",
    "💳 Оплатить", "📱 Приложения", "📞 Поддержка", "ℹ️ Помощь",
    "🆕 Создать аккаунт", "🔗 Связать аккаунт", "👑 Админ панель",
    "📊 Статистика", "👥 Новые пользователи", "💰 Ожидающие платежи",
    "🔗 Ссылки для привязки", "🔧 Команды", "◀️ Назад"]

  datatype TextRoute = ReplyKeyboard | ToRegistration

  /** `handle_text_messages`: a menu label goes to the keyboard handler, any other text to registration. */
  function RouteText(text: string): (r: TextRoute)
    ensures r == ReplyKeyboard <==> text in MenuLabels
  {
    if text != "" && text in MenuLabels then ReplyKeyboard else ToRegistration
  }

  /** Every label starts with a symbol that is neither a username character nor white space, and ends in a letter. */
  predicate LabelShape(text: string) {
    |text| > 1 && !IsSpace(text[0]) && !IsSpace(text[|text| - 1]) && !Config.UsernameChar(text[0])
  }

  lemma MenuLabelsShaped()
    ensures forall i :: 0 <= i < |MenuLabels| ==> LabelShape(MenuLabels[i])
  {
  }

  lemma LabelIsNoUsername(text: string)
    requires LabelShape(text)
    ensures !Registration.ValidateUsername(Strip(text))
  {
    StripNoEdges(text);
  }

  /**
   * No menu label is an acceptable username, so routing labels away from
   * registration never swallows a username the user could register.
   */
  lemma MenuNeverTakesUsername(text: string)
    requires Registration.ValidateUsername(Strip(text))
    ensures RouteText(text) == ToRegistration
  {
    if text in MenuLabels {
      var i :| 0 <= i < |MenuLabels| && MenuLabels[i] == text;
      MenuLabelsShaped();
      LabelIsNoUsername(MenuLabels[i]);
    }
  }
}
