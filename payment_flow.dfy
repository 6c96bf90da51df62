/**
 * The payment workflow: a user picks a plan and an account, claims to have
 * paid (which files a pending request), uploads a receipt, and an
 * administrator approves or rejects the request; only an approval that
 * wins the pending-to-approved update extends the subscription on the
 * panel and writes the ledger row.
 *
 * Every handler returns what the bot answers (`Reply`) and the external
 * calls it made, in order (`Effect`). Delivery failures of chat messages
 * are parameters; storage errors are the `fault` flags of the repository.
 */
module PaymentHandlers {
  import opened Wrappers
  import opened PyStr
  import opened Catalog
  import opened Repository
  import opened BaseHandler
  import Panel
  import Config

  /** What the bot answers the user or administrator who triggered the handler. */
  datatype Reply =
    | Silent
    | Crashed
    | NoAdminRights
    | Usage
    | InvalidPlan
    | UserNotFound
    | PaymentDetails(plan: Plan, username: string)
    | ClaimFailed
    | ClaimCreated(requestId: int)
    | UnsupportedFile
    | ReceiptNotSaved
    | ReceiptReceived(requestId: int)
    | BadRequestId
    | RequestNotFound(requestId: int)
    | AlreadyProcessed(requestId: int)
    | DecisionFailed(requestId: int)
    | ApprovedAndExtended(requestId: int)
    | ApprovedNotExtended(requestId: int)
    | RequestRejected(requestId: int)
    | SubscriptionExtended(username: string)
    | ExtensionFailed(username: string)

  /** An external call a handler made: a repository write, a panel call or a chat notification. */
  datatype Effect =
    | RequestCreated(requestId: int)
    | ReceiptStored(requestId: int, ok: bool)
    | Decided(requestId: int, verdict: RequestStatus, ok: bool)
    | ExtendCalled(username: string, days: int, ok: bool)
    | PaymentRecorded(username: string, amount: real, ok: bool)
    | UserNotified(chat: int, delivered: bool)
    | AdminsNotified(attempts: seq<Attempt>)

  /** How many panel extensions a sequence of effects attempted. */
  function ExtendCount(effects: seq<Effect>): nat
    decreases |effects|
  {
    if effects == [] then 0
    else (if effects[0].ExtendCalled? then 1 else 0) + ExtendCount(effects[1..])
  }

  /** Counting the extensions of two runs one after the other is adding their counts. */
  lemma {:induction false} ExtendCountConcat(a: seq<Effect>, b: seq<Effect>)
    ensures ExtendCount(a + b) == ExtendCount(a) + ExtendCount(b)
    decreases |a|
  {
    if a != [] {
      assert (a + b)[1..] == a[1..] + b;
      ExtendCountConcat(a[1..], b);
    } else {
      assert a + b == b;
    }
  }

  /** A run without an extension call counts none. */
  lemma {:induction false} NoExtendCount(s: seq<Effect>)
    requires forall i :: 0 <= i < |s| ==> !s[i].ExtendCalled?
    ensures ExtendCount(s) == 0
    decreases |s|
  {
    if s != [] {
      NoExtendCount(s[1..]);
    }
  }

  /** One extension call followed by effects that are not extension calls counts one. */
  lemma ExtendCountAfter(d: Effect, x: Effect, rest: seq<Effect>)
    requires !d.ExtendCalled? && forall i :: 0 <= i < |rest| ==> !rest[i].ExtendCalled?
    ensures ExtendCount([d, x] + rest) <= 1
  {
    ExtendCountConcat([d, x], rest);
    NoExtendCount(rest);
    assert [d, x][1..] == [x];
    assert [x][1..] == [];
  }

  const WaitingReceipt := "waiting_receipt"
  const DefaultApproveComment := "Одобрено администратором"

  /** The conversation state of a chat whose claim waits for its receipt. */
  function ReceiptState(requestId: int, planId: string, username: string): (st: ChatState)
    ensures TextField(st, "state") == Some(WaitingReceipt) && NumField(st, "request_id") == Some(requestId)
    ensures "plan_id" in st && "username" in st
  {
    map["state" := Str(WaitingReceipt), "request_id" := Num(requestId), "plan_id" := Str(planId), "username" := Str(username)]
  }

  /** The state after the claim message has been edited: the receipt state plus that message's id. */
  function ClaimState(requestId: int, planId: string, username: string, messageId: int): (st: ChatState)
    ensures TextField(st, "state") == Some(WaitingReceipt) && NumField(st, "request_id") == Some(requestId)
    ensures "plan_id" in st && "username" in st && NumField(st, "payment_message_id") == Some(messageId)
  {
    ReceiptState(requestId, planId, username)["payment_message_id" := Num(messageId)]
  }

  // ---------------------------------------------------------------------
  // Choosing the account to pay for
  // ---------------------------------------------------------------------

  /** The account named `username`, provided it is one of the chat's own accounts. */
  function OwnAccount(db: Database, uid: int, username: string): (r: Option<(string, Account)>)
    reads db
    requires db.Valid()
    ensures r.Some? <==> username in db.accounts && db.accounts[username].telegramId == Some(uid)
    ensures r.Some? ==> r.value == (username, db.accounts[username])
  {
    var linked := UsersByTelegramId(db.accounts, uid);
    if username in linked then Some((username, db.accounts[username])) else None
  }

  /**
   * The account `process_payment_plan` works on: the explicit username if
   * it is one of the chat's accounts; else the state's `active_account`
   * if it is; else the chat's verified account.
   */
  function ResolveTarget(db: Database, st: ChatState, uid: int, explicit: Option<string>): (r: Option<(string, Account)>)
    reads db
    requires db.Valid()
    ensures Truthy(explicit) ==> r == OwnAccount(db, uid, explicit.value)
    ensures !Truthy(explicit) && Truthy(TextField(st, "active_account")) ==>
      r == OwnAccount(db, uid, TextField(st, "active_account").value)
    ensures !Truthy(explicit) && !Truthy(TextField(st, "active_account")) ==> r == GetVerifiedUser(db, uid)
    ensures r.Some? ==> r.value.0 in db.accounts && db.accounts[r.value.0].telegramId == Some(uid)
  {
    if Truthy(explicit) then OwnAccount(db, uid, explicit.value)
    else
      var active := TextField(st, "active_account");
      if Truthy(active) then OwnAccount(db, uid, active.value)
      else GetVerifiedUser(db, uid)
  }

  /**
   * `process_payment_plan`: an unknown plan stops with an error, an
   * unresolved account with user-not-found; otherwise the payment details
   * for that plan and account. Nothing is written.
   */
  function ProcessPaymentPlan(db: Database, states: UserStates, plans: seq<Plan>, uid: int, planId: string, explicit: Option<string>)
    : (reply: Reply)
    reads db, states
    requires db.Valid()
    ensures reply.InvalidPlan? <==> FindPlan(plans, planId).None?
    ensures reply.UserNotFound? <==> FindPlan(plans, planId).Some? && ResolveTarget(db, states.Get(uid), uid, explicit).None?
    ensures reply.PaymentDetails? ==> reply.plan in plans && IntToString(reply.plan.id) == planId
    ensures reply.PaymentDetails? ==> reply.username in db.accounts && db.accounts[reply.username].telegramId == Some(uid)
    ensures reply.InvalidPlan? || reply.UserNotFound? || reply.PaymentDetails?
  {
    match FindPlan(plans, planId)
    case None => InvalidPlan
    case Some(plan) =>
      match ResolveTarget(db, states.Get(uid), uid, explicit)
      case None => UserNotFound
      case Some(user) => PaymentDetails(plan, user.0)
  }

  // ---------------------------------------------------------------------
  // The claim and the receipt
  // ---------------------------------------------------------------------

  /**
   * `handle_payment_claim` for chat `uid` and the account `username`
   * linked to chat `tid`: files a pending request for the plan's price,
   * moves the chat to waiting for the receipt and tells the admins. An
   * unknown plan or a failed insert leaves everything as it was.
   * `messageId` is the id of the edited claim message; `noticeFails` says
   * that editing it raises, which ends the handler after the request and
   * the first waiting state were written and before the admins hear of it.
   */
  method HandlePaymentClaim(db: Database, states: UserStates, plans: seq<Plan>, admins: seq<int>,
                            uid: int, planId: string, username: string, tid: int,
                            now: int, fault: bool, messageId: int, noticeFails: bool, failing: set<int>)
    returns (reply: Reply, effects: seq<Effect>)
    requires db.Valid()
    modifies db, states
    ensures db.Valid()
    ensures FindPlan(plans, planId).None? ==> reply == InvalidPlan && effects == []
    ensures FindPlan(plans, planId).None? || fault ==> states.states == old(states.states) && db.requests == old(db.requests)
    ensures FindPlan(plans, planId).Some? && fault ==> reply == ClaimFailed && effects == []
    ensures reply.ClaimCreated? <==> FindPlan(plans, planId).Some? && !fault && !noticeFails
    ensures FindPlan(plans, planId).Some? && !fault ==>
      var plan := FindPlan(plans, planId).value;
      var id := old(db.nextRequestId);
      && db.requests == old(db.requests)[id := NewRequest(tid, username, IntToString(plan.id), plan.price, now)]
      && |effects| >= 1 && effects[0] == RequestCreated(id)
      && (if noticeFails then
            && reply == Crashed && effects == [RequestCreated(id)]
            && states.states == old(states.states)[uid := ReceiptState(id, IntToString(plan.id), username)]
          else
            && reply == ClaimCreated(id)
            && states.states == old(states.states)[uid := ClaimState(id, IntToString(plan.id), username, messageId)]
            && |effects| == 2 && effects[1].AdminsNotified? && |effects[1].attempts| == |admins|)
    ensures db.accounts == old(db.accounts) && db.history == old(db.history)
  {
    effects := [];
    var plan := FindPlan(plans, planId);
    if plan.None? {
      return InvalidPlan, effects;
    }
    var p := plan.value;
    var requestId := db.CreatePaymentRequest(tid, username, IntToString(p.id), p.price, now, fault);
    if requestId == 0 {
      return ClaimFailed, effects;
    }
    reply, effects := AwaitReceipt(states, admins, uid, requestId, IntToString(p.id), username, messageId,
      noticeFails, failing);
  }

  /**
   * The rest of `handle_payment_claim` once request `id` exists: the chat
   * waits for the receipt, the claim message is edited (or raises) and
   * its id joins the state, and the admins are told.
   */
  method AwaitReceipt(states: UserStates, admins: seq<int>, uid: int, id: int, planRef: string, username: string,
                      messageId: int, noticeFails: bool, failing: set<int>)
    returns (reply: Reply, effects: seq<Effect>)
    modifies states
    ensures noticeFails ==> (
      && reply == Crashed && effects == [RequestCreated(id)]
      && states.states == old(states.states)[uid := ReceiptState(id, planRef, username)])
    ensures !noticeFails ==> (
      && reply == ClaimCreated(id)
      && states.states == old(states.states)[uid := ClaimState(id, planRef, username, messageId)]
      && |effects| == 2 && effects[0] == RequestCreated(id) && effects[1].AdminsNotified?
      && |effects[1].attempts| == |admins|)
  {
    effects := [RequestCreated(id)];
    ghost var before := states.states;
    var waiting := ReceiptState(id, planRef, username);
    states.Set(uid, waiting);
    if noticeFails {
      return Crashed, effects;
    }
    var claimed := ClaimState(id, planRef, username, messageId);
    states.Set(uid, claimed);
    assert states.states == before[uid := claimed] by {
      assert before[uid := waiting][uid := claimed] == before[uid := claimed];
    }
    var attempts := SendAdminNotification(admins, failing);
    effects := effects + [AdminsNotified(attempts)];
    reply := ClaimCreated(id);
  }

  /** The receipt in a message: the largest photo size wins over a document; an empty file id is no file. */
  function ReceiptOf(photoSizes: seq<string>, document: Option<string>): (r: Option<Receipt>)
    ensures |photoSizes| > 0 ==> (r.Some? <==> photoSizes[|photoSizes| - 1] != "")
    ensures |photoSizes| > 0 && r.Some? ==> r.value == Receipt(photoSizes[|photoSizes| - 1], "photo")
    ensures |photoSizes| == 0 ==> (r.Some? <==> Truthy(document))
    ensures |photoSizes| == 0 && r.Some? ==> r.value == Receipt(document.value, "document")
  {
    if |photoSizes| > 0 then
      var fileId := photoSizes[|photoSizes| - 1];
      if fileId != "" then Some(Receipt(fileId, "photo")) else None
    else if document.Some? then
      if document.value != "" then Some(Receipt(document.value, "document")) else None
    else None
  }

  /** The chat is in the middle of a claim. */
  predicate AwaitsReceipt(st: ChatState) {
    st != map[] && TextField(st, "state") == Some(WaitingReceipt)
  }

  /**
   * The upload writes the receipt: the chat waits for one, its state has
   * the request and plan fields, the message carries a file, and the
   * store accepts the write for an existing request.
   */
  predicate ReceiptStores(st: ChatState, photoSizes: seq<string>, document: Option<string>, fault: bool, requests: Requests) {
    && AwaitsReceipt(st)
    && NumField(st, "request_id").Some? && "plan_id" in st
    && ReceiptOf(photoSizes, document).Some?
    && !fault && NumField(st, "request_id").value in requests
  }

  /**
   * `handle_receipt_upload`: ignored unless the chat waits for a receipt;
   * an unusable file or a failed write answers with an error and keeps the
   * state; the state is cleared only after the receipt is stored, and then
   * every admin gets the receipt. `noticeFails` says that the notice to
   * the user raises; that, or a state without `username`, ends the handler
   * after the receipt is stored and the state cleared, before any admin
   * hears of it.
   */
  method HandleReceiptUpload(db: Database, states: UserStates, admins: seq<int>, uid: int,
                             photoSizes: seq<string>, document: Option<string>, fault: bool,
                             noticeFails: bool, failing: set<int>)
    returns (reply: Reply, effects: seq<Effect>)
    requires db.Valid()
    modifies db, states
    ensures db.Valid()
    ensures !AwaitsReceipt(old(states.Get(uid))) ==> reply == Silent && effects == []
    ensures !ReceiptStores(old(states.Get(uid)), photoSizes, document, fault, old(db.requests)) ==>
      states.states == old(states.states) && db.requests == old(db.requests) && !reply.ReceiptReceived?
    ensures reply.ReceiptReceived? <==>
      ReceiptStores(old(states.Get(uid)), photoSizes, document, fault, old(db.requests))
      && !noticeFails && "username" in old(states.Get(uid))
    ensures ReceiptStores(old(states.Get(uid)), photoSizes, document, fault, old(db.requests)) ==>
      var id := NumField(old(states.Get(uid)), "request_id").value;
      var receipt := ReceiptOf(photoSizes, document).value;
      && (db.requests, true) == AttachReceipt(old(db.requests), id, receipt.fileId, receipt.fileType)
      && states.states == old(states.states) - {uid}
      && |effects| >= 1 && effects[0] == ReceiptStored(id, true)
      && (if noticeFails || "username" !in old(states.Get(uid)) then reply == Crashed && |effects| == 1
          else reply == ReceiptReceived(id) && |effects| == 2 && effects[1].AdminsNotified?)
    ensures reply == UnsupportedFile ==> ReceiptOf(photoSizes, document).None? && effects == []
    ensures reply == ReceiptNotSaved ==> |effects| == 1 && effects[0].ReceiptStored? && !effects[0].ok
    ensures db.accounts == old(db.accounts) && db.history == old(db.history)
  {
    effects := [];
    var st := states.Get(uid);
    if !AwaitsReceipt(st) {
      return Silent, effects;
    }
    var requestId := NumField(st, "request_id");
    if requestId.None? || "plan_id" !in st {
      // `state['request_id']` / `state['plan_id']` raise KeyError
      return Crashed, effects;
    }
    var receipt := ReceiptOf(photoSizes, document);
    if receipt.None? {
      return UnsupportedFile, effects;
    }
    var ok := db.AddReceiptToRequest(requestId.value, receipt.value.fileId, receipt.value.fileType, fault);
    effects := effects + [ReceiptStored(requestId.value, ok)];
    if !ok {
      return ReceiptNotSaved, effects;
    }
    states.Clear(uid);
    if noticeFails || "username" !in st {
      // the user notice raises, or `state['username']` raises KeyError
      return Crashed, effects;
    }
    var attempts := SendAdminNotification(admins, failing);
    effects := effects + [AdminsNotified(attempts)];
    reply := ReceiptReceived(requestId.value);
  }

  // ---------------------------------------------------------------------
  // The administrator's decision
  // ---------------------------------------------------------------------

  /** `int(context.args[0])`, when there is a first argument. */
  function ParseRequestId(args: seq<string>): (r: Option<int>)
    ensures r.Some? ==> |args| > 0 && ParseInt(args[0]) == r
  {
    if |args| == 0 then None else ParseInt(args[0])
  }

  /** The approval comment: the remaining arguments joined, or the default. */
  function ApproveComment(args: seq<string>): string {
    if |args| > 1 then Join(" ", args[1..]) else DefaultApproveComment
  }

  predicate PendingRequest(requests: Requests, id: int) {
    id in requests && requests[id].status == RequestStatus.Pending
  }

  /** The checks both decision commands make before they touch the request: stop with a reply, or go on with a pending request. */
  datatype Lookup = Stop(reply: Reply) | Go(id: int, request: PaymentRequest)

  /**
   * The checks of `approve_payment_command` and `reject_payment_command`
   * (`minArgs` arguments needed): admin rights, the argument count, a
   * numeric id, the request's existence and its pending status. A missing
   * request table makes the lookup raise.
   */
  function LookupPending(db: Database, cfg: Config.Settings, admin: int, args: seq<string>, minArgs: nat): (r: Lookup)
    reads db
    requires minArgs >= 1
    ensures !Config.IsAdmin(cfg, admin) ==> r == Stop(NoAdminRights)
    ensures Config.IsAdmin(cfg, admin) && |args| < minArgs ==> r == Stop(Usage)
    ensures Config.IsAdmin(cfg, admin) && |args| >= minArgs && ParseRequestId(args).None? ==> r == Stop(BadRequestId)
    ensures Config.IsAdmin(cfg, admin) && |args| >= minArgs && ParseRequestId(args).Some? && !db.requestsTable ==> r == Stop(Crashed)
    ensures Config.IsAdmin(cfg, admin) && |args| >= minArgs && ParseRequestId(args).Some? && db.requestsTable ==>
      var id := ParseRequestId(args).value;
      && (id !in db.requests ==> r == Stop(RequestNotFound(id)))
      && (id in db.requests && db.requests[id].status != RequestStatus.Pending ==> r == Stop(AlreadyProcessed(id)))
      && (PendingRequest(db.requests, id) ==> r == Go(id, db.requests[id]))
    ensures r.Go? ==>
      && Config.IsAdmin(cfg, admin) && |args| >= minArgs && ParseRequestId(args) == Some(r.id)
      && PendingRequest(db.requests, r.id) && r.request == db.requests[r.id]
  {
    if !Config.IsAdmin(cfg, admin) then Stop(NoAdminRights)
    else if |args| < minArgs then Stop(Usage)
    else
      match ParseInt(args[0])
      case None => Stop(BadRequestId)
      case Some(id) =>
        match db.GetPaymentRequest(id)
        case NoSuchTable => Stop(Crashed)
        case Answer(found) =>
          if found.None? then Stop(RequestNotFound(id))
          else if found.value.status != RequestStatus.Pending then Stop(AlreadyProcessed(id))
          else Go(id, found.value)
  }

  /** The ledger row of an approved request paid by `plan`. */
  function ApprovalRecord(q: PaymentRequest, plan: Plan, now: int, stamp: string): PaymentRecord {
    PaymentRecord(q.telegramId, q.username, q.amount, now, IntToString(plan.id), TransactionIdOrGenerated(None, stamp), "completed")
  }

  /**
   * The part of `approve_payment_command` after request `id` is approved:
   * the plan named by the request is looked up, the subscription extended
   * and, only when both succeed, the ledger row written and the user told.
   * The effects start with the successful approval.
   */
  method ExtendAndRecord(db: Database, panel: Panel.PanelClient, plans: seq<Plan>, id: int, q: PaymentRequest,
                         now: int, stamp: string, recordFault: bool, net: Panel.Net, notifyFails: bool)
    returns (extended: bool, effects: seq<Effect>)
    requires db.Valid()
    modifies db, panel
    ensures db.Valid()
    ensures FindPlan(plans, q.planId).None? ==> !extended && effects == [Decided(id, Approved, true)]
    ensures FindPlan(plans, q.planId).Some? && !extended ==>
      effects == [Decided(id, Approved, true), ExtendCalled(q.username, FindPlan(plans, q.planId).value.durationDays, false)]
    ensures extended ==> FindPlan(plans, q.planId).Some?
    ensures extended ==> var plan := FindPlan(plans, q.planId).value;
      && effects == [Decided(id, Approved, true), ExtendCalled(q.username, plan.durationDays, true),
                     PaymentRecorded(q.username, q.amount, !recordFault), UserNotified(q.telegramId, !notifyFails)]
      && db.history == old(db.history) + (if recordFault then [] else [ApprovalRecord(q, plan, now, stamp)])
    ensures !extended ==> db.history == old(db.history) && panel.remote == old(panel.remote)
    ensures ExtendCount(effects) <= 1
    ensures db.accounts == old(db.accounts) && db.requests == old(db.requests)
  {
    effects := [Decided(id, Approved, true)];
    extended := false;
    var plan := FindPlan(plans, q.planId);
    if plan.None? {
      return;
    }
    ghost var history0 := db.history;
    extended := panel.ExtendUserSubscription(q.username, plan.value.durationDays, net, now);
    assert db.history == history0 == old(db.history);
    if !extended {
      effects := [Decided(id, Approved, true), ExtendCalled(q.username, plan.value.durationDays, false)];
      ExtendCountAfter(effects[0], effects[1], []);
      assert effects == [effects[0], effects[1]] + [];
      return;
    }
    effects := RecordApproval(db, plan.value, id, q, now, stamp, recordFault, notifyFails);
  }

  /** The ledger row and the user's notice after a successful extension for request `id`. */
  method RecordApproval(db: Database, plan: Plan, id: int, q: PaymentRequest,
                        now: int, stamp: string, recordFault: bool, notifyFails: bool)
    returns (effects: seq<Effect>)
    requires db.Valid()
    modifies db
    ensures db.Valid()
    ensures effects == [Decided(id, Approved, true), ExtendCalled(q.username, plan.durationDays, true),
                        PaymentRecorded(q.username, q.amount, !recordFault), UserNotified(q.telegramId, !notifyFails)]
    ensures db.history == old(db.history) + (if recordFault then [] else [ApprovalRecord(q, plan, now, stamp)])
    ensures ExtendCount(effects) <= 1
    ensures db.accounts == old(db.accounts) && db.requests == old(db.requests)
  {
    var recorded := db.RecordPayment(q.telegramId, q.username, q.amount,
      IntToString(plan.id), None, "completed", now, stamp, recordFault);
    var rest := [PaymentRecorded(q.username, q.amount, recorded), UserNotified(q.telegramId, !notifyFails)];
    ExtendCountAfter(Decided(id, Approved, true), ExtendCalled(q.username, plan.durationDays, true), rest);
    effects := [Decided(id, Approved, true), ExtendCalled(q.username, plan.durationDays, true)] + rest;
  }

  /**
   * `approve_payment_command`. Arguments, existence and the pending status
   * are checked first; then the conditional update; only when it succeeds
   * is the plan looked up and the subscription extended, and only when
   * both succeed is the ledger row written.
   */
  method ApprovePaymentCommand(db: Database, panel: Panel.PanelClient, cfg: Config.Settings, plans: seq<Plan>,
                               admin: int, args: seq<string>, now: int, stamp: string,
                               casFault: bool, recordFault: bool, net: Panel.Net, notifyFails: bool)
    returns (reply: Reply, effects: seq<Effect>)
    requires db.Valid()
    modifies db, panel
    ensures db.Valid()
    ensures old(LookupPending(db, cfg, admin, args, 1)).Stop? ==>
      reply == old(LookupPending(db, cfg, admin, args, 1)).reply && effects == []
    ensures old(LookupPending(db, cfg, admin, args, 1)).Go? ==>
      var look := old(LookupPending(db, cfg, admin, args, 1));
      && (casFault ==> reply == DecisionFailed(look.id) && effects == [Decided(look.id, Approved, false)])
      && (!casFault ==> reply == ApprovedAndExtended(look.id) || reply == ApprovedNotExtended(look.id))
    // No write and no panel call before the conditional update has succeeded.
    ensures !(reply.ApprovedAndExtended? || reply.ApprovedNotExtended?) ==>
      db.requests == old(db.requests) && db.history == old(db.history) && panel.remote == old(panel.remote)
    ensures reply.ApprovedAndExtended? || reply.ApprovedNotExtended? ==>
      && old(LookupPending(db, cfg, admin, args, 1)) == Go(reply.requestId, old(db.requests)[reply.requestId]) && !casFault
      && db.requests == Decide(old(db.requests), reply.requestId, Approved, admin, Some(ApproveComment(args)), now).0
      && |effects| >= 1 && effects[0] == Decided(reply.requestId, Approved, true)
    // The extension and the ledger row follow a successful approval, in that order.
    ensures reply.ApprovedAndExtended? ==> var q := old(db.requests)[reply.requestId];
      && FindPlan(plans, q.planId).Some?
      && var plan := FindPlan(plans, q.planId).value;
      && effects == [Decided(reply.requestId, Approved, true), ExtendCalled(q.username, plan.durationDays, true),
                     PaymentRecorded(q.username, q.amount, !recordFault), UserNotified(q.telegramId, !notifyFails)]
      && db.history == old(db.history) + (if recordFault then [] else [ApprovalRecord(q, plan, now, stamp)])
    ensures reply.ApprovedNotExtended? ==> db.history == old(db.history)
    ensures reply.ApprovedNotExtended? ==> var q := old(db.requests)[reply.requestId];
      FindPlan(plans, q.planId).None? || (|effects| == 2 && effects[1].ExtendCalled? && !effects[1].ok)
    ensures panel.remote != old(panel.remote) ==> reply.ApprovedAndExtended?
    ensures ExtendCount(effects) <= 1
    ensures db.accounts == old(db.accounts)
  {
    var look := LookupPending(db, cfg, admin, args, 1);
    if look.Stop? {
      return look.reply, [];
    }
    reply, effects := ApprovePending(db, panel, plans, look.id, look.request, admin, ApproveComment(args),
      now, stamp, casFault, recordFault, net, notifyFails);
  }

  /**
   * The part of `approve_payment_command` after the checks: the
   * conditional update of the pending request `id`, then, only when it
   * succeeds, the extension and the ledger row.
   */
  method ApprovePending(db: Database, panel: Panel.PanelClient, plans: seq<Plan>, id: int, request: PaymentRequest,
                        admin: int, comment: string, now: int, stamp: string,
                        casFault: bool, recordFault: bool, net: Panel.Net, notifyFails: bool)
    returns (reply: Reply, effects: seq<Effect>)
    requires db.Valid()
    requires PendingRequest(db.requests, id) && request == db.requests[id]
    modifies db, panel
    ensures db.Valid()
    ensures casFault ==> reply == DecisionFailed(id) && effects == [Decided(id, Approved, false)]
    ensures casFault ==> db.requests == old(db.requests) && db.history == old(db.history) && panel.remote == old(panel.remote)
    ensures !casFault ==> (reply == ApprovedAndExtended(id) || reply == ApprovedNotExtended(id))
    ensures !casFault ==>
      && db.requests == Decide(old(db.requests), id, Approved, admin, Some(comment), now).0
      && |effects| >= 1 && effects[0] == Decided(id, Approved, true)
    ensures reply.ApprovedAndExtended? ==>
      && FindPlan(plans, request.planId).Some?
      && var plan := FindPlan(plans, request.planId).value;
      && effects == [Decided(id, Approved, true), ExtendCalled(request.username, plan.durationDays, true),
                     PaymentRecorded(request.username, request.amount, !recordFault), UserNotified(request.telegramId, !notifyFails)]
      && db.history == old(db.history) + (if recordFault then [] else [ApprovalRecord(request, plan, now, stamp)])
    ensures reply.ApprovedNotExtended? ==> db.history == old(db.history) && panel.remote == old(panel.remote)
    ensures reply.ApprovedNotExtended? ==>
      FindPlan(plans, request.planId).None? || (|effects| == 2 && effects[1].ExtendCalled? && !effects[1].ok)
    ensures ExtendCount(effects) <= 1
    ensures db.accounts == old(db.accounts)
  {
    var approved := db.ApprovePaymentRequest(id, admin, Some(comment), now, casFault);
    effects := [Decided(id, Approved, approved)];
    if !approved {
      return DecisionFailed(id), effects;
    }
    var extended;
    extended, effects := ExtendAndRecord(db, panel, plans, id, request, now, stamp, recordFault, net, notifyFails);
    if extended {
      reply := ApprovedAndExtended(id);
    } else {
      reply := ApprovedNotExtended(id);
    }
  }

  /**
   * `reject_payment_command`: needs an id and a reason, acts only on a
   * pending request, and never touches the panel or the ledger.
   */
  method RejectPaymentCommand(db: Database, cfg: Config.Settings, admin: int, args: seq<string>, now: int,
                              casFault: bool, notifyFails: bool)
    returns (reply: Reply, effects: seq<Effect>)
    requires db.Valid()
    modifies db
    ensures db.Valid()
    ensures !Config.IsAdmin(cfg, admin) ==> reply == NoAdminRights
    ensures Config.IsAdmin(cfg, admin) && |args| < 2 ==> reply == Usage
    ensures Config.IsAdmin(cfg, admin) && |args| >= 2 && ParseRequestId(args).None? ==> reply == BadRequestId
    ensures Config.IsAdmin(cfg, admin) && |args| >= 2 && ParseRequestId(args).Some? && !old(db.requestsTable) ==> reply == Crashed
    ensures Config.IsAdmin(cfg, admin) && |args| >= 2 && ParseRequestId(args).Some? && old(db.requestsTable) ==>
      var id := ParseRequestId(args).value;
      && (id !in old(db.requests) ==> reply == RequestNotFound(id))
      && (id in old(db.requests) && old(db.requests)[id].status != RequestStatus.Pending ==> reply == AlreadyProcessed(id))
      && (PendingRequest(old(db.requests), id) ==> reply == (if casFault then DecisionFailed(id) else RequestRejected(id)))
    ensures reply.RequestRejected? ==>
      && Config.IsAdmin(cfg, admin) && ParseRequestId(args) == Some(reply.requestId)
      && PendingRequest(old(db.requests), reply.requestId) && !casFault
    ensures reply.RequestRejected? ==>
      && db.requests == Decide(old(db.requests), reply.requestId, Rejected, admin, Some(Join(" ", args[1..])), now).0
      && effects == [Decided(reply.requestId, Rejected, true), UserNotified(old(db.requests)[reply.requestId].telegramId, !notifyFails)]
    ensures !reply.RequestRejected? ==> db.requests == old(db.requests)
    ensures forall k :: 0 <= k < |effects| ==> !effects[k].ExtendCalled? && !effects[k].PaymentRecorded?
    ensures db.history == old(db.history) && db.accounts == old(db.accounts)
  {
    effects := [];
    var look := LookupPending(db, cfg, admin, args, 2);
    if look.Stop? {
      return look.reply, effects;
    }
    var id, request := look.id, look.request;
    var reason := Join(" ", args[1..]);
    var rejected := db.RejectPaymentRequest(id, admin, reason, now, casFault);
    effects := effects + [Decided(id, Rejected, rejected)];
    if !rejected {
      return DecisionFailed(id), effects;
    }
    effects := effects + [UserNotified(request.telegramId, !notifyFails)];
    reply := RequestRejected(id);
  }

  /** `user['telegram_id']` is truthy: present and not 0. */
  predicate HasChat(a: Account) {
    a.telegramId.Some? && a.telegramId.value != 0
  }

  /** The ledger row `confirm_payment_command` writes for an account paid by a plan without a request. */
  function ConfirmRecord(a: Account, username: string, plan: Plan, now: int, stamp: string): PaymentRecord {
    PaymentRecord(a.telegramId.GetOr(0), username, plan.price, now, IntToString(plan.id),
      TransactionIdOrGenerated(None, stamp), "completed")
  }

  /** The extension of `confirm_payment_command` succeeded and the user's notice was not delivered. */
  predicate NoticeFailedAfterExtension(effects: seq<Effect>) {
    |effects| == 3 && effects[0].ExtendCalled? && effects[0].ok && effects[2].UserNotified? && !effects[2].delivered
  }

  /**
   * `confirm_payment_command` as written: extends a named account by a
   * plan without any request, writes the ledger row when the account is
   * known locally and notifies its chat. When that notice fails, the
   * `except` branch formats an undefined `request` and raises, so the
   * administrator gets no answer although the extension and the ledger
   * row went through.
   */
  method ConfirmPaymentCommandAsWritten(db: Database, panel: Panel.PanelClient, cfg: Config.Settings, plans: seq<Plan>,
                                        admin: int, args: seq<string>, now: int, stamp: string,
                                        recordFault: bool, net: Panel.Net, notifyFails: bool)
    returns (reply: Reply, effects: seq<Effect>)
    requires db.Valid()
    modifies db, panel
    ensures db.Valid()
    ensures reply == Crashed <==> (
      && Config.IsAdmin(cfg, admin) && |args| == 2 && FindPlan(plans, args[1]).Some?
      && NoticeFailedAfterExtension(effects))
    ensures reply == Crashed ==> args[0] in db.accounts && HasChat(db.accounts[args[0]]) && notifyFails
    ensures reply == Crashed ==> effects[1].PaymentRecorded? && (effects[1].ok <==> !recordFault)
    ensures reply == Crashed && !recordFault ==>
      db.history == old(db.history) + [ConfirmRecord(db.accounts[args[0]], args[0], FindPlan(plans, args[1]).value, now, stamp)]
    ensures db.accounts == old(db.accounts) && db.requests == old(db.requests)
  {
    effects := [];
    if !Config.IsAdmin(cfg, admin) {
      return NoAdminRights, effects;
    }
    if |args| != 2 {
      return Usage, effects;
    }
    var username := args[0];
    var plan := FindPlan(plans, args[1]);
    if plan.None? {
      return InvalidPlan, effects;
    }
    ghost var history0 := db.history;
    var extended := panel.ExtendUserSubscription(username, plan.value.durationDays, net, now);
    assert db.history == history0 == old(db.history) && db.accounts == old(db.accounts);
    var called := ExtendCalled(username, plan.value.durationDays, extended);
    effects := [called];
    if !extended {
      return ExtensionFailed(username), effects;
    }
    var user := db.GetUserByMarzbanUsername(username);
    if user.Some? {
      var recorded := db.RecordPayment(user.value.telegramId.GetOr(0), username, plan.value.price,
        IntToString(plan.value.id), None, "completed", now, stamp, recordFault);
      assert !recordFault ==> db.history == history0 + [ConfirmRecord(user.value, username, plan.value, now, stamp)];
      var paid := PaymentRecorded(username, plan.value.price, recorded);
      effects := [called, paid];
      if HasChat(user.value) {
        effects := [called, paid, UserNotified(user.value.telegramId.value, !notifyFails)];
        if notifyFails {
          // the logging line names `request`, which is not defined here
          assert NoticeFailedAfterExtension(effects);
          return Crashed, effects;
        }
        assert effects[2].delivered;
      }
    }
    assert !NoticeFailedAfterExtension(effects);
    reply := SubscriptionExtended(username);
  }

  /**
   * `confirm_payment_command` as intended: a failed notice is only logged,
   * so a successful extension is always reported to the administrator.
   */
  method ConfirmPaymentCommand(db: Database, panel: Panel.PanelClient, cfg: Config.Settings, plans: seq<Plan>,
                               admin: int, args: seq<string>, now: int, stamp: string,
                               recordFault: bool, net: Panel.Net, notifyFails: bool)
    returns (reply: Reply, effects: seq<Effect>)
    requires db.Valid()
    modifies db, panel
    ensures db.Valid()
    ensures reply != Crashed
    ensures !Config.IsAdmin(cfg, admin) ==> reply == NoAdminRights && effects == []
    ensures Config.IsAdmin(cfg, admin) && |args| != 2 ==> reply == Usage && effects == []
    ensures Config.IsAdmin(cfg, admin) && |args| == 2 && FindPlan(plans, args[1]).None? ==> reply == InvalidPlan && effects == []
    ensures reply.SubscriptionExtended? <==> (
      && Config.IsAdmin(cfg, admin) && |args| == 2 && FindPlan(plans, args[1]).Some?
      && |effects| >= 1 && effects[0] == ExtendCalled(args[0], FindPlan(plans, args[1]).value.durationDays, true))
    ensures reply.SubscriptionExtended? ==> reply.username == args[0]
    ensures reply.SubscriptionExtended? && args[0] in db.accounts && !recordFault ==>
      db.history == old(db.history) + [ConfirmRecord(db.accounts[args[0]], args[0], FindPlan(plans, args[1]).value, now, stamp)]
    ensures !reply.SubscriptionExtended? || args[0] !in db.accounts || recordFault ==> db.history == old(db.history)
    ensures panel.remote != old(panel.remote) ==> reply.SubscriptionExtended?
    ensures db.accounts == old(db.accounts) && db.requests == old(db.requests)
  {
    effects := [];
    if !Config.IsAdmin(cfg, admin) {
      return NoAdminRights, effects;
    }
    if |args| != 2 {
      return Usage, effects;
    }
    var username := args[0];
    var plan := FindPlan(plans, args[1]);
    if plan.None? {
      return InvalidPlan, effects;
    }
    var extended := panel.ExtendUserSubscription(username, plan.value.durationDays, net, now);
    var called := ExtendCalled(username, plan.value.durationDays, extended);
    effects := [called];
    if !extended {
      return ExtensionFailed(username), effects;
    }
    var user := db.GetUserByMarzbanUsername(username);
    if user.Some? {
      var recorded := db.RecordPayment(user.value.telegramId.GetOr(0), username, plan.value.price,
        IntToString(plan.value.id), None, "completed", now, stamp, recordFault);
      var paid := PaymentRecorded(username, plan.value.price, recorded);
      effects := [called, paid];
      if HasChat(user.value) {
        effects := [called, paid, UserNotified(user.value.telegramId.value, !notifyFails)];
      }
    }
    reply := SubscriptionExtended(username);
  }
}
