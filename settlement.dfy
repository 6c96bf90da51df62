/**
 * Settlement across several handler calls: the pending-to-approved update
 * is the only guard against settling a claim twice, and a claim that goes
 * through claim, receipt and approval leaves exactly one ledger row for
 * the plan's price. Each method runs the handlers one after the other,
 * which is how the model sees two administrators racing on one request.
 */
module Settlement {
  import opened Wrappers
  import opened PyStr
  import opened Catalog
  import opened Repository
  import opened BaseHandler
  import opened PaymentHandlers
  import Panel
  import Config

  /** The reply of an approval that won the conditional update. */
  predicate Won(r: Reply) {
    r.ApprovedAndExtended? || r.ApprovedNotExtended?
  }

  /**
   * Two administrators send the same `/approve`: when the first wins, the
   * second is told the request was already processed and makes no call;
   * in every case the panel is asked to extend at most once.
   */
  method ApproveTwice(db: Database, panel: Panel.PanelClient, cfg: Config.Settings, plans: seq<Plan>,
                      admin1: int, admin2: int, args: seq<string>, now: int, stamp: string,
                      casFault1: bool, casFault2: bool, recordFault: bool,
                      net1: Panel.Net, net2: Panel.Net, notifyFails: bool)
    returns (first: Reply, second: Reply, effects: seq<Effect>)
    requires db.Valid()
    requires Config.IsAdmin(cfg, admin2)
    modifies db, panel
    ensures db.Valid()
    ensures Won(first) ==> second == AlreadyProcessed(first.requestId)
    ensures Won(first) ==> first.requestId in db.requests && db.requests[first.requestId].status == Approved
    ensures !(Won(first) && Won(second))
    ensures ExtendCount(effects) <= 1
  {
    var e1, e2;
    first, e1 := ApprovePaymentCommand(db, panel, cfg, plans, admin1, args, now, stamp,
      casFault1, recordFault, net1, notifyFails);
    if Won(first) {
      assert first.requestId in db.requests;
      assert db.requestsTable;
    } else {
      assert ExtendCount(e1) == 0 by {
        assert e1 == [] || e1 == [Decided(e1[0].requestId, Approved, false)];
      }
    }
    second, e2 := ApprovePaymentCommand(db, panel, cfg, plans, admin2, args, now, stamp,
      casFault2, recordFault, net2, notifyFails);
    ExtendCountConcat(e1, e2);
    effects := e1 + e2;
  }

  /**
   * A `/reject` of a request that an approval has just won reports that
   * the request was already processed and leaves the request table and
   * the ledger as the approval left them.
   */
  method RejectAfterApproval(db: Database, panel: Panel.PanelClient, cfg: Config.Settings, plans: seq<Plan>,
                             admin: int, approveArgs: seq<string>, rejectArgs: seq<string>, now: int, stamp: string,
                             casFault: bool, recordFault: bool, net: Panel.Net, notifyFails: bool)
    returns (approval: Reply, rejection: Reply)
    requires db.Valid()
    requires |rejectArgs| >= 2 && |approveArgs| >= 1 && rejectArgs[0] == approveArgs[0]
    modifies db, panel
    ensures db.Valid()
    ensures Won(approval) ==> rejection == AlreadyProcessed(approval.requestId)
    ensures Won(approval) ==> approval.requestId in db.requests && db.requests[approval.requestId].status == Approved
    ensures !Won(approval) ==> db.history == old(db.history) && panel.remote == old(panel.remote)
  {
    var e1, e2;
    approval, e1 := ApprovePaymentCommand(db, panel, cfg, plans, admin, approveArgs, now, stamp,
      casFault, recordFault, net, notifyFails);
    ghost var requests, history := db.requests, db.history;
    if Won(approval) {
      assert approval.requestId in db.requests;
      assert db.requestsTable;
    }
    rejection, e2 := RejectPaymentCommand(db, cfg, admin, rejectArgs, now, false, notifyFails);
    assert Won(approval) ==> db.requests == requests;
  }

  /**
   * A claim for plan `planId` on the chat's own account `username`, a
   * photo or document receipt, then `/approve <id>`: the claim is filed,
   * the receipt attached and the state cleared, and the approval wins.
   * When the panel extension goes through, the ledger gains exactly one
   * completed row for the plan's price; when it fails, none.
   */
  method ClaimReceiptApprove(db: Database, states: UserStates, panel: Panel.PanelClient, cfg: Config.Settings,
                             plans: seq<Plan>, admins: seq<int>, uid: int, planId: string, username: string,
                             now: int, messageId: int, photoSizes: seq<string>, document: Option<string>,
                             admin: int, stamp: string, net: Panel.Net, notifyFails: bool)
    returns (claim: Reply, receipt: Reply, decision: Reply)
    requires db.Valid()
    requires FindPlan(plans, planId).Some? && ReceiptOf(photoSizes, document).Some?
    requires Config.IsAdmin(cfg, admin)
    modifies db, states, panel
    ensures db.Valid()
    ensures claim.ClaimCreated? && receipt == ReceiptReceived(claim.requestId)
    ensures decision == ApprovedAndExtended(claim.requestId) || decision == ApprovedNotExtended(claim.requestId)
    ensures claim.requestId in db.requests
    ensures var q := db.requests[claim.requestId];
      && q.status == Approved && q.amount == FindPlan(plans, planId).value.price
      && q.username == username && q.telegramId == uid
      && q.receipt == ReceiptOf(photoSizes, document)
    ensures decision.ApprovedAndExtended? ==> var plan := FindPlan(plans, planId).value;
      db.history == old(db.history) + [PaymentRecord(uid, username, plan.price, now, IntToString(plan.id),
        TransactionIdOrGenerated(None, stamp), "completed")]
    ensures decision.ApprovedNotExtended? ==> db.history == old(db.history)
    ensures states.Get(uid) == map[]
  {
    var plan := FindPlan(plans, planId).value;
    claim, receipt := ClaimWithReceipt(db, states, plans, admins, uid, planId, username, now, messageId,
      photoSizes, document);
    var id := claim.requestId;
    ParseIntRoundTrip(id);
    var args := [IntToString(id)];
    assert FindPlan(plans, db.requests[id].planId) == Some(plan);
    var e3;
    decision, e3 := ApprovePaymentCommand(db, panel, cfg, plans, admin, args, now, stamp, false, false, net, notifyFails);
  }

  /**
   * The first two steps of `ClaimReceiptApprove`: the claim files a pending
   * request for the plan's price and the upload attaches the receipt to it.
   */
  method ClaimWithReceipt(db: Database, states: UserStates, plans: seq<Plan>, admins: seq<int>, uid: int,
                          planId: string, username: string, now: int, messageId: int,
                          photoSizes: seq<string>, document: Option<string>)
    returns (claim: Reply, receipt: Reply)
    requires db.Valid()
    requires FindPlan(plans, planId).Some? && ReceiptOf(photoSizes, document).Some?
    modifies db, states
    ensures db.Valid() && db.requestsTable
    ensures claim.ClaimCreated? && receipt == ReceiptReceived(claim.requestId)
    ensures claim.requestId in db.requests
    ensures db.requests[claim.requestId]
      == NewRequest(uid, username, planId, FindPlan(plans, planId).value.price, now).(receipt := ReceiptOf(photoSizes, document))
    ensures db.history == old(db.history)
    ensures states.Get(uid) == map[]
  {
    var e1, e2;
    claim, e1 := HandlePaymentClaim(db, states, plans, admins, uid, planId, username, uid, now, false, messageId, false, {});
    assert "state" in states.Get(uid);
    receipt, e2 := HandleReceiptUpload(db, states, admins, uid, photoSizes, document, false, false, {});
  }
}
