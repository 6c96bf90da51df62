/**
 * The bot's local store, as three in-memory tables: the account mapping
 * between panel usernames and Telegram chats, the payment requests that
 * users file and administrators decide, and the append-only payment
 * ledger. Every write is a single statement whose effect is stated
 * exactly by a function on the table values; a storage error that the
 * source catches is a `fault` parameter, and the clock is a `now`
 * parameter in epoch seconds.
 */
module Repository {
  import opened Wrappers
  import opened PyStr

  // ---------------------------------------------------------------------
  // Rows
  // ---------------------------------------------------------------------

  /** A row of `user_telegram_mapping`, keyed by its `marzban_username`. */
  datatype Account = Account(
    telegramId: Option<int>,
    telegramUsername: Option<string>,
    phone: Option<string>,
    verified: bool,
    status: string,
    notes: Option<string>)

  /** The `status` column of `payment_requests`. */
  datatype RequestStatus = Pending | Approved | Rejected

  /** A receipt attached to a request: the chat file id and `photo` or `document`. */
  datatype Receipt = Receipt(fileId: string, fileType: string)

  /** A row of `payment_requests`, keyed by its autoincrement id. */
  datatype PaymentRequest = PaymentRequest(
    telegramId: int,
    username: string,
    planId: string,
    amount: real,
    createdAt: int,
    status: RequestStatus,
    receipt: Option<Receipt>,
    comment: Option<string>,
    processedAt: Option<int>,
    processedBy: Option<int>)

  /** A row of `payment_history`. */
  datatype PaymentRecord = PaymentRecord(
    telegramId: int,
    username: string,
    amount: real,
    paidAt: int,
    paymentMethod: string,
    transactionId: string,
    status: string)

  type Accounts = map<string, Account>
  type Requests = map<int, PaymentRequest>

  /** The answer to a read of `payment_requests`, which raises while that table has never been created. */
  datatype Query<T> = NoSuchTable | Answer(value: T)

  // ---------------------------------------------------------------------
  // Table constraints
  // ---------------------------------------------------------------------

  /** `telegram_id INTEGER UNIQUE`: no two accounts share a chat id. */
  predicate TelegramIdsUnique(accounts: Accounts) {
    forall u, v ::
      u in accounts && v in accounts && accounts[u].telegramId.Some? && accounts[u].telegramId == accounts[v].telegramId
      ==> u == v
  }

  /** No account is linked to chat `tid`, so a write of that id meets no UNIQUE conflict. */
  predicate TelegramIdFree(accounts: Accounts, tid: int) {
    forall u :: u in accounts ==> accounts[u].telegramId != Some(tid)
  }

  /** Every write that sets a chat id also sets `is_verified`. */
  predicate LinkedAreVerified(accounts: Accounts) {
    forall u :: u in accounts && accounts[u].telegramId.Some? ==> accounts[u].verified
  }

  // ---------------------------------------------------------------------
  // Account writes
  // ---------------------------------------------------------------------

  /** `add_user`: `INSERT OR IGNORE` of an unlinked, unverified row; true iff a row was added. */
  function InsertOrIgnore(accounts: Accounts, username: string, status: string, notes: Option<string>): (r: (Accounts, bool))
    ensures r.1 <==> username !in accounts
    ensures r.0.Keys == accounts.Keys + {username}
    ensures forall u :: u in accounts ==> r.0[u] == accounts[u]
    ensures r.1 ==> r.0[username] == Account(None, None, None, false, status, notes)
  {
    if username in accounts then (accounts, false)
    else (accounts[username := Account(None, None, None, false, status, notes)], true)
  }

  /** Adding a username twice leaves the table as the first call left it, and the second call reports false. */
  lemma InsertOrIgnoreTwice(accounts: Accounts, username: string, s1: string, n1: Option<string>, s2: string, n2: Option<string>)
    ensures var first := InsertOrIgnore(accounts, username, s1, n1).0;
      InsertOrIgnore(first, username, s2, n2) == (first, false)
  {
  }

  /** `Telegram ID: {id}`, the marker the bot writes into account notes. */
  function IdMarker(tid: int): (m: string)
    ensures StartsWith(m, "Telegram ID: ")
  {
    "Telegram ID: " + IntToString(tid)
  }

  const RegisteredSuffix := "Зарегистрирован через бота"
  const LinkedSuffix := "Связан через бота"

  /** `" | ".join(parts)` of the marker, `@{telegram_username}` when truthy, and the closing remark. */
  function IdentityNotes(tid: int, telegramUsername: Option<string>, remark: string): (n: string)
    ensures StartsWith(n, IdMarker(tid))
    ensures EndsWith(n, " | " + remark)
  {
    var head := IdMarker(tid) + (if Truthy(telegramUsername) then " | @" + telegramUsername.value else "");
    StartsWithExtend(IdMarker(tid), IdMarker(tid), head[|IdMarker(tid)|..]);
    assert head == IdMarker(tid) + head[|IdMarker(tid)|..];
    StartsWithExtend(head, IdMarker(tid), " | " + remark);
    EndsWithConcat(head, " | " + remark);
    head + (" | " + remark)
  }

  /**
   * `create_new_user_record`: a verified, active, linked row with the
   * registration note; the UNIQUE constraints make it fail on a taken
   * username or a chat id already linked elsewhere.
   */
  function InsertRegistered(accounts: Accounts, username: string, tid: int, telegramUsername: Option<string>): (r: (Accounts, bool))
    ensures r.1 <==> username !in accounts && TelegramIdFree(accounts, tid)
    ensures !r.1 ==> r.0 == accounts
    ensures r.1 ==> r.0.Keys == accounts.Keys + {username}
    ensures r.1 ==> forall u :: u in accounts ==> r.0[u] == accounts[u]
    ensures r.1 ==> r.0[username].telegramId == Some(tid) && r.0[username].verified
    ensures r.1 ==> r.0[username].status == "active" && r.0[username].telegramUsername == telegramUsername
    ensures r.1 ==> r.0[username].notes == Some(IdentityNotes(tid, telegramUsername, RegisteredSuffix))
  {
    if username in accounts || !TelegramIdFree(accounts, tid) then (accounts, false)
    else
      var row := Account(Some(tid), telegramUsername, None, true, "active", Some(IdentityNotes(tid, telegramUsername, RegisteredSuffix)));
      (accounts[username := row], true)
  }

  /**
   * `link_telegram_account`: only a row whose chat id is still NULL is
   * updated; it gets the chat id, the Telegram username and phone, the
   * verified flag and the linking note. A chat id linked to another row
   * violates UNIQUE, which the source catches and reports as false.
   */
  function Link(accounts: Accounts, username: string, tid: int, telegramUsername: Option<string>, phone: Option<string>): (r: (Accounts, bool))
    ensures r.1 <==> username in accounts && accounts[username].telegramId.None? && TelegramIdFree(accounts, tid)
    ensures !r.1 ==> r.0 == accounts
    ensures r.0.Keys == accounts.Keys
    ensures forall u :: u in accounts && u != username ==> r.0[u] == accounts[u]
    ensures r.1 ==> r.0[username].telegramId == Some(tid) && r.0[username].verified
    ensures r.1 ==> r.0[username].telegramUsername == telegramUsername && r.0[username].phone == phone
    ensures r.1 ==> r.0[username].status == accounts[username].status
    ensures r.1 ==> r.0[username].notes == Some(IdentityNotes(tid, telegramUsername, LinkedSuffix))
  {
    if username in accounts && accounts[username].telegramId.None? && TelegramIdFree(accounts, tid) then
      var row := accounts[username].(telegramId := Some(tid), telegramUsername := telegramUsername, phone := phone,
        verified := true, notes := Some(IdentityNotes(tid, telegramUsername, LinkedSuffix)));
      (accounts[username := row], true)
    else (accounts, false)
  }

  /** An account is linked at most once: after a successful link every further link of it fails and changes nothing. */
  lemma LinkOnce(accounts: Accounts, username: string, tid: int, tu: Option<string>, ph: Option<string>,
                 tid2: int, tu2: Option<string>, ph2: Option<string>)
    requires Link(accounts, username, tid, tu, ph).1
    ensures var after := Link(accounts, username, tid, tu, ph).0;
      Link(after, username, tid2, tu2, ph2) == (after, false)
  {
  }

  /** `update_user_notes`: replaces the notes of an existing row; false for an unknown username. */
  function SetNotes(accounts: Accounts, username: string, notes: string): (r: (Accounts, bool))
    ensures r.1 <==> username in accounts
    ensures r.0.Keys == accounts.Keys
    ensures forall u :: u in accounts && u != username ==> r.0[u] == accounts[u]
    ensures r.1 ==> r.0[username] == accounts[username].(notes := Some(notes))
  {
    if username in accounts then (accounts[username := accounts[username].(notes := Some(notes))], true)
    else (accounts, false)
  }

  /** The notes as the source reads them: `notes or ""`. */
  function CurrentNotes(a: Account): string {
    a.notes.GetOr("")
  }

  /**
   * `add_telegram_id_to_notes` as written: false for an unknown username;
   * true without a write when the marker text occurs anywhere in the
   * notes; otherwise the marker is appended after `" | "`, or becomes the
   * whole note when the notes were empty.
   */
  function AddIdToNotesAsWritten(accounts: Accounts, username: string, tid: int): (r: (Accounts, bool))
    ensures r.1 <==> username in accounts
    ensures r.0.Keys == accounts.Keys
    ensures forall u :: u in accounts && u != username ==> r.0[u] == accounts[u]
    ensures r.1 ==> Contains(CurrentNotes(r.0[username]), IdMarker(tid))
  {
    if username !in accounts then (accounts, false)
    else
      var current := CurrentNotes(accounts[username]);
      var marker := IdMarker(tid);
      if Contains(current, marker) then (accounts, true)
      else
        var updated := if current != "" then current + " | " + marker else marker;
        assert Contains(updated, marker) by {
          ContainsAt(updated, if current != "" then |current| + 3 else 0, marker);
        }
        (accounts[username := accounts[username].(notes := Some(updated))], true)
  }

  /** The marker of a chat id is a prefix of the marker of any longer id that extends its digits. */
  lemma MarkerOfExtendedId(n: nat, d: nat)
    requires n >= 1 && d < 10
    ensures IdMarker(10 * n + d) == IdMarker(n) + [DigitChar(d)]
  {
    assert (10 * n + d) / 10 == n && (10 * n + d) % 10 == d;
  }

  /**
   * The marker of chat `tid` stands in the notes as a whole number: the
   * text `Telegram ID: {tid}` occurs and is not followed by another digit.
   */
  predicate HasIdMarker(notes: string, tid: int) {
    exists i :: 0 <= i <= |notes| && MarkerAt(notes, IdMarker(tid), i)
  }

  /** `marker` occurs in `notes` at `i` and no digit follows it. */
  predicate MarkerAt(notes: string, marker: string, i: int) {
    0 <= i && i + |marker| <= |notes| && notes[i..i + |marker|] == marker
    && (i + |marker| == |notes| || !IsDigit(notes[i + |marker|]))
  }

  /** The marker, after any prefix and followed by nothing or by a non-digit, stands as a whole number. */
  lemma MarkerAfter(pre: string, tid: int, tail: string)
    requires tail == [] || !IsDigit(tail[0])
    ensures MarkerAt(pre + (IdMarker(tid) + tail), IdMarker(tid), |pre|)
    ensures HasIdMarker(pre + (IdMarker(tid) + tail), tid)
  {
    var m := IdMarker(tid);
    var n := pre + (m + tail);
    assert n[|pre|..|pre| + |m|] == m;
    if tail != [] {
      assert n[|pre| + |m|] == tail[0];
    }
    assert MarkerAt(n, m, |pre|);
  }

  /**
   * The substring test mistakes the marker of a longer id for the one
   * being added: for an account whose notes are `Telegram ID: 123`,
   * adding id 12 reports success and writes nothing, although the notes
   * name no chat 12.
   */
  lemma AddIdAsWrittenSkipsPrefixId(accounts: Accounts, username: string, n: nat, d: nat)
    requires n >= 1 && d < 10
    requires username in accounts && accounts[username].notes == Some(IdMarker(10 * n + d))
    ensures AddIdToNotesAsWritten(accounts, username, n) == (accounts, true)
    ensures !HasIdMarker(CurrentNotes(accounts[username]), n)
  {
    var notes, m := IdMarker(10 * n + d), IdMarker(n);
    assert notes == m + [DigitChar(d)] by {
      MarkerOfExtendedId(n, d);
    }
    assert Contains(notes, m) by {
      assert notes[0..|m|] == m;
      ContainsAt(notes, 0, m);
    }
    assert !HasIdMarker(notes, n) by {
      forall i | 0 <= i <= |notes|
        ensures !MarkerAt(notes, m, i)
      {
        assert i == 0 || i + |m| > |notes| || notes[i] != m[i - i];
      }
    }
  }

  /**
   * `add_telegram_id_to_notes` with the presence test it evidently
   * intends: the write is skipped only when the notes already carry this
   * chat id's marker as a whole number.
   */
  function AddIdToNotes(accounts: Accounts, username: string, tid: int): (r: (Accounts, bool))
    ensures r.1 <==> username in accounts
    ensures r.0.Keys == accounts.Keys
    ensures forall u :: u in accounts && u != username ==> r.0[u] == accounts[u]
    ensures r.1 ==> HasIdMarker(CurrentNotes(r.0[username]), tid)
    ensures r.1 ==> r.0[username] == accounts[username].(notes := r.0[username].notes)
    ensures r.1 && CurrentNotes(accounts[username]) != "" ==>
      StartsWith(CurrentNotes(r.0[username]), CurrentNotes(accounts[username]))
  {
    if username !in accounts then (accounts, false)
    else
      var current := CurrentNotes(accounts[username]);
      var marker := IdMarker(tid);
      if HasIdMarker(current, tid) then (accounts, true)
      else
        var updated := if current != "" then current + " | " + marker else marker;
        var at := if current != "" then |current| + 3 else 0;
        assert MarkerAt(updated, marker, at);
        assert current != "" ==> updated[..|current|] == current;
        (accounts[username := accounts[username].(notes := Some(updated))], true)
  }

  /** Adding the marker a second time is a no-op that still reports true. */
  lemma AddIdToNotesIdempotent(accounts: Accounts, username: string, tid: int)
    ensures var once := AddIdToNotes(accounts, username, tid);
      AddIdToNotes(once.0, username, tid) == once
  {
  }

  /** Where the as-written test and the intended one disagree, the intended one appends the marker. */
  lemma AddIdToNotesRecordsPrefixId(accounts: Accounts, username: string, n: nat, d: nat)
    requires n >= 1 && d < 10
    requires username in accounts && accounts[username].notes == Some(IdMarker(10 * n + d))
    ensures AddIdToNotes(accounts, username, n).0[username].notes == Some(IdMarker(10 * n + d) + " | " + IdMarker(n))
  {
    AddIdAsWrittenSkipsPrefixId(accounts, username, n, d);
  }

  /** `delete_user_by_username`: removes the row; true iff there was one. */
  function Delete(accounts: Accounts, username: string): (r: (Accounts, bool))
    ensures r.1 <==> username in accounts
    ensures r.0.Keys == accounts.Keys - {username}
    ensures forall u :: u in r.0 ==> r.0[u] == accounts[u]
  {
    (accounts - {username}, username in accounts)
  }

  /**
   * A write that touches only the row `username`, and gives it either its
   * old chat id or one no other row holds, keeps the UNIQUE chat-id
   * constraint; when it also sets the verified flag with any chat id, it
   * keeps linked rows verified.
   */
  lemma RowWriteKeepsConstraints(a: Accounts, b: Accounts, username: string)
    requires TelegramIdsUnique(a) && LinkedAreVerified(a)
    requires b.Keys <= a.Keys + {username}
    requires forall u :: u in b && u != username ==> u in a && b[u] == a[u]
    requires username in b && b[username].telegramId.Some? ==> b[username].verified
    requires username in b && b[username].telegramId.Some? ==>
      (username in a && a[username].telegramId == b[username].telegramId) || TelegramIdFree(a, b[username].telegramId.value)
    ensures TelegramIdsUnique(b) && LinkedAreVerified(b)
  {
  }

  // ---------------------------------------------------------------------
  // Account reads
  // ---------------------------------------------------------------------

  /** `WHERE telegram_id = ?` on the account mapping. */
  function LinkedTo(accounts: Accounts, tid: int): set<string> {
    set u | u in accounts && accounts[u].telegramId == Some(tid)
  }

  /** With the UNIQUE constraint a chat id selects at most one account. */
  lemma LinkedToAtMostOne(accounts: Accounts, tid: int, u: string)
    requires TelegramIdsUnique(accounts) && u in LinkedTo(accounts, tid)
    ensures LinkedTo(accounts, tid) == {u}
  {
  }

  /** `get_user_by_telegram_id`: the username of the account linked to the chat, if any. */
  function AccountOf(accounts: Accounts, tid: int): (r: Option<string>)
    requires TelegramIdsUnique(accounts)
    ensures r.None? <==> LinkedTo(accounts, tid) == {}
    ensures r.Some? ==> LinkedTo(accounts, tid) == {r.value}
  {
    if exists u :: u in accounts && accounts[u].telegramId == Some(tid) then
      var u :| u in accounts && accounts[u].telegramId == Some(tid);
      assert u in LinkedTo(accounts, tid);
      Some(u)
    else
      assert forall u :: u !in LinkedTo(accounts, tid);
      None
  }

  /** `get_users_by_telegram_id`: the usernames linked to the chat, as a list. */
  function UsersByTelegramId(accounts: Accounts, tid: int): (r: seq<string>)
    requires TelegramIdsUnique(accounts)
    ensures |r| <= 1
    ensures forall u :: u in r <==> u in LinkedTo(accounts, tid)
  {
    match AccountOf(accounts, tid)
    case None => []
    case Some(u) => [u]
  }

  /** `get_unlinked_users`: the usernames whose chat id is NULL. */
  function UnlinkedUsers(accounts: Accounts): set<string> {
    set u | u in accounts && accounts[u].telegramId.None?
  }

  // ---------------------------------------------------------------------
  // Payment request writes
  // ---------------------------------------------------------------------

  /** The row `create_payment_request` inserts: pending, no receipt, no decision yet. */
  function NewRequest(tid: int, username: string, planId: string, amount: real, now: int): (q: PaymentRequest)
    ensures q.status == Pending && q.receipt.None? && q.processedBy.None? && q.comment.None?
    ensures q.telegramId == tid && q.username == username && q.planId == planId && q.amount == amount
  {
    PaymentRequest(tid, username, planId, amount, now, Pending, None, None, None, None)
  }

  /** `add_receipt_to_request`: file id and type set together on that row only; false for an unknown id. */
  function AttachReceipt(requests: Requests, id: int, fileId: string, fileType: string): (r: (Requests, bool))
    ensures r.1 <==> id in requests
    ensures r.0.Keys == requests.Keys
    ensures forall j :: j in requests && j != id ==> r.0[j] == requests[j]
    ensures r.1 ==> r.0[id] == requests[id].(receipt := Some(Receipt(fileId, fileType)))
  {
    if id in requests then (requests[id := requests[id].(receipt := Some(Receipt(fileId, fileType)))], true)
    else (requests, false)
  }

  /**
   * `approve_payment_request` / `reject_payment_request`: the row changes
   * only while it is pending (`WHERE id = ? AND status = 'pending'`); it
   * then records the verdict, the administrator, the comment and the time.
   */
  function Decide(requests: Requests, id: int, verdict: RequestStatus, admin: int, comment: Option<string>, now: int): (r: (Requests, bool))
    requires verdict != Pending
    ensures r.1 <==> id in requests && requests[id].status == Pending
    ensures !r.1 ==> r.0 == requests
    ensures r.0.Keys == requests.Keys
    ensures forall j :: j in requests && j != id ==> r.0[j] == requests[j]
    ensures r.1 ==> r.0[id] == requests[id].(status := verdict, comment := comment, processedAt := Some(now), processedBy := Some(admin))
  {
    if id in requests && requests[id].status == Pending then
      (requests[id := requests[id].(status := verdict, comment := comment, processedAt := Some(now), processedBy := Some(admin))], true)
    else (requests, false)
  }

  /** A decided request stays decided: a second approve or reject on the same id reports false and changes nothing. */
  lemma SecondDecisionFails(requests: Requests, id: int, v1: RequestStatus, a1: int, c1: Option<string>, t1: int,
                            v2: RequestStatus, a2: int, c2: Option<string>, t2: int)
    requires v1 != Pending && v2 != Pending
    requires Decide(requests, id, v1, a1, c1, t1).1
    ensures var after := Decide(requests, id, v1, a1, c1, t1).0;
      Decide(after, id, v2, a2, c2, t2) == (after, false) && after[id].status == v1
  {
  }

  /** Attaching a receipt never changes whether, or how, a request was decided. */
  lemma ReceiptKeepsDecision(requests: Requests, id: int, fileId: string, fileType: string, j: int)
    requires j in requests
    ensures var after := AttachReceipt(requests, id, fileId, fileType).0;
      after[j].status == requests[j].status && after[j].processedBy == requests[j].processedBy
  {
  }

  // ---------------------------------------------------------------------
  // Ledger
  // ---------------------------------------------------------------------

  /** `transaction_id`, or `manual_<stamp>` when it is falsy; the stamp is the formatted current time. */
  function TransactionIdOrGenerated(transactionId: Option<string>, stamp: string): (t: string)
    ensures Truthy(transactionId) ==> t == transactionId.value
    ensures !Truthy(transactionId) ==> StartsWith(t, "manual_")
  {
    if Truthy(transactionId) then transactionId.value
    else
      assert ("manual_" + stamp)[..7] == "manual_";
      "manual_" + stamp
  }

  // ---------------------------------------------------------------------
  // Statistics
  // ---------------------------------------------------------------------

  /** `get_statistics`: the counters the admin dashboard shows. */
  datatype Statistics = Statistics(
    totalUsers: nat,
    linkedUsers: nat,
    verifiedUsers: nat,
    unlinkedUsers: int,
    linkPercentage: real,
    totalPayments: nat,
    totalRevenue: real,
    monthlyPayments: nat,
    monthlyRevenue: real)

  /** `datetime('now', '-30 days')`, in seconds. */
  const MonthSeconds: int := 30 * 86400

  /** A ledger row the statistics count: completed, and not older than `since` when given. */
  predicate Counted(p: PaymentRecord, since: Option<int>) {
    p.status == "completed" && (since.None? || p.paidAt >= since.value)
  }

  /** `COUNT(*)` over the counted rows. */
  function PaymentCount(rows: seq<PaymentRecord>, since: Option<int>): (n: nat)
    ensures n <= |rows|
  {
    if rows == [] then 0
    else PaymentCount(rows[..|rows| - 1], since) + (if Counted(rows[|rows| - 1], since) then 1 else 0)
  }

  /** `SUM(amount) or 0` over the counted rows. */
  function PaymentSum(rows: seq<PaymentRecord>, since: Option<int>): real {
    if rows == [] then 0.0
    else PaymentSum(rows[..|rows| - 1], since) + (if Counted(rows[|rows| - 1], since) then rows[|rows| - 1].amount else 0.0)
  }

  function LinkedUsers(accounts: Accounts): set<string> {
    set u | u in accounts && accounts[u].telegramId.Some?
  }

  function VerifiedUsers(accounts: Accounts): set<string> {
    set u | u in accounts && accounts[u].verified
  }

  function Stats(accounts: Accounts, history: seq<PaymentRecord>, now: int): (s: Statistics)
    ensures s.totalUsers == |accounts|
  {
    var total := |accounts.Keys|;
    var linked := |LinkedUsers(accounts)|;
    Statistics(
      total, linked, |VerifiedUsers(accounts)|, total - linked,
      if total > 0 then (linked as real) / (total as real) * 100.0 else 0.0,
      PaymentCount(history, None), PaymentSum(history, None),
      PaymentCount(history, Some(now - MonthSeconds)), PaymentSum(history, Some(now - MonthSeconds)))
  }

  /** Linked and unlinked accounts partition the table. */
  lemma LinkedUnlinkedPartition(accounts: Accounts)
    ensures |LinkedUsers(accounts)| + |UnlinkedUsers(accounts)| == |accounts.Keys|
  {
    var l, n := LinkedUsers(accounts), UnlinkedUsers(accounts);
    assert l + n == accounts.Keys;
    assert l * n == {};
  }

  /** The unlinked count is the number of unlinked accounts, and the link percentage lies in 0..100. */
  lemma StatsPartition(accounts: Accounts, history: seq<PaymentRecord>, now: int)
    ensures var s := Stats(accounts, history, now);
      s.linkedUsers <= s.totalUsers && s.unlinkedUsers == |UnlinkedUsers(accounts)|
      && 0.0 <= s.linkPercentage <= 100.0
  {
    LinkedUnlinkedPartition(accounts);
    var l, t := |LinkedUsers(accounts)|, |accounts.Keys|;
    if t > 0 {
      PercentageBound(l, t);
    }
  }

  lemma PercentageBound(part: nat, whole: nat)
    requires part <= whole && whole > 0
    ensures 0.0 <= (part as real) / (whole as real) * 100.0 <= 100.0
  {
    var p, w := part as real, whole as real;
    assert p / w <= 1.0 by {
      assert p / w * w == p;
    }
  }

  /** With every linked account verified, the verified count is never below the linked count. */
  lemma VerifiedCoverLinked(accounts: Accounts, history: seq<PaymentRecord>, now: int)
    requires LinkedAreVerified(accounts)
    ensures Stats(accounts, history, now).verifiedUsers >= Stats(accounts, history, now).linkedUsers
  {
    var l, v := LinkedUsers(accounts), VerifiedUsers(accounts);
    assert v == l + (v - l);
    assert l * (v - l) == {};
  }

  /** The last 30 days never hold more completed payments than the whole ledger. */
  lemma {:induction false} MonthlyWithinTotal(rows: seq<PaymentRecord>, since: int)
    ensures PaymentCount(rows, Some(since)) <= PaymentCount(rows, None)
    decreases |rows|
  {
    if rows != [] {
      MonthlyWithinTotal(rows[..|rows| - 1], since);
    }
  }

  /** Appending a ledger row adds one to the completed count exactly when the row is completed and in the window. */
  lemma AppendCounts(rows: seq<PaymentRecord>, p: PaymentRecord, since: Option<int>)
    ensures PaymentCount(rows + [p], since) == PaymentCount(rows, since) + (if Counted(p, since) then 1 else 0)
  {
    assert (rows + [p])[..|rows|] == rows;
  }

  /** Each element of a row set once, in the order `fetchall` happens to return them. */
  predicate Distinct(r: seq<string>) {
    forall i, j :: 0 <= i < j < |r| ==> r[i] != r[j]
  }

  /**
   * The scan behind `get_pending_payment_requests`: ids below `next` from
   * the highest down, keeping the pending requests.
   */
  method PendingNewestFirst(requests: Requests, next: int) returns (rows: seq<(int, PaymentRequest)>)
    requires forall id :: id in requests ==> 1 <= id < next
    ensures forall k :: 0 <= k < |rows| ==>
      rows[k].0 in requests && requests[rows[k].0] == rows[k].1 && rows[k].1.status == Pending
    ensures forall id :: id in requests && requests[id].status == Pending ==>
      exists k :: 0 <= k < |rows| && rows[k].0 == id
    ensures forall k, m :: 0 <= k < m < |rows| ==> rows[k].0 > rows[m].0
  {
    rows := [];
    ghost var ids: seq<int> := [];
    var id := if next >= 1 then next - 1 else 0;
    while id >= 1
      invariant 0 <= id && (next >= 1 ==> id < next)
      invariant |ids| == |rows| && forall k :: 0 <= k < |rows| ==> ids[k] == rows[k].0
      invariant forall k :: 0 <= k < |rows| ==>
        rows[k].0 in requests && requests[rows[k].0] == rows[k].1 && rows[k].1.status == Pending && rows[k].0 > id
      invariant forall j :: id < j && j in requests && requests[j].status == Pending ==> j in ids
      invariant forall k, m :: 0 <= k < m < |rows| ==> rows[k].0 > rows[m].0
    {
      if id in requests && requests[id].status == Pending {
        rows := rows + [(id, requests[id])];
        ids := ids + [id];
      }
      id := id - 1;
    }
    forall j | j in requests && requests[j].status == Pending
      ensures exists k :: 0 <= k < |rows| && rows[k].0 == j
    {
      var k :| 0 <= k < |ids| && ids[k] == j;
      assert rows[k].0 == j;
    }
  }

  /** A query's result rows, each selected username exactly once. */
  method Enumerate(s: set<string>) returns (r: seq<string>)
    ensures Distinct(r)
    ensures forall u :: u in r <==> u in s
    ensures |r| == |s|
  {
    r := [];
    var rest := s;
    while rest != {}
      invariant Distinct(r)
      invariant forall u :: u in r <==> u in s - rest
      invariant rest <= s
      invariant |r| + |rest| == |s|
      decreases |rest|
    {
      var u :| u in rest;
      assert u !in r;
      assert forall i :: 0 <= i < |r| ==> (r + [u])[i] == r[i];
      r, rest := r + [u], rest - {u};
    }
  }

  // ---------------------------------------------------------------------
  // The store
  // ---------------------------------------------------------------------

  /** `DatabaseManager`: the three tables behind one object. */
  class Database {
    var accounts: Accounts
    /** `payment_requests` is created by the first `create_payment_request`, not at start-up. */
    var requestsTable: bool
    var requests: Requests
    /** The next AUTOINCREMENT id: ids start at 1 and are never reused. */
    var nextRequestId: int
    var history: seq<PaymentRecord>

    ghost predicate Valid()
      reads this
    {
      && TelegramIdsUnique(accounts)
      && LinkedAreVerified(accounts)
      && nextRequestId >= 1
      && (forall id :: id in requests ==> 1 <= id < nextRequestId)
      && (!requestsTable ==> requests == map[])
    }

    /** `init_database` on a new file: empty mapping and ledger, no request table yet. */
    constructor ()
      ensures Valid()
      ensures accounts == map[] && requests == map[] && history == [] && !requestsTable
    {
      accounts := map[];
      requestsTable := false;
      requests := map[];
      nextRequestId := 1;
      history := [];
    }

    method AddUser(username: string, status: string, notes: Option<string>, fault: bool) returns (ok: bool)
      requires Valid()
      modifies this
      ensures Valid()
      ensures fault ==> !ok && accounts == old(accounts)
      ensures !fault ==> (accounts, ok) == InsertOrIgnore(old(accounts), username, status, notes)
      ensures requests == old(requests) && requestsTable == old(requestsTable)
      ensures nextRequestId == old(nextRequestId) && history == old(history)
    {
      if fault {
        ok := false;
      } else {
        var r := InsertOrIgnore(accounts, username, status, notes);
        RowWriteKeepsConstraints(accounts, r.0, username);
        accounts, ok := r.0, r.1;
      }
    }

    method CreateNewUserRecord(username: string, tid: int, telegramUsername: Option<string>, fault: bool) returns (ok: bool)
      requires Valid()
      modifies this
      ensures Valid()
      ensures fault ==> !ok && accounts == old(accounts)
      ensures !fault ==> (accounts, ok) == InsertRegistered(old(accounts), username, tid, telegramUsername)
      ensures requests == old(requests) && requestsTable == old(requestsTable)
      ensures nextRequestId == old(nextRequestId) && history == old(history)
    {
      if fault {
        ok := false;
      } else {
        var r := InsertRegistered(accounts, username, tid, telegramUsername);
        RowWriteKeepsConstraints(accounts, r.0, username);
        accounts, ok := r.0, r.1;
      }
    }

    method LinkTelegramAccount(username: string, tid: int, telegramUsername: Option<string>, phone: Option<string>, fault: bool)
      returns (ok: bool)
      requires Valid()
      modifies this
      ensures Valid()
      ensures fault ==> !ok && accounts == old(accounts)
      ensures !fault ==> (accounts, ok) == Link(old(accounts), username, tid, telegramUsername, phone)
      ensures requests == old(requests) && requestsTable == old(requestsTable)
      ensures nextRequestId == old(nextRequestId) && history == old(history)
    {
      if fault {
        ok := false;
      } else {
        var r := Link(accounts, username, tid, telegramUsername, phone);
        RowWriteKeepsConstraints(accounts, r.0, username);
        accounts, ok := r.0, r.1;
      }
    }

    method UpdateUserNotes(username: string, notes: string, fault: bool) returns (ok: bool)
      requires Valid()
      modifies this
      ensures Valid()
      ensures fault ==> !ok && accounts == old(accounts)
      ensures !fault ==> (accounts, ok) == SetNotes(old(accounts), username, notes)
      ensures requests == old(requests) && requestsTable == old(requestsTable)
      ensures nextRequestId == old(nextRequestId) && history == old(history)
    {
      if fault {
        ok := false;
      } else {
        var r := SetNotes(accounts, username, notes);
        RowWriteKeepsConstraints(accounts, r.0, username);
        accounts, ok := r.0, r.1;
      }
    }

    method AddTelegramIdToNotes(username: string, tid: int, fault: bool) returns (ok: bool)
      requires Valid()
      modifies this
      ensures Valid()
      ensures fault ==> !ok && accounts == old(accounts)
      ensures !fault ==> (accounts, ok) == AddIdToNotes(old(accounts), username, tid)
      ensures requests == old(requests) && requestsTable == old(requestsTable)
      ensures nextRequestId == old(nextRequestId) && history == old(history)
    {
      if fault {
        ok := false;
      } else {
        var r := AddIdToNotes(accounts, username, tid);
        RowWriteKeepsConstraints(accounts, r.0, username);
        accounts, ok := r.0, r.1;
      }
    }

    /** `delete_user_by_username` catches nothing, so it has no failure path of its own. */
    method DeleteUserByUsername(username: string) returns (ok: bool)
      requires Valid()
      modifies this
      ensures Valid()
      ensures (accounts, ok) == Delete(old(accounts), username)
      ensures requests == old(requests) && requestsTable == old(requestsTable)
      ensures nextRequestId == old(nextRequestId) && history == old(history)
    {
      var r := Delete(accounts, username);
      RowWriteKeepsConstraints(accounts, r.0, username);
      accounts, ok := r.0, r.1;
    }

    /**
     * `create_payment_request`: creates the request table when missing and
     * inserts a pending row; returns its new id, or 0 on a storage error.
     */
    method CreatePaymentRequest(tid: int, username: string, planId: string, amount: real, now: int, fault: bool)
      returns (id: int)
      requires Valid()
      modifies this
      ensures Valid()
      ensures fault ==> id == 0
      ensures fault ==> requests == old(requests) && nextRequestId == old(nextRequestId) && requestsTable == old(requestsTable)
      ensures !fault ==> id == old(nextRequestId) && id > 0 && id !in old(requests) && requestsTable && nextRequestId == id + 1
      ensures !fault ==> requests == old(requests)[id := NewRequest(tid, username, planId, amount, now)]
      ensures accounts == old(accounts) && history == old(history)
    {
      if fault {
        id := 0;
      } else {
        requestsTable := true;
        id := nextRequestId;
        requests := requests[id := NewRequest(tid, username, planId, amount, now)];
        nextRequestId := nextRequestId + 1;
      }
    }

    /** A write to a missing request table raises inside the `try` and reports false, as a storage error does. */
    method AddReceiptToRequest(id: int, fileId: string, fileType: string, fault: bool) returns (ok: bool)
      requires Valid()
      modifies this
      ensures Valid()
      ensures fault ==> !ok && requests == old(requests)
      ensures !fault ==> (requests, ok) == AttachReceipt(old(requests), id, fileId, fileType)
      ensures accounts == old(accounts) && history == old(history)
      ensures nextRequestId == old(nextRequestId) && requestsTable == old(requestsTable)
    {
      if fault {
        ok := false;
      } else {
        var r := AttachReceipt(requests, id, fileId, fileType);
        requests, ok := r.0, r.1;
      }
    }

    method ApprovePaymentRequest(id: int, admin: int, comment: Option<string>, now: int, fault: bool) returns (ok: bool)
      requires Valid()
      modifies this
      ensures Valid()
      ensures fault ==> !ok && requests == old(requests)
      ensures !fault ==> (requests, ok) == Decide(old(requests), id, Approved, admin, comment, now)
      ensures accounts == old(accounts) && history == old(history)
      ensures nextRequestId == old(nextRequestId) && requestsTable == old(requestsTable)
    {
      if fault {
        ok := false;
      } else {
        var r := Decide(requests, id, Approved, admin, comment, now);
        requests, ok := r.0, r.1;
      }
    }

    method RejectPaymentRequest(id: int, admin: int, comment: string, now: int, fault: bool) returns (ok: bool)
      requires Valid()
      modifies this
      ensures Valid()
      ensures fault ==> !ok && requests == old(requests)
      ensures !fault ==> (requests, ok) == Decide(old(requests), id, Rejected, admin, Some(comment), now)
      ensures accounts == old(accounts) && history == old(history)
      ensures nextRequestId == old(nextRequestId) && requestsTable == old(requestsTable)
    {
      if fault {
        ok := false;
      } else {
        var r := Decide(requests, id, Rejected, admin, Some(comment), now);
        requests, ok := r.0, r.1;
      }
    }

    /** `record_payment`: appends exactly one ledger row; false on a storage error. */
    method RecordPayment(tid: int, username: string, amount: real, paymentMethod: string,
                         transactionId: Option<string>, status: string, now: int, stamp: string, fault: bool)
      returns (ok: bool)
      requires Valid()
      modifies this
      ensures Valid()
      ensures ok == !fault
      ensures ok ==> history == old(history) + [PaymentRecord(tid, username, amount, now, paymentMethod,
        TransactionIdOrGenerated(transactionId, stamp), status)]
      ensures !ok ==> history == old(history)
      ensures accounts == old(accounts) && requests == old(requests)
      ensures nextRequestId == old(nextRequestId) && requestsTable == old(requestsTable)
    {
      if fault {
        ok := false;
      } else {
        history := history + [PaymentRecord(tid, username, amount, now, paymentMethod,
          TransactionIdOrGenerated(transactionId, stamp), status)];
        ok := true;
      }
    }

    /** `get_payment_request`: the row with that id, if any; raises while the table does not exist. */
    function GetPaymentRequest(id: int): (r: Query<Option<PaymentRequest>>)
      reads this
      ensures r.NoSuchTable? <==> !requestsTable
      ensures r.Answer? ==> (r.value.Some? <==> id in requests)
      ensures r.Answer? && r.value.Some? ==> r.value.value == requests[id]
    {
      if !requestsTable then NoSuchTable
      else if id in requests then Answer(Some(requests[id]))
      else Answer(None)
    }

    /**
     * `get_pending_payment_requests`: every pending request, newest first.
     * Descending ids stand for `ORDER BY created_at DESC`; the order of
     * requests stamped within the same second is not modelled.
     */
    method GetPendingPaymentRequests() returns (r: Query<seq<(int, PaymentRequest)>>)
      requires Valid()
      ensures r.NoSuchTable? <==> !requestsTable
      ensures r.Answer? ==> forall k :: 0 <= k < |r.value| ==>
        r.value[k].0 in requests && requests[r.value[k].0] == r.value[k].1 && r.value[k].1.status == Pending
      ensures r.Answer? ==> forall id :: id in requests && requests[id].status == Pending ==>
        exists k :: 0 <= k < |r.value| && r.value[k].0 == id
      ensures r.Answer? ==> forall k, m :: 0 <= k < m < |r.value| ==> r.value[k].0 > r.value[m].0
    {
      if !requestsTable {
        return NoSuchTable;
      }
      var rows := PendingNewestFirst(requests, nextRequestId);
      r := Answer(rows);
    }

    function GetUserByTelegramId(tid: int): (r: Option<(string, Account)>)
      reads this
      requires Valid()
      ensures r.None? <==> LinkedTo(accounts, tid) == {}
      ensures r.Some? ==> r.value.0 in accounts && accounts[r.value.0] == r.value.1 && r.value.1.telegramId == Some(tid)
    {
      match AccountOf(accounts, tid)
      case None => None
      case Some(u) => Some((u, accounts[u]))
    }

    /** `get_unlinked_users`: each account without a chat id, once. */
    method GetUnlinkedUsers() returns (r: seq<string>)
      ensures Distinct(r)
      ensures forall u :: u in r <==> u in accounts && accounts[u].telegramId.None?
      ensures |r| == |UnlinkedUsers(accounts)|
    {
      r := Enumerate(UnlinkedUsers(accounts));
    }

    /**
     * `get_all_users`, which the cleanup command calls but the repository
     * does not define: every account's username, each once.
     */
    method GetAllUsers() returns (r: seq<string>)
      ensures Distinct(r)
      ensures forall u :: u in r <==> u in accounts
    {
      r := Enumerate(accounts.Keys);
    }

    function GetUserByMarzbanUsername(username: string): (r: Option<Account>)
      reads this
      ensures r.Some? <==> username in accounts
      ensures r.Some? ==> r.value == accounts[username]
    {
      if username in accounts then Some(accounts[username]) else None
    }

    function GetStatistics(now: int): (s: Statistics)
      reads this
      requires Valid()
      ensures s.linkedUsers <= s.verifiedUsers
      ensures s.unlinkedUsers == |UnlinkedUsers(accounts)|
    {
      StatsPartition(accounts, history, now);
      VerifiedCoverLinked(accounts, history, now);
      Stats(accounts, history, now)
    }
  }
}
