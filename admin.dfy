/**
 * The administrators' commands: invite links for unlinked accounts, the
 * new-users report, adding a chat id to an account's notes, the two
 * notes-sync commands (local table and panel) and the cleanup of local
 * accounts the panel no longer has.
 *
 * Python's `hash(username)` is an oracle `hashOf`; each panel call gets its
 * answer from `netOf(username)`; `failing` names the rows whose write
 * raises a storage error.
 */
module Admin {
  import opened Wrappers
  import opened PyStr
  import opened Repository
  import Panel
  import Config
  import UserFlow

  /** What the administrator is told. */
  datatype Reply =
    | NoAdminRights
    | AllLinked
    | InviteLinks(usernames: seq<string>, codes: seq<string>)
    | Usage
    | BadTelegramId
    | UserNotFound(username: string)
    | NoteAdded(username: string, telegramId: int)
    | NoteFailed(username: string)
    | NotesSynced(updated: nat, total: nat)
    | PanelSynced(success: nat, errors: nat, total: nat)
    | Raised
    | AccountsRemoved(usernames: seq<string>)
    | NothingRemoved

  // ---------------------------------------------------------------------
  // Invite links
  // ---------------------------------------------------------------------

  function Pow10(k: nat): nat {
    if k == 0 then 1 else 10 * Pow10(k - 1)
  }

  /** A number below `10^k` has at most `k` decimal digits. */
  lemma {:induction false} NatToStringWithin(n: nat, k: nat)
    requires k >= 1 && n < Pow10(k)
    ensures |NatToString(n)| <= k
  {
    if n >= 10 {
      assert k >= 2;
      NatToStringWithin(n / 10, k - 1);
    }
  }

  /**
   * `link_{username}_{hash(username) % 10000:04d}`: Python's `%` with a
   * positive divisor is never negative, so the tag is exactly four digits
   * and the code parses back to its username.
   */
  function InviteCode(username: string, h: int): (code: string)
    ensures exists tag :: code == UserFlow.InvitePrefix + username + "_" + tag && |tag| == 4 && IsDigits(tag)
    ensures UserFlow.ParseInvite(code) == UserFlow.InviteFor(username)
  {
    var tag := ZeroPad(h % 10000, 4);
    NatToStringWithin(h % 10000, 4);
    assert |tag| == 4;
    DigitsHaveNoUnderscore(tag);
    UserFlow.InviteRoundTrip(username, tag);
    UserFlow.InvitePrefix + username + "_" + tag
  }

  lemma DigitsHaveNoUnderscore(tag: string)
    requires IsDigits(tag)
    ensures '_' !in tag
  {
    forall i | 0 <= i < |tag|
      ensures tag[i] != '_'
    {
      assert IsDigit(tag[i]);
    }
  }

  /**
   * `admin_links_command`: one invite per unlinked account, or the
   * "all linked" notice when there is none.
   */
  method AdminLinksCommand(db: Database, cfg: Config.Settings, admin: int, hashOf: string -> int) returns (reply: Reply)
    ensures !Config.IsAdmin(cfg, admin) ==> reply == NoAdminRights
    ensures Config.IsAdmin(cfg, admin) ==> (reply == AllLinked <==> UnlinkedUsers(db.accounts) == {})
    ensures reply.InviteLinks? ==> (
      && Config.IsAdmin(cfg, admin)
      && Distinct(reply.usernames)
      && (forall u :: u in reply.usernames <==> u in UnlinkedUsers(db.accounts))
      && |reply.codes| == |reply.usernames|
      && (forall k :: 0 <= k < |reply.codes| ==>
            reply.codes[k] == InviteCode(reply.usernames[k], hashOf(reply.usernames[k]))
            && UserFlow.ParseInvite(reply.codes[k]) == UserFlow.InviteFor(reply.usernames[k])))
  {
    if !Config.IsAdmin(cfg, admin) {
      return NoAdminRights;
    }
    var users := db.GetUnlinkedUsers();
    if |users| == 0 {
      return AllLinked;
    }
    var codes := [];
    var i := 0;
    while i < |users|
      invariant 0 <= i <= |users|
      invariant |codes| == i
      invariant forall k :: 0 <= k < i ==> codes[k] == InviteCode(users[k], hashOf(users[k]))
    {
      codes := codes + [InviteCode(users[i], hashOf(users[i]))];
      i := i + 1;
    }
    reply := InviteLinks(users, codes);
  }

  // ---------------------------------------------------------------------
  // The new-users report
  // ---------------------------------------------------------------------

  const MessageLimit := 4000

  /** `[m[i:i+width] for i in range(0, len(m), width)]`. */
  function Slices(m: string, width: nat): (parts: seq<string>)
    requires width > 0
    ensures Join("", parts) == m
    ensures forall k :: 0 <= k < |parts| ==> 0 < |parts[k]| <= width
    ensures forall k :: 0 <= k < |parts| - 1 ==> |parts[k]| == width
    decreases |m|
  {
    if |m| == 0 then []
    else if |m| <= width then [m]
    else
      var rest := Slices(m[width..], width);
      assert m == m[..width] + m[width..];
      [m[..width]] + rest
  }

  /**
   * The messages `new_users_command` sends for a report: the report itself
   * up to 4000 characters, otherwise consecutive 4000-character slices that
   * give the report back when joined.
   */
  function ReportMessages(report: string): (msgs: seq<string>)
    ensures |report| <= MessageLimit ==> msgs == [report]
    ensures Join("", msgs) == report
    ensures forall k :: 0 <= k < |msgs| ==> |msgs[k]| <= MessageLimit
    ensures |report| > MessageLimit ==> |msgs| >= 2 && forall k :: 0 <= k < |msgs| - 1 ==> |msgs[k]| == MessageLimit
  {
    if |report| > MessageLimit then Slices(report, MessageLimit) else [report]
  }

  // ---------------------------------------------------------------------
  // /add_note
  // ---------------------------------------------------------------------

  /**
   * `add_telegram_note_command`: exactly two arguments, a numeric chat id
   * and a known username; only then is the marker added to the notes.
   */
  method AddTelegramNoteCommand(db: Database, cfg: Config.Settings, admin: int, args: seq<string>, fault: bool)
    returns (reply: Reply)
    requires db.Valid()
    modifies db
    ensures db.Valid()
    ensures !Config.IsAdmin(cfg, admin) ==> reply == NoAdminRights
    ensures Config.IsAdmin(cfg, admin) && |args| != 2 ==> reply == Usage
    ensures Config.IsAdmin(cfg, admin) && |args| == 2 && ParseInt(args[1]).None? ==> reply == BadTelegramId
    ensures Config.IsAdmin(cfg, admin) && |args| == 2 && ParseInt(args[1]).Some? && args[0] !in old(db.accounts) ==>
      reply == UserNotFound(args[0])
    ensures reply.NoteAdded? <==> (
      && Config.IsAdmin(cfg, admin) && |args| == 2 && ParseInt(args[1]).Some?
      && args[0] in old(db.accounts) && !fault)
    ensures reply.NoteAdded? ==> (
      && reply == NoteAdded(args[0], ParseInt(args[1]).value)
      && db.accounts == AddIdToNotes(old(db.accounts), args[0], reply.telegramId).0
      && HasIdMarker(CurrentNotes(db.accounts[args[0]]), reply.telegramId))
    ensures !reply.NoteAdded? ==> db.accounts == old(db.accounts)
    ensures db.requests == old(db.requests) && db.history == old(db.history)
  {
    if !Config.IsAdmin(cfg, admin) {
      return NoAdminRights;
    }
    if |args| != 2 {
      return Usage;
    }
    var username := args[0];
    var tid := ParseInt(args[1]);
    if tid.None? {
      return BadTelegramId;
    }
    if db.GetUserByMarzbanUsername(username).None? {
      return UserNotFound(username);
    }
    var ok := db.AddTelegramIdToNotes(username, tid.value, fault);
    if ok {
      reply := NoteAdded(username, tid.value);
    } else {
      reply := NoteFailed(username);
    }
  }

  // ---------------------------------------------------------------------
  // /sync_notes: the local notes
  // ---------------------------------------------------------------------

  /**
   * The notes after a sync: the current notes, `" | "`, and the marker with
   * the `@` handle; or the marker part alone when the notes were empty.
   */
  function SyncedNotes(current: Option<string>, tid: int, telegramUsername: Option<string>): (n: string)
    ensures HasIdMarker(n, tid)
    ensures Truthy(current) ==> StartsWith(n, current.value + " | ")
    ensures !Truthy(current) ==> n == Panel.SyncNote(tid, telegramUsername)
  {
    var m := IdMarker(tid);
    var tail := if Truthy(telegramUsername) then " | @" + telegramUsername.value else "";
    var part := Panel.SyncNote(tid, telegramUsername);
    assert part == m + tail;
    var pre := if Truthy(current) then current.value + " | " else "";
    MarkerAfter(pre, tid, tail);
    StartsWithExtend(pre, pre, part);
    assert pre + part == if Truthy(current) then current.value + " | " + part else part;
    pre + part
  }

  /**
   * The skip test of `sync_telegram_notes_command` as written: a plain
   * substring test for the marker.
   */
  predicate NeedsSyncAsWritten(notes: Option<string>, tid: int) {
    !(Truthy(notes) && Contains(notes.value, IdMarker(tid)))
  }

  /** The skip test as intended: the chat id must already stand in the notes as a whole number. */
  predicate NeedsSync(notes: Option<string>, tid: int) {
    !(Truthy(notes) && HasIdMarker(notes.value, tid))
  }

  /**
   * As written, a row of chat 12 whose notes name chat 123 is skipped,
   * although its own id is nowhere in the notes; the intended test syncs it.
   */
  lemma SyncAsWrittenSkipsPrefixId(n: nat, d: nat)
    requires n >= 1 && d < 10
    ensures !NeedsSyncAsWritten(Some(IdMarker(10 * n + d)), n)
    ensures NeedsSync(Some(IdMarker(10 * n + d)), n)
  {
    var row := Account(Some(n), None, None, true, "active", Some(IdMarker(10 * n + d)));
    var accounts := map["u" := row];
    AddIdAsWrittenSkipsPrefixId(accounts, "u", n, d);
    assert AddIdToNotesAsWritten(accounts, "u", n) == (accounts, true);
  }

  /** The linked rows the sync writes: those needing the marker whose write does not fail. */
  function SyncTargets(accounts: Accounts, skip: set<string>): set<string> {
    set u | u in accounts && accounts[u].telegramId.Some?
      && NeedsSync(accounts[u].notes, accounts[u].telegramId.value) && u !in skip
  }

  /** The row as the sync writes it. */
  function SyncedRow(a: Account): (r: Account)
    requires a.telegramId.Some?
    ensures r == a.(notes := r.notes)
    ensures r.notes.Some? && HasIdMarker(r.notes.value, a.telegramId.value)
  {
    a.(notes := Some(SyncedNotes(a.notes, a.telegramId.value, a.telegramUsername)))
  }

  /** The table after a sync in which the rows in `skip` were not written. */
  function AfterSync(accounts: Accounts, skip: set<string>): (r: Accounts)
    ensures r.Keys == accounts.Keys
  {
    map u | u in accounts :: if u in SyncTargets(accounts, skip) then SyncedRow(accounts[u]) else accounts[u]
  }

  /** Only the row's notes change, so the table constraints survive a sync. */
  lemma AfterSyncKeepsConstraints(accounts: Accounts, skip: set<string>)
    requires TelegramIdsUnique(accounts) && LinkedAreVerified(accounts)
    ensures TelegramIdsUnique(AfterSync(accounts, skip)) && LinkedAreVerified(AfterSync(accounts, skip))
  {
    var r := AfterSync(accounts, skip);
    assert forall u :: u in r ==> r[u].telegramId == accounts[u].telegramId && r[u].verified == accounts[u].verified;
  }

  /**
   * After a sync, a second sync with no storage errors writes exactly the
   * rows whose write failed the first time; with no failures it writes
   * nothing.
   */
  lemma SyncLeavesOnlyFailures(accounts: Accounts, failing: set<string>)
    ensures SyncTargets(AfterSync(accounts, failing), {}) == SyncTargets(accounts, {}) * failing
  {
    var r := AfterSync(accounts, failing);
    forall u | u in SyncTargets(accounts, {}) && u !in failing
      ensures u !in SyncTargets(r, {})
    {
      assert u in SyncTargets(accounts, failing);
      var n := r[u].notes.value;
      assert HasIdMarker(n, r[u].telegramId.value);
      var i :| 0 <= i <= |n| && MarkerAt(n, IdMarker(r[u].telegramId.value), i);
      assert Truthy(r[u].notes);
    }
  }

  /** The usernames from position `i` on. */
  function Rest(users: seq<string>, i: nat): set<string> {
    set j | i <= j < |users| :: users[j]
  }

  /** One row of the sync loop: the first unprocessed username joins the targets exactly when it is one. */
  lemma SyncStep(rows: Accounts, failing: set<string>, users: seq<string>, i: nat)
    requires Distinct(users) && i < |users|
    requires users[i] in rows && rows[users[i]].telegramId.Some?
    ensures var u, before, after := users[i], failing + Rest(users, i), failing + Rest(users, i + 1);
      && u !in SyncTargets(rows, before)
      && AfterSync(rows, before)[u] == rows[u]
      && (if NeedsSync(rows[u].notes, rows[u].telegramId.value) && u !in failing then
            && SyncTargets(rows, after) == SyncTargets(rows, before) + {u}
            && AfterSync(rows, after) == AfterSync(rows, before)[u := SyncedRow(rows[u])]
          else
            && SyncTargets(rows, after) == SyncTargets(rows, before)
            && AfterSync(rows, after) == AfterSync(rows, before))
  {
    var u := users[i];
    assert Rest(users, i) == Rest(users, i + 1) + {u};
    forall j | i + 1 <= j < |users|
      ensures users[j] != u
    {
    }
  }

  /**
   * One pass of the sync loop over `users[i]`: the row is written when it
   * lacks its marker, and the write fails for the rows in `failing`.
   */
  method SyncRow(db: Database, rows: Accounts, failing: set<string>, users: seq<string>, i: nat)
    returns (wrote: bool)
    requires db.Valid() && Distinct(users) && i < |users|
    requires users[i] in rows && rows[users[i]].telegramId.Some?
    requires db.accounts == AfterSync(rows, failing + Rest(users, i))
    modifies db
    ensures db.Valid()
    ensures db.accounts == AfterSync(rows, failing + Rest(users, i + 1))
    ensures |SyncTargets(rows, failing + Rest(users, i + 1))|
      == |SyncTargets(rows, failing + Rest(users, i))| + (if wrote then 1 else 0)
    ensures db.requests == old(db.requests) && db.history == old(db.history)
  {
    var u := users[i];
    var row := rows[u];
    ghost var before, after := failing + Rest(users, i), failing + Rest(users, i + 1);
    SyncStep(rows, failing, users, i);
    wrote := false;
    if NeedsSync(row.notes, row.telegramId.value) {
      ghost var prev := db.accounts;
      assert u in prev && prev[u] == row;
      var notes := SyncedNotes(row.notes, row.telegramId.value, row.telegramUsername);
      var ok := db.UpdateUserNotes(u, notes, u in failing);
      if ok {
        assert u !in failing;
        assert db.accounts == prev[u := row.(notes := Some(notes))];
        assert SyncedRow(row) == row.(notes := Some(notes));
        wrote := true;
      } else {
        assert u in failing;
        assert db.accounts == prev;
      }
    }
  }

  /**
   * `sync_telegram_notes_command`: every row with a chat id is read once;
   * a row whose notes lack its marker gets the marker appended, and the
   * count is of the writes that succeeded.
   */
  method SyncTelegramNotesCommand(db: Database, cfg: Config.Settings, admin: int, failing: set<string>)
    returns (reply: Reply)
    requires db.Valid()
    modifies db
    ensures db.Valid()
    ensures !Config.IsAdmin(cfg, admin) ==> reply == NoAdminRights && db.accounts == old(db.accounts)
    ensures Config.IsAdmin(cfg, admin) ==> (
      && db.accounts == AfterSync(old(db.accounts), failing)
      && reply == NotesSynced(|SyncTargets(old(db.accounts), failing)|, |LinkedUsers(old(db.accounts))|))
    ensures reply.NotesSynced? ==> reply.updated <= reply.total
    ensures db.requests == old(db.requests) && db.history == old(db.history)
  {
    if !Config.IsAdmin(cfg, admin) {
      return NoAdminRights;
    }
    var rows := db.accounts;
    var users := Enumerate(LinkedUsers(rows));
    SyncStart(rows, failing, users);
    var updated := 0;
    var i := 0;
    while i < |users|
      invariant 0 <= i <= |users|
      invariant db.Valid()
      invariant db.accounts == AfterSync(rows, failing + Rest(users, i))
      invariant updated == |SyncTargets(rows, failing + Rest(users, i))|
      invariant db.requests == old(db.requests) && db.history == old(db.history)
    {
      assert users[i] in users;
      var wrote := SyncRow(db, rows, failing, users, i);
      updated := updated + if wrote then 1 else 0;
      i := i + 1;
    }
    assert Rest(users, i) == {};
    assert failing + Rest(users, i) == failing;
    SubsetSmaller(SyncTargets(rows, failing), LinkedUsers(rows));
    reply := NotesSynced(updated, |users|);
  }

  /** Before the loop every linked username is still pending, so nothing has been written. */
  lemma SyncStart(rows: Accounts, failing: set<string>, users: seq<string>)
    requires forall u :: u in users <==> u in LinkedUsers(rows)
    ensures SyncTargets(rows, failing + Rest(users, 0)) == {}
    ensures AfterSync(rows, failing + Rest(users, 0)) == rows
  {
    forall u | u in LinkedUsers(rows)
      ensures u in Rest(users, 0)
    {
      var j :| 0 <= j < |users| && users[j] == u;
    }
    assert SyncTargets(rows, failing + Rest(users, 0)) == {};
  }

  lemma SubsetSmaller(a: set<string>, b: set<string>)
    requires a <= b
    ensures |a| <= |b|
  {
    assert b == a + (b - a);
  }

  // ---------------------------------------------------------------------
  // /sync_marzban: the panel notes
  // ---------------------------------------------------------------------

  /** `WHERE telegram_id IS NOT NULL AND is_verified = TRUE`. */
  function VerifiedLinked(accounts: Accounts): set<string> {
    set u | u in accounts && accounts[u].telegramId.Some? && accounts[u].verified
  }

  /** The panel user differs at most in its note. */
  predicate NoteOnly(before: Panel.PanelUser, after: Panel.PanelUser) {
    after == before.(note := after.note)
  }

  /** The panel user once the sync has merged the row's chat identity into its note. */
  function MergedSync(user: Panel.PanelUser, row: Account): (r: Panel.PanelUser)
    requires row.telegramId.Some?
    ensures NoteOnly(user, r) && r.note.Some?
  {
    user.(note := Some(Panel.MergeNote(user.note, Panel.SyncNote(row.telegramId.value, row.telegramUsername))))
  }

  /**
   * The panel after the rows in `done` were attempted, `failed` being the
   * attempts that failed: the same users; each row whose attempt succeeded
   * is on the panel and carries the merged note; every other user is as it
   * was.
   */
  predicate SyncedSoFar(before: map<string, Panel.PanelUser>, after: map<string, Panel.PanelUser>,
                        accounts: Accounts, done: set<string>, failed: set<string>)
  {
    && after.Keys == before.Keys
    && failed <= done
    && (forall u :: u in done && u !in failed ==> u in before && u in accounts && accounts[u].telegramId.Some?)
    && (forall u :: u in before ==>
          after[u] == if u in done && u !in failed then MergedSync(before[u], accounts[u]) else before[u])
  }

  /** One more attempt on a fresh row `u` keeps `SyncedSoFar`; a failed attempt joins `failed`. */
  lemma SyncedSoFarStep(before: map<string, Panel.PanelUser>, mid: map<string, Panel.PanelUser>,
                        after: map<string, Panel.PanelUser>, accounts: Accounts,
                        done: set<string>, failed: set<string>, u: string, ok: bool)
    requires SyncedSoFar(before, mid, accounts, done, failed)
    requires u !in done && u in accounts && accounts[u].telegramId.Some?
    requires ok ==> u in mid && after == mid[u := MergedSync(mid[u], accounts[u])]
    requires !ok ==> after == mid
    ensures SyncedSoFar(before, after, accounts, done + {u}, if ok then failed else failed + {u})
  {
    if ok {
      SyncedSoFarMerged(before, mid, after, accounts, done, failed, u);
    } else {
      SyncedSoFarFailed(before, mid, accounts, done, failed, u);
    }
  }

  lemma SyncedSoFarMerged(before: map<string, Panel.PanelUser>, mid: map<string, Panel.PanelUser>,
                          after: map<string, Panel.PanelUser>, accounts: Accounts,
                          done: set<string>, failed: set<string>, u: string)
    requires SyncedSoFar(before, mid, accounts, done, failed)
    requires u !in done && u in accounts && accounts[u].telegramId.Some?
    requires u in mid && after == mid[u := MergedSync(mid[u], accounts[u])]
    ensures SyncedSoFar(before, after, accounts, done + {u}, failed)
  {
    assert mid[u] == before[u];
    forall v | v in before
      ensures after[v] == if v in done + {u} && v !in failed then MergedSync(before[v], accounts[v]) else before[v]
    {
      if v != u {
        assert after[v] == mid[v];
      }
    }
  }

  lemma SyncedSoFarFailed(before: map<string, Panel.PanelUser>, mid: map<string, Panel.PanelUser>,
                          accounts: Accounts, done: set<string>, failed: set<string>, u: string)
    requires SyncedSoFar(before, mid, accounts, done, failed)
    requires u !in done
    ensures SyncedSoFar(before, mid, accounts, done + {u}, failed + {u})
  {
    forall v | v in before
      ensures mid[v] == if v in done + {u} && v !in failed + {u} then MergedSync(before[v], accounts[v]) else before[v]
    {
      if v == u {
        assert mid[v] == before[v];
      }
    }
  }

  /**
   * An attempt to sync `u` fails exactly when the login it needed was
   * refused, the read failed, the panel has no such user or the write
   * failed.
   */
  predicate SyncFails(remote: map<string, Panel.PanelUser>, u: string, net: Panel.Net, refused: bool) {
    refused || !net.readOk || u !in remote || !net.writeOk
  }

  /**
   * Why the attempts in `done` failed: `failed` are exactly those for
   * which `SyncFails` holds, and `refused`, among them, are the attempts
   * made while the login failed.
   */
  predicate FailedFor(remote: map<string, Panel.PanelUser>, netOf: string -> Panel.Net,
                      done: set<string>, failed: set<string>, refused: set<string>)
  {
    && refused <= failed
    && (forall u :: u in refused ==> !netOf(u).authOk)
    && (forall u :: u in done ==> (u in failed <==> SyncFails(remote, u, netOf(u), u in refused)))
  }

  /** One more attempt on a fresh row keeps `FailedFor`. */
  lemma FailedForStep(remote: map<string, Panel.PanelUser>, netOf: string -> Panel.Net,
                      done: set<string>, failed: set<string>, refused: set<string>,
                      u: string, authorised: bool, ok: bool)
    requires FailedFor(remote, netOf, done, failed, refused) && failed <= done && u !in done
    requires ok <==> authorised && netOf(u).readOk && u in remote && netOf(u).writeOk
    requires !authorised ==> !netOf(u).authOk
    ensures FailedFor(remote, netOf, done + {u}, if ok then failed else failed + {u},
                      if authorised then refused else refused + {u})
  {
  }

  /**
   * `sync_to_marzban_command`: each verified, linked account's chat
   * identity is merged into its panel note. The ghost `failed` names the
   * attempts counted as errors: exactly those whose login was refused,
   * whose read or write failed, or whose user the panel lacks. Each of
   * them left its user as it was, and every other verified linked account
   * is on the panel with the merged note. The ghost `refused` names the
   * attempts made while the login failed; there are none when the token
   * was valid to begin with. Nothing but those notes changes on the panel.
   */
  method SyncToMarzbanCommand(db: Database, panel: Panel.PanelClient, cfg: Config.Settings, admin: int,
                              netOf: string -> Panel.Net, now: int)
    returns (reply: Reply, ghost failed: set<string>, ghost refused: set<string>)
    modifies panel
    ensures !Config.IsAdmin(cfg, admin) ==>
      reply == NoAdminRights && panel.remote == old(panel.remote) && failed == {} && refused == {}
    ensures Config.IsAdmin(cfg, admin) ==> (
      && reply.PanelSynced?
      && reply.success + reply.errors == reply.total
      && reply.total == |VerifiedLinked(db.accounts)|
      && reply.errors == |failed|
      && reply.success == |VerifiedLinked(db.accounts) - failed|
      && failed == (set u | u in VerifiedLinked(db.accounts) && SyncFails(old(panel.remote), u, netOf(u), u in refused)))
    ensures forall u :: u in refused ==> u in failed && !netOf(u).authOk
    ensures !Panel.NeedsAuth(old(panel.token), old(panel.tokenExpires), now) ==> refused == {}
    ensures panel.remote.Keys == old(panel.remote).Keys
    ensures Config.IsAdmin(cfg, admin) ==>
      forall u :: u in VerifiedLinked(db.accounts) && u !in failed ==>
        u in old(panel.remote) && panel.remote[u] == MergedSync(old(panel.remote)[u], db.accounts[u])
    ensures forall u :: u in old(panel.remote) && (u !in VerifiedLinked(db.accounts) || u in failed) ==>
      panel.remote[u] == old(panel.remote)[u]
    ensures forall u :: u in old(panel.remote) ==> NoteOnly(old(panel.remote)[u], panel.remote[u])
  {
    failed, refused := {}, {};
    if !Config.IsAdmin(cfg, admin) {
      return NoAdminRights, failed, refused;
    }
    var users := Enumerate(VerifiedLinked(db.accounts));
    var success, errors;
    success, errors, failed, refused := SyncRows(db, panel, users, netOf, now);
    SyncedSoFarEnd(old(panel.remote), panel.remote, db.accounts, (set u | u in users), failed);
    FailedForEnd(old(panel.remote), netOf, (set u | u in users), failed, refused);
    reply := PanelSynced(success, errors, |users|);
  }

  /** What `FailedFor` says once every row was attempted. */
  lemma FailedForEnd(remote: map<string, Panel.PanelUser>, netOf: string -> Panel.Net,
                     done: set<string>, failed: set<string>, refused: set<string>)
    requires FailedFor(remote, netOf, done, failed, refused) && failed <= done
    ensures failed == (set u | u in done && SyncFails(remote, u, netOf(u), u in refused))
  {
  }

  /** What `SyncedSoFar` says of each user, spelt out. */
  lemma SyncedSoFarEnd(before: map<string, Panel.PanelUser>, after: map<string, Panel.PanelUser>,
                       accounts: Accounts, done: set<string>, failed: set<string>)
    requires SyncedSoFar(before, after, accounts, done, failed)
    ensures forall u :: u in done && u !in failed ==>
      u in before && u in accounts && accounts[u].telegramId.Some? && after[u] == MergedSync(before[u], accounts[u])
    ensures forall u :: u in before && (u !in done || u in failed) ==> after[u] == before[u]
    ensures forall u :: u in before ==> NoteOnly(before[u], after[u])
  {
  }

  /** The loop of `sync_to_marzban_command` over the selected rows. */
  method SyncRows(db: Database, panel: Panel.PanelClient, users: seq<string>, netOf: string -> Panel.Net, now: int)
    returns (success: nat, errors: nat, ghost failed: set<string>, ghost refused: set<string>)
    requires Distinct(users)
    requires forall u :: u in users ==> u in db.accounts && db.accounts[u].telegramId.Some?
    modifies panel
    ensures success + errors == |users|
    ensures errors == |failed|
    ensures SyncedSoFar(old(panel.remote), panel.remote, db.accounts, (set u | u in users), failed)
    ensures FailedFor(old(panel.remote), netOf, (set u | u in users), failed, refused)
    ensures !Panel.NeedsAuth(old(panel.token), old(panel.tokenExpires), now) ==> refused == {}
  {
    success, errors, failed, refused := 0, 0, {}, {};
    ghost var done: set<string> := {};
    ghost var start := panel.remote;
    var i := 0;
    while i < |users|
      invariant success + errors == i
      invariant Attempted(users, i, done)
      invariant errors == |failed|
      invariant start == old(panel.remote)
      invariant SyncedSoFar(start, panel.remote, db.accounts, done, failed)
      invariant FailedFor(start, netOf, done, failed, refused)
      invariant !Panel.NeedsAuth(old(panel.token), old(panel.tokenExpires), now) ==>
        refused == {} && panel.token == old(panel.token) && panel.tokenExpires == old(panel.tokenExpires)
    {
      var u := users[i];
      AttemptedStep(users, i, done);
      assert u in users;
      var ok;
      ok, refused := SyncRowStep(db, panel, u, netOf, now, start, done, failed, refused);
      if ok {
        success := success + 1;
      } else {
        errors := errors + 1;
        failed := failed + {u};
      }
      done := done + {u};
      i := i + 1;
    }
    AttemptedAll(users, done);
  }

  /** The rows before `i` are exactly the ones in `done`. */
  predicate Attempted(users: seq<string>, i: int, done: set<string>) {
    && 0 <= i <= |users|
    && (forall v :: v in done ==> v in users)
    && (forall k :: 0 <= k < i ==> users[k] in done)
    && (forall k :: i <= k < |users| ==> users[k] !in done)
  }

  lemma AttemptedStep(users: seq<string>, i: int, done: set<string>)
    requires Distinct(users) && Attempted(users, i, done) && i < |users|
    ensures users[i] !in done && Attempted(users, i + 1, done + {users[i]})
  {
  }

  lemma AttemptedAll(users: seq<string>, done: set<string>)
    requires Attempted(users, |users|, done)
    ensures done == set u | u in users
  {
    forall u | u in users
      ensures u in done
    {
      var k :| 0 <= k < |users| && users[k] == u;
    }
  }

  /**
   * One row of `SyncRows`: the attempt on a fresh row keeps `SyncedSoFar`
   * and `FailedFor`, the row joining `refused` when its login failed.
   */
  method SyncRowStep(db: Database, panel: Panel.PanelClient, u: string, netOf: string -> Panel.Net, now: int,
                     ghost start: map<string, Panel.PanelUser>, ghost done: set<string>, ghost failed: set<string>,
                     ghost refused: set<string>)
    returns (ok: bool, ghost refused': set<string>)
    requires u !in done && u in db.accounts && db.accounts[u].telegramId.Some?
    requires SyncedSoFar(start, panel.remote, db.accounts, done, failed)
    requires FailedFor(start, netOf, done, failed, refused)
    modifies panel
    ensures SyncedSoFar(start, panel.remote, db.accounts, done + {u}, if ok then failed else failed + {u})
    ensures FailedFor(start, netOf, done + {u}, if ok then failed else failed + {u}, refused')
    ensures !Panel.NeedsAuth(old(panel.token), old(panel.tokenExpires), now) ==>
      refused' == refused && panel.token == old(panel.token) && panel.tokenExpires == old(panel.tokenExpires)
  {
    var row := db.accounts[u];
    ghost var mid := panel.remote;
    ghost var authorised := panel.CanCall(netOf(u), now);
    ok := SyncOneToPanel(panel, u, row.telegramId.value, row.telegramUsername, netOf(u), now);
    SyncedSoFarStep(start, mid, panel.remote, db.accounts, done, failed, u, ok);
    assert u in mid <==> u in start;
    FailedForStep(start, netOf, done, failed, refused, u, authorised, ok);
    refused' := if authorised then refused else refused + {u};
  }

  /**
   * One account of the panel sync: it succeeds exactly when the client is
   * authorised, the user is found and the write is accepted, and then
   * that user's note is replaced by its merge with the sync note; a
   * failed attempt changes nothing on the panel.
   */
  method SyncOneToPanel(panel: Panel.PanelClient, username: string, tid: int, telegramUsername: Option<string>,
                        net: Panel.Net, now: int)
    returns (ok: bool)
    modifies panel
    ensures ok <==> old(panel.CanCall(net, now)) && net.readOk && username in old(panel.remote) && net.writeOk
    ensures ok ==> panel.remote == old(panel.remote)[username :=
      old(panel.remote)[username].(note := Some(Panel.MergeNote(old(panel.remote)[username].note, Panel.SyncNote(tid, telegramUsername))))]
    ensures !ok ==> panel.remote == old(panel.remote)
    ensures !Panel.NeedsAuth(old(panel.token), old(panel.tokenExpires), now) ==>
      panel.token == old(panel.token) && panel.tokenExpires == old(panel.tokenExpires)
  {
    ok := panel.SyncTelegramIdToNotes(username, tid, telegramUsername, net, now);
  }

  // ---------------------------------------------------------------------
  // /cleanup
  // ---------------------------------------------------------------------

  /**
   * `cleanup_accounts_command` as written: it calls `get_all_users` on the
   * repository, which has no such method, so for an administrator it
   * raises before any account is looked at.
   */
  method CleanupAccountsCommandAsWritten(db: Database, cfg: Config.Settings, admin: int) returns (reply: Reply)
    ensures !Config.IsAdmin(cfg, admin) ==> reply == NoAdminRights
    ensures Config.IsAdmin(cfg, admin) ==> reply == Raised
  {
    if !Config.IsAdmin(cfg, admin) {
      return NoAdminRights;
    }
    reply := Raised;
  }

  /** The usernames a cleanup reply names. */
  function RemovedSet(reply: Reply): set<string> {
    if reply.AccountsRemoved? then set u | u in reply.usernames else {}
  }

  /**
   * The lookup of `username` returned nothing: the login it needed failed
   * (`refused`), the read failed, or the panel has no such user.
   */
  predicate LookupMisses(remote: map<string, Panel.PanelUser>, username: string, net: Panel.Net, refused: bool) {
    refused || !net.readOk || username !in remote
  }

  /**
   * `cleanup_accounts_command` with the repository's account list: every
   * named account whose panel lookup returns nothing is deleted locally,
   * and no other. The ghost `refused` names the lookups made without a
   * usable token because the login failed; there are none when the token
   * was valid to begin with. Since a failed request also returns nothing,
   * an unreachable panel empties the local table.
   */
  method CleanupAccountsCommand(db: Database, panel: Panel.PanelClient, cfg: Config.Settings, admin: int,
                                netOf: string -> Panel.Net, now: int)
    returns (reply: Reply, ghost refused: set<string>)
    requires db.Valid()
    modifies db, panel
    ensures db.Valid()
    ensures !Config.IsAdmin(cfg, admin) ==> reply == NoAdminRights && db.accounts == old(db.accounts)
    ensures Config.IsAdmin(cfg, admin) ==> reply.AccountsRemoved? || reply == NothingRemoved
    ensures reply.AccountsRemoved? ==> |reply.usernames| > 0
    ensures db.accounts == old(db.accounts) - RemovedSet(reply)
    ensures Config.IsAdmin(cfg, admin) ==>
      RemovedSet(reply) == (set u | u in old(db.accounts) && u != "" && LookupMisses(panel.remote, u, netOf(u), u in refused))
    ensures forall u :: u in refused ==> u in old(db.accounts) && u != "" && !netOf(u).authOk
    ensures !Panel.NeedsAuth(old(panel.token), old(panel.tokenExpires), now) ==> refused == {}
    ensures panel.remote == old(panel.remote)
    ensures db.requests == old(db.requests) && db.history == old(db.history)
  {
    refused := {};
    if !Config.IsAdmin(cfg, admin) {
      return NoAdminRights, refused;
    }
    var users := db.GetAllUsers();
    ghost var start := db.accounts;
    ghost var gone: set<string> := {};
    var removed: seq<string> := [];
    var i := 0;
    while i < |users|
      invariant 0 <= i <= |users|
      invariant db.Valid()
      invariant panel.remote == old(panel.remote)
      invariant db.requests == old(db.requests) && db.history == old(db.history)
      invariant gone == set u | u in removed
      invariant CleanedSoFar(start, db.accounts, panel.remote, netOf, gone, refused)
      invariant !Panel.NeedsAuth(old(panel.token), old(panel.tokenExpires), now) ==>
        refused == {} && panel.token == old(panel.token) && panel.tokenExpires == old(panel.tokenExpires)
      invariant forall k :: 0 <= k < i && users[k] != "" && (users[k] !in panel.remote || !netOf(users[k]).readOk) ==>
        users[k] in gone
    {
      var u := users[i];
      assert u in users;
      var deleted;
      deleted, gone, refused := CleanupRow(db, panel, u, netOf, now, start, gone, refused);
      if deleted {
        removed := removed + [u];
      }
      i := i + 1;
    }
    if |removed| > 0 {
      reply := AccountsRemoved(removed);
    } else {
      reply := NothingRemoved;
    }
    assert RemovedSet(reply) == gone;
  }

  /**
   * The cleanup loop's state: `gone` were deleted from `start`, each a
   * named account whose lookup missed; `refused` are among them, each a
   * lookup whose login failed.
   */
  predicate CleanedSoFar(start: Accounts, accounts: Accounts, remote: map<string, Panel.PanelUser>,
                         netOf: string -> Panel.Net, gone: set<string>, refused: set<string>)
  {
    && accounts == start - gone
    && refused <= gone
    && (forall u :: u in refused ==> u in start && u != "" && !netOf(u).authOk)
    && (forall u :: u in gone ==> u in start && u != "" && LookupMisses(remote, u, netOf(u), u in refused))
  }

  /** One account of `CleanupAccountsCommand`'s loop, with its ghost bookkeeping. */
  method CleanupRow(db: Database, panel: Panel.PanelClient, u: string, netOf: string -> Panel.Net, now: int,
                    ghost start: Accounts, ghost gone: set<string>, ghost refused: set<string>)
    returns (deleted: bool, ghost gone': set<string>, ghost refused': set<string>)
    requires db.Valid()
    requires u in start && CleanedSoFar(start, db.accounts, panel.remote, netOf, gone, refused)
    modifies db, panel
    ensures db.Valid()
    ensures CleanedSoFar(start, db.accounts, panel.remote, netOf, gone', refused')
    ensures gone' == if deleted then gone + {u} else gone
    ensures u != "" && (u !in panel.remote || !netOf(u).readOk) ==> deleted
    ensures !Panel.NeedsAuth(old(panel.token), old(panel.tokenExpires), now) ==>
      refused' == refused && panel.token == old(panel.token) && panel.tokenExpires == old(panel.tokenExpires)
    ensures panel.remote == old(panel.remote)
    ensures db.requests == old(db.requests) && db.history == old(db.history)
  {
    ghost var authorised := panel.CanCall(netOf(u), now);
    deleted := CleanupOne(db, panel, u, netOf(u), now);
    gone' := if deleted then gone + {u} else gone;
    refused' := if u != "" && !authorised then refused + {u} else refused;
  }

  /**
   * One account of the cleanup loop: an empty username is skipped;
   * otherwise the row is deleted exactly when the panel lookup returns
   * nothing, which a failed login, a failed read and an unknown user all
   * cause.
   */
  method CleanupOne(db: Database, panel: Panel.PanelClient, username: string, net: Panel.Net, now: int)
    returns (deleted: bool)
    requires db.Valid()
    modifies db, panel
    ensures db.Valid()
    ensures deleted <==> username != "" && LookupMisses(panel.remote, username, net, !old(panel.CanCall(net, now)))
    ensures db.accounts == if deleted then old(db.accounts) - {username} else old(db.accounts)
    ensures panel.remote == old(panel.remote)
    ensures !Panel.NeedsAuth(old(panel.token), old(panel.tokenExpires), now) ==>
      panel.token == old(panel.token) && panel.tokenExpires == old(panel.tokenExpires)
    ensures db.requests == old(db.requests) && db.history == old(db.history)
  {
    deleted := false;
    if username != "" {
      var found := panel.GetUser(username, net, now);
      if found.None? {
        var ok := db.DeleteUserByUsername(username);
        deleted := true;
      }
    }
  }
}
