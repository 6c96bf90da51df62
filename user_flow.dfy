/**
 * The user-facing commands around accounts: `/start` with or without an
 * invitation, linking an existing panel account through an invite code,
 * choosing the account `/status` reports on, and selecting an active
 * account among the chat's accounts.
 */
module UserFlow {
  import opened Wrappers
  import opened PyStr
  import opened Repository
  import opened BaseHandler
  import Helpers
  import Panel
  import PaymentHandlers

  const InvitePrefix := "link_"
  const ActivePrefix := "set_active_account_"

  // ---------------------------------------------------------------------
  // Invitation codes
  // ---------------------------------------------------------------------

  /** What `_handle_invitation_link` makes of a code. */
  datatype Invite = BadPrefix | BadFormat | InviteFor(username: string)

  /**
   * The code must start with `link_` and split on `_` into at least three
   * parts; the username is every part between the first and the last,
   * joined again with `_`.
   */
  function ParseInvite(code: string): (r: Invite)
    ensures r.BadPrefix? <==> !StartsWith(code, InvitePrefix)
    ensures r.BadFormat? <==> StartsWith(code, InvitePrefix) && |Split(code, '_')| < 3
    ensures r.InviteFor? ==> var parts := Split(code, '_'); r.username == Join("_", parts[1..|parts| - 1])
  {
    if !StartsWith(code, InvitePrefix) then BadPrefix
    else
      var parts := Split(code, '_');
      if |parts| < 3 then BadFormat
      else InviteFor(Join("_", parts[1..|parts| - 1]))
  }

  /**
   * An invite `link_{u}_{tag}` gives back `u` for every username, with or
   * without underscores, whenever the tag has no underscore.
   */
  lemma InviteRoundTrip(u: string, tag: string)
    requires '_' !in tag
    ensures ParseInvite(InvitePrefix + u + "_" + tag) == InviteFor(u)
  {
    var code := InvitePrefix + u + "_" + tag;
    assert code == "link" + ['_'] + (u + ['_'] + tag);
    SplitConcat("link", u + ['_'] + tag, '_');
    SplitConcat(u, tag, '_');
    SplitAbsent("link", '_');
    SplitAbsent(tag, '_');
    var parts := Split(code, '_');
    assert parts == ["link"] + Split(u, '_') + [tag];
    assert parts[1..|parts| - 1] == Split(u, '_');
    JoinSplit(u, '_');
    assert code[..|InvitePrefix|] == InvitePrefix;
  }

  /** The codes `generate_invite_code` makes from a hexadecimal digest parse back to their username. */
  lemma GeneratedInviteParses(u: string, hexDigest: string)
    requires forall i :: 0 <= i < |hexDigest| ==> Helpers.IsHexDigit(hexDigest[i])
    ensures ParseInvite(Helpers.GenerateInviteCode(u, hexDigest)) == InviteFor(u)
  {
    var code := Helpers.GenerateInviteCode(u, hexDigest);
    var tag := code[|u| + 6..];
    assert code == InvitePrefix + u + "_" + tag;
    InviteRoundTrip(u, tag);
  }

  /**
   * The panel after a link's sync of the chat identity into `username`'s
   * note: merged when the client is authorised, the user is found and the
   * write is accepted, otherwise as it was.
   */
  function AfterLinkSync(remote: map<string, Panel.PanelUser>, username: string, uid: int,
                         telegramUsername: Option<string>, authorised: bool, net: Panel.Net)
    : (r: map<string, Panel.PanelUser>)
    ensures r.Keys == remote.Keys
    ensures forall u :: u in remote && u != username ==> r[u] == remote[u]
  {
    if authorised && net.readOk && username in remote && net.writeOk then
      remote[username := remote[username].(note := Some(Panel.MergeNote(remote[username].note, Panel.SyncNote(uid, telegramUsername))))]
    else
      remote
  }

  /** What the chat is told about an invitation. */
  datatype LinkReply = InvalidCode | InvalidFormat | Linked(username: string) | LinkFailed(username: string)

  /**
   * `_handle_invitation_link`: a parsed code links that account to the
   * chat when the repository accepts it; only then is the identity synced
   * into the panel note, whose failure is only logged.
   */
  method HandleInvitationLink(db: Database, panel: Panel.PanelClient, uid: int, telegramUsername: Option<string>,
                              code: string, now: int, net: Panel.Net, dbFault: bool)
    returns (reply: LinkReply)
    requires db.Valid()
    modifies db, panel
    ensures db.Valid()
    ensures reply == InvalidCode <==> ParseInvite(code).BadPrefix?
    ensures ParseInvite(code).BadFormat? <==> reply == InvalidFormat
    ensures reply.Linked? <==> (
      && ParseInvite(code).InviteFor? && !dbFault
      && Link(old(db.accounts), ParseInvite(code).username, uid, telegramUsername, None).1)
    ensures reply.Linked? ==>
      && reply.username == ParseInvite(code).username
      && db.accounts == Link(old(db.accounts), reply.username, uid, telegramUsername, None).0
      && panel.remote == AfterLinkSync(old(panel.remote), reply.username, uid, telegramUsername,
                                       old(panel.CanCall(net, now)), net)
    ensures !reply.Linked? ==> db.accounts == old(db.accounts) && panel.remote == old(panel.remote)
    ensures db.requests == old(db.requests) && db.history == old(db.history)
  {
    var parsed := ParseInvite(code);
    if parsed.BadPrefix? {
      return InvalidCode;
    }
    if parsed.BadFormat? {
      return InvalidFormat;
    }
    var username := parsed.username;
    var linked := db.LinkTelegramAccount(username, uid, telegramUsername, None, dbFault);
    if !linked {
      return LinkFailed(username);
    }
    var synced := panel.SyncTelegramIdToNotes(username, uid, telegramUsername, net, now);
    reply := Linked(username);
  }

  // ---------------------------------------------------------------------
  // /start
  // ---------------------------------------------------------------------

  datatype StartReply = Invitation(link: LinkReply) | Welcome(username: string) | RegistrationOptions

  /**
   * `start_command`: a first argument starting with `link_` goes to the
   * invitation and nothing else; otherwise a verified chat is welcomed and
   * any other chat is offered registration.
   */
  method StartCommand(db: Database, panel: Panel.PanelClient, uid: int, telegramUsername: Option<string>,
                      args: seq<string>, now: int, net: Panel.Net, dbFault: bool)
    returns (reply: StartReply)
    requires db.Valid()
    modifies db, panel
    ensures db.Valid()
    ensures reply.Invitation? <==> |args| > 0 && StartsWith(args[0], InvitePrefix)
    ensures reply.Invitation? ==> reply.link != InvalidCode
    ensures reply.Invitation? ==> (ParseInvite(args[0]).BadFormat? <==> reply.link == InvalidFormat)
    ensures reply.Invitation? ==> (reply.link.Linked? <==> (
      && ParseInvite(args[0]).InviteFor? && !dbFault
      && Link(old(db.accounts), ParseInvite(args[0]).username, uid, telegramUsername, None).1))
    ensures reply.Invitation? && reply.link.Linked? ==>
      && reply.link.username == ParseInvite(args[0]).username
      && db.accounts == Link(old(db.accounts), reply.link.username, uid, telegramUsername, None).0
      && panel.remote == AfterLinkSync(old(panel.remote), reply.link.username, uid, telegramUsername,
                                       old(panel.CanCall(net, now)), net)
    ensures !(reply.Invitation? && reply.link.Linked?) ==>
      db.accounts == old(db.accounts) && panel.remote == old(panel.remote)
    ensures reply.Welcome? <==> !(|args| > 0 && StartsWith(args[0], InvitePrefix)) && GetVerifiedUser(db, uid).Some?
    ensures reply.Welcome? ==> GetVerifiedUser(db, uid).Some? && GetVerifiedUser(db, uid).value.0 == reply.username
  {
    if |args| > 0 && StartsWith(args[0], InvitePrefix) {
      var link := HandleInvitationLink(db, panel, uid, telegramUsername, args[0], now, net, dbFault);
      return Invitation(link);
    }
    var user := GetVerifiedUser(db, uid);
    if user.Some? {
      reply := Welcome(user.value.0);
    } else {
      reply := RegistrationOptions;
    }
  }

  // ---------------------------------------------------------------------
  // /status and the active account
  // ---------------------------------------------------------------------

  /**
   * The account `status_command` reports on: with an `active_account` in
   * the state, that account if it is one of the chat's own; otherwise the
   * verified account; never an empty username.
   */
  function StatusAccount(db: Database, st: ChatState, uid: int): (r: Option<string>)
    reads db
    requires db.Valid()
    ensures r.Some? ==> r.value != "" && r.value in db.accounts && db.accounts[r.value].telegramId == Some(uid)
    ensures Truthy(TextField(st, "active_account")) ==>
      (r.Some? <==> TextField(st, "active_account").value in LinkedTo(db.accounts, uid))
    ensures Truthy(TextField(st, "active_account")) && r.Some? ==> r.value == TextField(st, "active_account").value
    ensures !Truthy(TextField(st, "active_account")) ==>
      (r.Some? <==> GetVerifiedUser(db, uid).Some? && GetVerifiedUser(db, uid).value.0 != "")
  {
    var active := TextField(st, "active_account");
    var user :=
      if Truthy(active) then
        (if active.value in UsersByTelegramId(db.accounts, uid) then Some(active.value) else None)
      else
        (match GetVerifiedUser(db, uid) case None => None case Some(row) => Some(row.0));
    if user.Some? && user.value != "" then user else None
  }

  /** The state `set_active_account_callback` leaves: nothing but the chosen account. */
  function ActiveState(username: string): (st: ChatState)
    ensures TextField(st, "active_account") == Some(username)
    ensures !PaymentHandlers.AwaitsReceipt(st)
  {
    map["active_account" := Str(username)]
  }

  /**
   * `set_active_account_callback`: data without the prefix is ignored;
   * otherwise every occurrence of the prefix is removed and the whole
   * state is replaced by the chosen account, so a claim waiting for its
   * receipt is forgotten.
   */
  method SetActiveAccount(states: UserStates, uid: int, data: string)
    modifies states
    ensures !StartsWith(data, ActivePrefix) ==> states.states == old(states.states)
    ensures StartsWith(data, ActivePrefix) ==>
      states.states == old(states.states)[uid := ActiveState(Replace(data, ActivePrefix, ""))]
    ensures StartsWith(data, ActivePrefix) ==> !PaymentHandlers.AwaitsReceipt(states.Get(uid))
  {
    if !StartsWith(data, ActivePrefix) {
      return;
    }
    var username := Replace(data, ActivePrefix, "");
    states.Set(uid, ActiveState(username));
  }

  /**
   * Selecting one of the chat's own accounts (a username free of the
   * prefix text) makes `/status` report on exactly that account.
   */
  lemma SelectedAccountIsReported(db: Database, uid: int, username: string)
    requires db.Valid()
    requires username != "" && !Contains(username, ActivePrefix)
    requires username in db.accounts && db.accounts[username].telegramId == Some(uid)
    ensures StatusAccount(db, ActiveState(Replace(ActivePrefix + username, ActivePrefix, "")), uid) == Some(username)
  {
    ReplaceLeading(ActivePrefix, username);
    ReplaceAbsent(username, ActivePrefix, "");
    assert username in LinkedTo(db.accounts, uid);
  }
}
