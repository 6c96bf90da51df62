/**
 * Self-registration: the user presses "create account", types a username,
 * and the bot validates it, checks the panel for a clash, creates the
 * panel user with a trial period, records the account locally, writes the
 * chat's identity into the panel note and tells the administrators.
 *
 * Each panel call gets its own `Net` answer; `dbFault` is a storage error
 * of the local write and `failing` the admins whose notice cannot be sent.
 */
module Registration {
  import opened Wrappers
  import opened PyStr
  import opened Repository
  import opened BaseHandler
  import Panel
  import Config

  const WaitingUsername := "waiting_username"
  const RegistrationStep := "registration"

  /** What the chat is told in answer to the username it typed. */
  datatype Reply =
    | Silent
    | InvalidUsername
    | UsernameTaken(username: string)
    | CreationFailed(reason: string)
    | Registered(username: string, trialDays: nat)

  /** The state `start_registration_callback` puts the chat in. */
  function RegistrationState(): (st: ChatState)
    ensures TextField(st, "state") == Some(WaitingUsername) && TextField(st, "step") == Some(RegistrationStep)
  {
    map["state" := Str(WaitingUsername), "step" := Str(RegistrationStep)]
  }

  /** `start_registration_callback`: the chat's whole state becomes the registration state. */
  method StartRegistration(states: UserStates, uid: int)
    modifies states
    ensures states.states == old(states.states)[uid := RegistrationState()]
    ensures AwaitsUsername(states.Get(uid))
  {
    states.Set(uid, RegistrationState());
  }

  /** The chat is in the middle of a registration and its next text is the username. */
  predicate AwaitsUsername(st: ChatState) {
    st != map[] && TextField(st, "state") == Some(WaitingUsername) && TextField(st, "step") == Some(RegistrationStep)
  }

  /** `_validate_username` with the shipped settings: length within 4..32 inclusive and the pattern matches. */
  predicate ValidateUsername(username: string) {
    Config.UsernameMinLength <= |username| <= Config.UsernameMaxLength && Config.MatchesUsernamePattern(username)
  }

  /**
   * The typed text is stripped before validation, so an accepted username
   * is exactly 4 to 32 letters, digits and underscores, with no trailing
   * newline left over from the pattern's `$`.
   */
  lemma AcceptedUsernameShape(text: string)
    ensures ValidateUsername(Strip(text)) <==>
      Config.UsernameMinLength <= |Strip(text)| <= Config.UsernameMaxLength
      && forall i :: 0 <= i < |Strip(text)| ==> Config.UsernameChar(Strip(text)[i])
  {
    var u := Strip(text);
    StripNoEdges(u);
    Config.PatternOnStripped(u);
  }

  /** The panel user `create_new_user` posts for a registration: default protocols, a trial, no data limit. */
  function TrialUser(username: string, now: int, stamp: string): (u: Panel.PanelUser)
    ensures u.status == Some("active") && u.expire == Some(now + Config.TrialDays * Panel.DaySeconds)
    ensures u.proxies == map["vless" := Panel.VisionFlow]
  {
    Panel.DefaultProtocolProxies();
    Panel.PanelUser(username, Panel.CreationProxies(Config.DefaultProtocols), Some("active"),
      Some(now + Config.TrialDays * Panel.DaySeconds), None, Some("Created by bot at " + stamp))
  }

  /**
   * `_process_username_input` up to the welcome message. An invalid or
   * taken username keeps the registration state; a refused creation clears
   * it and writes nothing locally; after a creation the local write and the
   * note sync are attempted (their failures are only logged) and the state
   * is cleared.
   */
  method RegisterUsername(db: Database, states: UserStates, panel: Panel.PanelClient, uid: int, text: string,
                          telegramUsername: Option<string>, now: int, stamp: string,
                          netCheck: Panel.Net, netCreate: Panel.Net, seen: seq<bool>, netSync: Panel.Net, dbFault: bool)
    returns (reply: Reply)
    requires db.Valid()
    modifies db, states, panel
    ensures db.Valid()
    ensures reply.InvalidUsername? <==> !ValidateUsername(Strip(text))
    ensures ValidateUsername(Strip(text)) && old(panel.CanCall(netCheck, now)) && netCheck.readOk && Strip(text) in old(panel.remote)
      ==> reply == UsernameTaken(Strip(text))
    ensures reply.InvalidUsername? || reply.UsernameTaken? ==>
      states.states == old(states.states) && panel.remote == old(panel.remote) && db.accounts == old(db.accounts)
    ensures reply.CreationFailed? ==> states.states == old(states.states) - {uid} && db.accounts == old(db.accounts)
    ensures reply.CreationFailed? ==> panel.remote == old(panel.remote) || !netCreate.writeOk || CreationPollsMissed(seen)
    ensures reply.Registered? ==> reply.username == Strip(text) && ValidateUsername(reply.username)
    ensures reply.Registered? ==> reply.trialDays == Config.TrialDays
    ensures reply.Registered? ==> states.states == old(states.states) - {uid}
    ensures reply.Registered? ==> netCreate.writeOk && !CreationPollsMissed(seen)
    ensures reply.Registered? ==> var u := Strip(text);
      && u in panel.remote && panel.remote[u].proxies == TrialUser(u, now, stamp).proxies
      && panel.remote[u].status == Some("active") && panel.remote[u].expire == TrialUser(u, now, stamp).expire
    ensures reply.Registered? && !dbFault ==> db.accounts == InsertRegistered(old(db.accounts), Strip(text), uid, telegramUsername).0
    ensures !reply.Registered? || dbFault ==> db.accounts == old(db.accounts)
    ensures !reply.Silent?
    ensures db.requests == old(db.requests) && db.history == old(db.history)
  {
    var username := Strip(text);
    if !ValidateUsername(username) {
      return InvalidUsername;
    }
    var free := panel.CheckUsernameAvailability(username, netCheck, now);
    if !free {
      return UsernameTaken(username);
    }
    var created, reason := CreateTrialUser(panel, username, now, stamp, netCreate, seen);
    if !created {
      states.Clear(uid);
      return CreationFailed(reason);
    }
    FinishRegistration(db, states, panel, username, uid, telegramUsername, now, netSync, dbFault);
    reply := Registered(username, Config.TrialDays);
  }

  /**
   * The `create_new_user` call of a registration: the default protocols,
   * the trial period and no note. Success means the write went through and
   * one of the polls saw the user.
   */
  method CreateTrialUser(panel: Panel.PanelClient, username: string, now: int, stamp: string,
                         netCreate: Panel.Net, seen: seq<bool>)
    returns (created: bool, reason: string)
    modifies panel
    ensures created ==> netCreate.writeOk && !CreationPollsMissed(seen)
    ensures created ==> username in panel.remote && panel.remote[username] == TrialUser(username, now, stamp)
    ensures !created ==> panel.remote == old(panel.remote) || !netCreate.writeOk || CreationPollsMissed(seen)
  {
    created, reason := panel.CreateNewUser(username, Config.DefaultProtocols, Config.TrialDays, "", stamp, netCreate, now, seen);
  }

  /** The panel user keeps its subscription: only its note may differ. */
  predicate SameSubscription(a: Panel.PanelUser, b: Panel.PanelUser) {
    a.proxies == b.proxies && a.status == b.status && a.expire == b.expire
  }

  /**
   * The steps after a successful creation: the local row is written, the
   * identity is synced into the panel note, and the state is cleared; a
   * failure of either write changes nothing else.
   */
  method FinishRegistration(db: Database, states: UserStates, panel: Panel.PanelClient, username: string, uid: int,
                            telegramUsername: Option<string>, now: int, netSync: Panel.Net, dbFault: bool)
    requires db.Valid()
    requires username in panel.remote
    modifies db, states, panel
    ensures db.Valid()
    ensures !dbFault ==> db.accounts == InsertRegistered(old(db.accounts), username, uid, telegramUsername).0
    ensures dbFault ==> db.accounts == old(db.accounts)
    ensures username in panel.remote && SameSubscription(panel.remote[username], old(panel.remote[username]))
    ensures states.states == old(states.states) - {uid}
    ensures db.requests == old(db.requests) && db.history == old(db.history)
  {
    var recorded := db.CreateNewUserRecord(username, uid, telegramUsername, dbFault);
    var synced := panel.SyncTelegramIdToNotes(username, uid, telegramUsername, netSync, now);
    states.Clear(uid);
  }

  /** No answer within the panel's three polls saw the new user. */
  predicate CreationPollsMissed(seen: seq<bool>) {
    forall k :: 0 <= k < Panel.CreationPolls && k < |seen| ==> !seen[k]
  }

  /**
   * `_process_username_input` as written: after the welcome message it reads
   * `config.ADMIN_NOTIFICATIONS`, which the configuration does not define,
   * so every successful registration ends in an AttributeError and no
   * administrator is told.
   */
  method ProcessUsernameInputAsWritten(db: Database, states: UserStates, panel: Panel.PanelClient, admins: seq<int>,
                                       uid: int, text: string, telegramUsername: Option<string>, now: int, stamp: string,
                                       netCheck: Panel.Net, netCreate: Panel.Net, seen: seq<bool>, netSync: Panel.Net,
                                       dbFault: bool, failing: set<int>)
    returns (reply: Reply, notices: seq<Attempt>, raised: bool)
    requires db.Valid()
    modifies db, states, panel
    ensures db.Valid()
    ensures raised <==> reply.Registered?
    ensures notices == []
  {
    reply := RegisterUsername(db, states, panel, uid, text, telegramUsername, now, stamp, netCheck, netCreate, seen, netSync, dbFault);
    notices := [];
    raised := reply.Registered?;
  }

  /**
   * `_process_username_input` as intended: a successful registration is
   * announced to every configured administrator, each failure only logged.
   */
  method ProcessUsernameInput(db: Database, states: UserStates, panel: Panel.PanelClient, admins: seq<int>,
                              uid: int, text: string, telegramUsername: Option<string>, now: int, stamp: string,
                              netCheck: Panel.Net, netCreate: Panel.Net, seen: seq<bool>, netSync: Panel.Net,
                              dbFault: bool, failing: set<int>)
    returns (reply: Reply, notices: seq<Attempt>)
    requires db.Valid()
    modifies db, states, panel
    ensures db.Valid()
    ensures reply.InvalidUsername? <==> !ValidateUsername(Strip(text))
    ensures reply.InvalidUsername? || reply.UsernameTaken? ==>
      states.states == old(states.states) && panel.remote == old(panel.remote) && db.accounts == old(db.accounts)
    ensures reply.Registered? ==> states.states == old(states.states) - {uid}
    ensures !reply.Silent?
    ensures reply.Registered? ==> |notices| == |admins|
    ensures reply.Registered? ==> forall k :: 0 <= k < |admins| ==> notices[k] == Attempt(admins[k], admins[k] !in failing)
    ensures !reply.Registered? ==> notices == []
  {
    reply := RegisterUsername(db, states, panel, uid, text, telegramUsername, now, stamp, netCheck, netCreate, seen, netSync, dbFault);
    notices := [];
    if reply.Registered? {
      notices := SendAdminNotification(admins, failing);
    }
  }

  /**
   * The registration part of `handle_text_messages`: text is taken as a
   * username only while the chat awaits one; otherwise nothing happens.
   */
  method HandleTextMessages(db: Database, states: UserStates, panel: Panel.PanelClient, admins: seq<int>,
                            uid: int, text: string, telegramUsername: Option<string>, now: int, stamp: string,
                            netCheck: Panel.Net, netCreate: Panel.Net, seen: seq<bool>, netSync: Panel.Net,
                            dbFault: bool, failing: set<int>)
    returns (reply: Reply, notices: seq<Attempt>)
    requires db.Valid()
    modifies db, states, panel
    ensures db.Valid()
    ensures reply.Silent? <==> !AwaitsUsername(old(states.Get(uid)))
    ensures reply.Silent? ==>
      states.states == old(states.states) && db.accounts == old(db.accounts) && panel.remote == old(panel.remote) && notices == []
  {
    var st := states.Get(uid);
    if !AwaitsUsername(st) {
      return Silent, [];
    }
    reply, notices := ProcessUsernameInput(db, states, panel, admins, uid, text, telegramUsername, now, stamp,
      netCheck, netCreate, seen, netSync, dbFault, failing);
  }
}
