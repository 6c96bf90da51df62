# Telegram VPN payment bot — a Dafny model of its core

The bot sells subscriptions to a VPN whose accounts live on a Marzban
panel. A chat links itself to a panel account with an invitation link or
registers a trial account. It picks a plan, claims to have paid and uploads
a receipt. An administrator then approves (the subscription is extended and
the payment recorded), rejects, or confirms a payment by hand. A local
SQLite store keeps the accounts, the payment requests and the payment
ledger. At start-up and on admin commands the store is reconciled with the
panel.

The model covers:

- the store (`Repository`): a `Database` class whose fields are the three
  tables, with each write specified by a pure function over the table;
- the panel client (`Panel`): a `PanelClient` class over the panel's user
  map, with expiry arithmetic, proxy payloads, note merging, token
  handling and the subscription-URL cache;
- the per-chat state store and the admin broadcast (`BaseHandler`);
- the payment, registration and user flows (`PaymentHandlers`,
  `Registration`, `UserFlow`) and the callback decoder and text router
  (`Coordinator`);
- the admin commands (`Admin`) and the start-up import (`Reconcile`);
- the validators, helpers, formatters, configuration and text loader
  (`Validators`, `Helpers`, `Formatters`, `Config`, `Texts`);
- runs of several handlers one after another (`Settlement`): two
  approvals of one request, a reject after an approval, and claim →
  receipt → approval.

Handlers return a reply together with the sequence of effects they
performed (request created, approval written, panel extension called,
ledger row written, user notified). This lets the contracts state
orderings such as "the panel is only asked to extend after the
pending-to-approved update succeeded".

The model treats the outside world as follows:

- Storage faults are `fault` parameters.
- Panel HTTP outcomes are a `Panel.Net` value.
- The clock is a `now` parameter in epoch seconds.
- Randomness and hashes are parameters.

Python string behaviour (`split`, `strip`, `replace`, `int()`,
`isdigit`, slicing, floor division) is written out in `PyStr` for ASCII
text; the Unicode cases are listed under "Left out".

`telegram_id` is declared `UNIQUE` in the accounts table
(database_manager.py:23), so a chat is linked to at most one account
(`Repository.LinkedToAtMostOne`), although the multi-account menus
suggest several.

## Model

| member | source | states |
|---|---|---|
| Catalog.FindPlan | handlers/payment_handlers.py:107 | the plan found is in the catalogue and its `str(id)` is the reference; none is found exactly when no plan's id text matches |
| Catalog.FindPlanById | plans.py:7-13 | every catalogued plan is found again by the text of its id |
| Catalog.FindPlanRejectsUnderscore | handlers/payment_handlers.py:107 | a reference containing `_` never names a plan |
| Catalog.StatusFromValue | enums.py:3-7 | `UserStatus(value)` returns the member with that value, and the only one |
| Config.AdminIdsFrom | config.py:13-18 | at most one id per comma-separated token, and every id is non-negative |
| Config.ParseAdminIds | config.py:9-18 | an unset or empty `ADMIN_IDS` gives no admins; all ids are non-negative |
| Config.AdminIdsFromDecimals | config.py:14-17 | the decimal texts of a list of ids parse back to that list |
| Config.AdminIdsRoundTrip | config.py:9-18 | a comma-joined list of decimal ids parses back to the same list, in order |
| Config.AdminIdsFromConcat | config.py:14-17 | parsing two token lists one after the other is parsing each and concatenating |
| Config.AdminIdsSkipNonNumeric | config.py:15-17 | a trailing token that is not all digits after stripping is ignored |
| Config.IsAdmin | config.py:69-70 | membership in the configured ids; `IsAdminFromEnv` ties it to the ids listed in `ADMIN_IDS` |
| Config.IsAdminFromEnv | config.py:69-70 | a chat is an admin exactly when its id is one of the ids listed in `ADMIN_IDS` |
| Config.MissingParams | config.py:53-61 | a "not set" problem is reported exactly for each falsy required parameter, and only those |
| Config.Validate | config.py:50-66 | configuration is valid exactly when the four credentials are set and at least one admin is listed; each missing item is reported |
| Config.PatternOnStripped | config.py:42 | on stripped text, `^[A-Za-z0-9_]+$` holds exactly for non-empty strings of letters, digits and `_` |
| BaseHandler.TextField | handlers/base_handler.py:135-137 | a text field is read only when the key holds a text value |
| BaseHandler.NumField | handlers/base_handler.py:135-137 | a number field is read only when the key holds a number |
| BaseHandler.UserStates.constructor | handlers/base_handler.py:135-147 | the state store starts empty |
| BaseHandler.UserStates.Get | handlers/base_handler.py:135-137 | a chat without a state reads as the empty state |
| BaseHandler.UserStates.Set | handlers/base_handler.py:139-141 | the chat's state is replaced; every other chat's state is unchanged |
| BaseHandler.UserStates.Clear | handlers/base_handler.py:143-146 | the chat's state is removed; other chats keep theirs; clearing an absent state changes nothing |
| BaseHandler.GetVerifiedUser | handlers/base_handler.py:39-44 | the account returned is the chat's linked and verified row; none is returned only if no linked row is verified |
| BaseHandler.VerifiedUserIsLinkedUser | handlers/base_handler.py:39-44 | because linked rows are verified, the verified user is the linked user |
| BaseHandler.SendAdminNotification | handlers/base_handler.py:46-52 | one attempt per admin, in order; a failed delivery does not stop the rest |
| Repository.InsertOrIgnore | database_manager.py:61-82 | `INSERT OR IGNORE`: a row is added only for a new username; existing rows are untouched |
| Repository.InsertOrIgnoreTwice | database_manager.py:61-82 | a second insert of the same username is ignored |
| Repository.IdMarker | database_manager.py:368 | the identity marker starts with `Telegram ID: ` |
| Repository.IdentityNotes | database_manager.py:263-296 | registration notes start with the id marker and end with the remark |
| Repository.InsertRegistered | database_manager.py:263-296 | a registered row is inserted only when the username and the chat id are both free; it is active, linked and verified, with identity notes |
| Repository.Link | database_manager.py:474-508 | linking succeeds only on an existing unlinked row whose chat id is free; it sets id, verification, handle, phone and notes; other rows are untouched |
| Repository.LinkOnce | database_manager.py:474-508 | a linked row cannot be linked again |
| Repository.SetNotes | database_manager.py:398-419 | only the named row's notes change, and only if the row exists |
| Repository.AddIdToNotesAsWritten | database_manager.py:349-397 | as written: the notes afterwards contain the marker text as a substring |
| Repository.MarkerOfExtendedId | database_manager.py:368 | the marker of id `10n+d` extends the marker of `n` by one digit |
| Repository.AddIdAsWrittenSkipsPrefixId | database_manager.py:368-370 | as written, notes recording id 123 are taken as already recording id 12, so nothing is written |
| Repository.AddIdToNotes | database_manager.py:349-397 | corrected (Findings row database_manager.py:368): afterwards the notes record the id as a whole marker; earlier notes are kept as a prefix; no other column or row changes |
| Repository.AddIdToNotesIdempotent | database_manager.py:349-397 | corrected (Findings row database_manager.py:368): adding the same id twice is adding it once |
| Repository.AddIdToNotesRecordsPrefixId | database_manager.py:373-375 | with the whole-marker check, id 12 is appended after an existing id 123 |
| Repository.Delete | database_manager.py:696-704 | the row is removed and reported deleted exactly when it existed; the others are unchanged |
| Repository.RowWriteKeepsConstraints | database_manager.py:22-23 | a single-row write that keeps a chat id free or in place keeps chat ids unique and linked rows verified |
| Repository.LinkedToAtMostOne | database_manager.py:23 | under the `UNIQUE` constraint, a chat id is linked to at most one account |
| Repository.AccountOf | database_manager.py:420-446 | the account linked to a chat, which is unique |
| Repository.UsersByTelegramId | database_manager.py:324-348 | the accounts listed for a chat are exactly those linked to it, at most one |
| Repository.NewRequest | database_manager.py:83-124 | a new request is pending, has no receipt and no decision, and carries the chat, account, plan and amount |
| Repository.AttachReceipt | database_manager.py:125-150 | only the named request gains the receipt; the update reports whether it existed |
| Repository.Decide | database_manager.py:180-233 | the decision is written only if the request exists and is pending; status, comment, time and admin are set and nothing else changes |
| Repository.SecondDecisionFails | database_manager.py:180-233 | once decided, a request refuses every later decision and keeps its status |
| Repository.ReceiptKeepsDecision | database_manager.py:125-150 | attaching a receipt never changes any request's status or deciding admin |
| Repository.TransactionIdOrGenerated | database_manager.py:523-548 | a given transaction id is kept; otherwise a `manual_` id is generated |
| Repository.PaymentCount | database_manager.py:597-642 | the payment counts never exceed the number of ledger rows |
| Repository.Stats | database_manager.py:597-642 | the total user count is the number of accounts |
| Repository.LinkedUnlinkedPartition | database_manager.py:597-642 | linked and unlinked accounts partition the table |
| Repository.StatsPartition | database_manager.py:597-642 | linked ≤ total, unlinked is counted exactly, and the link percentage is between 0 and 100 |
| Repository.VerifiedCoverLinked | database_manager.py:597-642 | the verified count is at least the linked count |
| Repository.MonthlyWithinTotal | database_manager.py:597-642 | monthly payments never exceed all payments |
| Repository.AppendCounts | database_manager.py:523-548 | appending a ledger row raises a count by one exactly when the row is counted |
| Repository.Enumerate | database_manager.py:509-522 | a set of usernames is listed without repeats and without omissions |
| Repository.Database.constructor | database_manager.py:9-59 | a fresh store has empty tables |
| Repository.Database.AddUser | database_manager.py:61-82 | a fault changes nothing; otherwise the accounts table is `InsertOrIgnore` of the old one; the other tables are unchanged |
| Repository.Database.CreateNewUserRecord | database_manager.py:263-296 | a fault changes nothing; otherwise the accounts table is `InsertRegistered` of the old one |
| Repository.Database.LinkTelegramAccount | database_manager.py:474-508 | a fault changes nothing; otherwise the accounts table is `Link` of the old one |
| Repository.Database.UpdateUserNotes | database_manager.py:398-419 | a fault changes nothing; otherwise the accounts table is `SetNotes` of the old one |
| Repository.Database.AddTelegramIdToNotes | database_manager.py:349-397 | corrected (Findings row database_manager.py:368): a fault changes nothing; otherwise the accounts table is `AddIdToNotes` of the old one |
| Repository.Database.DeleteUserByUsername | database_manager.py:696-704 | the accounts table is `Delete` of the old one |
| Repository.Database.CreatePaymentRequest | database_manager.py:83-124 | on success a fresh positive id is returned, the table is created if missing and the new pending request stored under that id; a fault returns 0 and changes nothing |
| Repository.Database.AddReceiptToRequest | database_manager.py:125-150 | a fault changes nothing; otherwise the requests table is `AttachReceipt` of the old one |
| Repository.Database.ApprovePaymentRequest | database_manager.py:180-206 | the conditional pending→approved update: a fault changes nothing; otherwise `Decide` with Approved |
| Repository.Database.RejectPaymentRequest | database_manager.py:207-233 | the conditional pending→rejected update with the given comment |
| Repository.Database.RecordPayment | database_manager.py:523-548 | on success the ledger gains exactly one row with the given fields; on a fault it is unchanged |
| Repository.Database.GetPaymentRequest | database_manager.py:234-262 | a missing requests table is an error; otherwise the stored request, or none when the id is unknown |
| Repository.Database.GetPendingPaymentRequests | database_manager.py:151-179 | exactly the pending requests, each with its stored row, newest id first |
| Repository.PendingNewestFirst | database_manager.py:155-177 | the scan keeps exactly the pending requests with their stored rows, in strictly decreasing id order |
| Repository.Database.GetUserByTelegramId | database_manager.py:420-446 | the account whose chat id is the given one, or none when no row has it |
| Repository.Database.GetAllUsers | handlers/admin_handlers.py:355 | intended `get_all_users` (Findings row handlers/admin_handlers.py:355): every account, each once |
| Repository.Database.GetUnlinkedUsers | database_manager.py:509-521 | every account without a chat id, each once, and no other |
| Repository.Database.GetUserByMarzbanUsername | database_manager.py:447-473 | the row for that username, or none when there is no such row |
| Repository.Database.GetStatistics | database_manager.py:597-642 | linked ≤ verified, and the unlinked count is exact |
| Panel.Remaining | marzban_api.py:492-526 | time remains exactly while the subscription is running |
| Panel.NewExpiry | marzban_api.py:507-512 | a running subscription is extended from its expiry, an expired or unlimited one from now |
| Panel.ExtensionsAdd | marzban_api.py:492-526 | extending by a days and then by b days is extending by a+b days |
| Panel.KnownProxies | marzban_api.py:301-356 | only known protocols get settings; each listed known protocol (lower-cased) gets its creation settings |
| Panel.KnownProxiesStep | marzban_api.py:301-356 | one more protocol adds its settings only when it is known |
| Panel.CreationProxies | marzban_api.py:301-356 | creation never sends an empty proxy map; no protocols means vless with the vision flow |
| Panel.DefaultProtocolProxies | config.py:45 | the default `["vless"]` creates a vless proxy with the vision flow |
| Panel.BuildProxies | marzban_api.py:301-356 | the loop builds exactly `CreationProxies` |
| Panel.UpdateProxies | marzban_api.py:527-592 | an update drops trojan (in any case) and keeps every other proxy; it is never empty |
| Panel.FilterProxies | marzban_api.py:527-592 | the loop builds exactly `UpdateProxies` |
| Panel.UpdatePayload | marzban_api.py:527-592 | the payload keeps username and data limit, filters proxies, and takes status and expiry from the arguments or else from the current user |
| Panel.Applied | marzban_api.py:527-592 | applying a payload sets exactly its fields and keeps the note |
| Panel.ExtensionResult | marzban_api.py:492-526 | after an extension the user is active, expires at `NewExpiry`, keeps note and data limit, and has non-trojan proxies |
| Panel.SyncNote | marzban_api.py:430-438 | the sync note starts with the id marker |
| Panel.UntilBar | marzban_api.py:377 | the length of the prefix before the first `\|` |
| Panel.SegmentLength | marzban_api.py:377 | a marker segment at the head is longer than the marker itself |
| Panel.SubMarker | marzban_api.py:377 | `re.sub` of the marker pattern, every match left to right; `SubMarkerWrites` and `SubMarkerWhole` state what it does |
| Panel.SubMarkerWrites | marzban_api.py:377 | if the regex substitution changed the note, the note now contains the replacement |
| Panel.SubMarkerWhole | marzban_api.py:377 | a note that is a single marker segment is replaced wholesale |
| Panel.Appended | marzban_api.py:378-381 | appending keeps the new note as a substring |
| Panel.MergeNoteAsWritten | marzban_api.py:362-429 | as written: a stripped non-empty note ends up in the merged note |
| Panel.MergedNoteText | marzban_api.py:372-381 | the note before the final strip: the marker substituted, else the note appended; `MergedNoteKeepsNote` and `MergeAsWrittenRepeatsMarker` state its properties |
| Panel.MergedNoteKeepsNote | marzban_api.py:383 | stripping the merged note keeps the new note |
| Panel.MergeAsWrittenRepeatsMarker | marzban_api.py:375-381 | as written, re-syncing a note equal to the stored marker duplicates it |
| Panel.MergeNote | marzban_api.py:362-429 | corrected (Findings row marzban_api.py:375-381): the note is kept; a note already present leaves the stored note (stripped) as it is; otherwise it merges as written |
| Panel.StripKeepsNote | marzban_api.py:383 | stripping keeps a stripped substring |
| Panel.MergeNoteIdempotent | marzban_api.py:362-429 | corrected (Findings row marzban_api.py:375-381): merging the same note twice is merging it once |
| Panel.TokenWindow | marzban_api.py:439-444 | a token is renewed exactly when its lifetime has run out |
| Panel.FirstWorking | marzban_api.py:185-220 | the first working probe that is not the API-provided one; none if there is none |
| Panel.FirstWorkingUrl | marzban_api.py:210-216 | the URL of the probe `FirstWorking` picks; `FirstWorkingAt` and `GetWorkingSubscriptionUrl` state it |
| Panel.FirstWorkingAt | marzban_api.py:185-220 | a working probe preceded only by failing or API-provided ones is the one chosen |
| Panel.TrimSlashes | marzban_api.py:11-18 | the base URL loses only its trailing slashes |
| Panel.PanelClient.constructor | marzban_api.py:11-18 | the client starts with a trimmed URL, no token and no cached format |
| Panel.PanelClient.Authenticate | marzban_api.py:19-40 | a successful login stores the token and its expiry; a failed one keeps the old token; the panel is untouched |
| Panel.PanelClient.EnsureAuthenticated | marzban_api.py:439-444 | calls are possible exactly when the token is valid or a new login succeeds |
| Panel.PanelClient.GetUser | marzban_api.py:473-491 | the user is returned exactly when authentication and the read succeed and the user exists |
| Panel.PanelClient.CheckUsernameAvailability | marzban_api.py:357-361 | a name is taken exactly when the panel reports that user |
| Panel.PanelClient.UpdateUser | marzban_api.py:527-592 | on success the user becomes `Applied(UpdatePayload(...))`; on any failure the panel is unchanged |
| Panel.PanelClient.ExtendUserSubscription | marzban_api.py:492-526 | on success the user is active and expires at `NewExpiry`; on failure the panel is unchanged |
| Panel.PanelClient.CreateNewUser | marzban_api.py:301-356 | a created user has the creation proxies, is active, has the trial expiry and the note; success needs the user to appear within the polls; the URL cache is reset |
| Panel.PollCreated | marzban_api.py:343-349 | success exactly when one of the first three polls sees the created user |
| Panel.PanelClient.UpdateUserNote | marzban_api.py:362-429 | corrected (Findings row marzban_api.py:375-381): on success only the user's note changes, to `MergeNote`; otherwise nothing changes |
| Panel.PanelClient.SyncTelegramIdToNotes | marzban_api.py:430-438 | corrected (Findings row marzban_api.py:375-381): on success the user's note is the merge of the sync note |
| Panel.PanelClient.GetWorkingSubscriptionUrl | marzban_api.py:185-220 | a working API URL wins, then a working cached template; a dead cache is dropped; when both fail, a truthy API URL is returned without another test, and otherwise the first working probe, which is cached |
| PaymentHandlers.ExtendCountConcat | handlers/payment_handlers.py:406-489 | the extension calls of two runs add up |
| PaymentHandlers.NoExtendCount | handlers/payment_handlers.py:406-489 | a run without an extension call counts none |
| PaymentHandlers.ReceiptState | handlers/payment_handlers.py:161-219 | the chat waits for a receipt of the request |
| PaymentHandlers.ClaimState | handlers/payment_handlers.py:200-208 | the claim state records the waiting step, request, plan and payment message |
| PaymentHandlers.OwnAccount | handlers/payment_handlers.py:106-160 | an explicitly named account is used only if it is linked to this chat |
| PaymentHandlers.ResolveTarget | handlers/payment_handlers.py:106-160 | the explicit account, else the active account, else the verified user; always one of the chat's own accounts |
| PaymentHandlers.ProcessPaymentPlan | handlers/payment_handlers.py:106-160 | an unknown plan and an unknown account are reported; otherwise the plan details for the chat's own account are shown |
| PaymentHandlers.HandlePaymentClaim | handlers/payment_handlers.py:161-219 | a known plan creates one pending request for the plan's price and puts the chat in the waiting-receipt state; when editing the claim message raises, the request and the first waiting state stand and no admin is told; otherwise the message id joins the state and every admin is tried; an unknown plan or a store fault changes nothing |
| PaymentHandlers.AwaitReceipt | handlers/payment_handlers.py:181-218 | once the request exists: the chat waits for its receipt; a failing message edit stops there with no admin told; otherwise the state also records the message id and every admin is tried |
| PaymentHandlers.ReceiptOf | handlers/payment_handlers.py:238-245 | the largest photo, else the document; nothing otherwise |
| PaymentHandlers.HandleReceiptUpload | handlers/payment_handlers.py:220-337 | outside the waiting state nothing happens; a stored receipt attaches to exactly the waited-for request and clears the state; a failing user notice or a state without `username` then ends the handler before any admin hears of it; a fault or an unusable file keeps the state |
| PaymentHandlers.ParseRequestId | handlers/payment_handlers.py:419-423 | the id is the `int()` of the first argument |
| PaymentHandlers.LookupPending | handlers/payment_handlers.py:406-437 | rights, arguments, id, table, existence and pending status are checked in that order; only a pending request goes on |
| PaymentHandlers.ExtendAndRecord | handlers/payment_handlers.py:444-489 | after a won approval: extend only if the plan exists, write the ledger row only if the extension succeeded, extend at most once |
| PaymentHandlers.RecordApproval | handlers/payment_handlers.py:446-472 | after a successful extension: the trace is decision, extension, ledger row, notice; the ledger gains the approval row unless the write fails; one extension at most |
| PaymentHandlers.ApprovePaymentCommand | handlers/payment_handlers.py:406-489 | nothing is written and the panel is not called unless the conditional update wins; then the extension and the ledger row follow in that order; at most one extension |
| PaymentHandlers.ApprovePending | handlers/payment_handlers.py:438-489 | a lost conditional update changes nothing; a won one approves and then extends and records |
| PaymentHandlers.RejectPaymentCommand | handlers/payment_handlers.py:490-554 | the same checks as approval; only a pending request is rejected, with the joined reason; never an extension or a ledger row |
| PaymentHandlers.ConfirmPaymentCommandAsWritten | handlers/payment_handlers.py:338-405 | as written: the command crashes exactly when the user notice fails after the extension |
| PaymentHandlers.ConfirmPaymentCommand | handlers/payment_handlers.py:338-405 | corrected (Findings row handlers/payment_handlers.py:393): never crashes; a successful extension writes one ledger row for a known local account; the panel changes only when extended |
| Settlement.ApproveTwice | handlers/payment_handlers.py:433-445 | two approvals of one request: at most one wins, the second is told it was processed, and the panel is asked to extend at most once |
| Settlement.RejectAfterApproval | handlers/payment_handlers.py:517-522 | a reject after a won approval is refused and the request stays approved |
| Settlement.ClaimReceiptApprove | handlers/payment_handlers.py:161-489 | claim, receipt and approval leave the request approved with the plan's price and receipt, the state cleared, and exactly one completed ledger row when the extension succeeded |
| Settlement.ClaimWithReceipt | handlers/payment_handlers.py:161-337 | the claim files a pending request for the plan's price and the upload attaches the receipt to it; the ledger is untouched and the state cleared |
| Registration.RegistrationState | handlers/registration_handlers.py:24-38 | the chat waits for a username |
| Registration.StartRegistration | handlers/registration_handlers.py:24-38 | the chat's state becomes the registration state |
| Registration.ValidateUsername | handlers/registration_handlers.py:184-197 | 4 to 32 characters that match the username pattern; `AcceptedUsernameShape` states the accepted shape |
| Registration.AcceptedUsernameShape | handlers/registration_handlers.py:184-197 | an accepted username has 4–32 characters from letters, digits and `_` |
| Registration.TrialUser | handlers/registration_handlers.py:61-160 | the trial account is active, expires after the trial days and uses vless with the vision flow |
| Registration.RegisterUsername | handlers/registration_handlers.py:61-160 | an invalid name or a taken name changes nothing; a created account is on the panel with the trial, the state is cleared and the store row written |
| Registration.CreateTrialUser | handlers/registration_handlers.py:86-106 | success means the panel user exists with the trial settings |
| Registration.FinishRegistration | handlers/registration_handlers.py:107-123 | the store gets the registered row, the subscription on the panel is untouched and the state is cleared |
| Registration.ProcessUsernameInputAsWritten | handlers/registration_handlers.py:137 | as written: every successful registration then raises and no admin is notified |
| Registration.ProcessUsernameInput | handlers/registration_handlers.py:61-160 | corrected (Findings row handlers/registration_handlers.py:137): after a successful registration each admin is notified once |
| Registration.HandleTextMessages | handlers/registration_handlers.py:49-60 | text is ignored unless the chat waits for a username |
| UserFlow.ParseInvite | handlers/user_handlers.py:94-126 | a code without the `link_` prefix is invalid; fewer than three parts is a bad format; the username is the parts between the first and the last |
| UserFlow.InviteRoundTrip | handlers/user_handlers.py:94-126 | `link_{u}_{tag}` parses back to `u` for any tag without `_` |
| UserFlow.GeneratedInviteParses | utils/helpers.py:12-31 | every generated invitation code parses back to its username |
| UserFlow.AfterLinkSync | handlers/user_handlers.py:111-113 | only the linked username's note can change, and it becomes the merged sync note exactly when the client is authorised, the user is found and the write succeeds |
| UserFlow.HandleInvitationLink | handlers/user_handlers.py:94-126 | the chat is linked exactly when the code names an unlinked account and the chat id is free; after a link the panel note carries the merged sync note exactly when the client is authorised, the user is found and the write is accepted, and is otherwise unchanged; a code that does not link changes nothing |
| UserFlow.StartCommand | handlers/user_handlers.py:19-41 | a `link_` argument goes to the invitation handler, with its link condition, its new accounts table and its panel sync; otherwise a verified user is welcomed and nothing changes |
| UserFlow.StatusAccount | handlers/user_handlers.py:42-58 | the active account if it is the chat's own, else the verified user |
| UserFlow.ActiveState | handlers/user_handlers.py:476-489 | the state records the active account and does not wait for a receipt |
| UserFlow.SetActiveAccount | handlers/user_handlers.py:476-489 | the chat's state is replaced by the selected account |
| UserFlow.SelectedAccountIsReported | handlers/user_handlers.py:42-58 | after selecting one of its accounts, `/status` reports that account |
| Coordinator.DecodeAsWritten | bot_coordinator.py:151-242 | the callback chain as written, first match wins; `PlanBranch`, `PaidBranch`, `PayAccountBranch` and `UnderscoredAccountLosesPlan` state its branches |
| Coordinator.Decode | bot_coordinator.py:202-232 | corrected (Findings row bot_coordinator.py:202-212): the chain with the intended `plan_`/`paid_` split; `PayloadRoundTrip` and `PlanButtonRoundTrip` state that every button decodes back |
| Coordinator.PlanPayload | bot_coordinator.py:202-212 | corrected (Findings row bot_coordinator.py:202-212): with a `_` after the prefix, the plan id is the `_`-free text up to the first such `_` and the account is all the rest; otherwise the prefix is removed |
| Coordinator.PlanBranch | bot_coordinator.py:202-212 | `plan_` data is decoded as a plan choice |
| Coordinator.PaidBranch | bot_coordinator.py:214-232 | `paid_` data is decoded as a payment claim |
| Coordinator.PayAccountBranch | bot_coordinator.py:198-200 | `payacc_` data selects the account with every occurrence of the prefix removed |
| Coordinator.PlanButtonAsWritten | bot_coordinator.py:202-212 | as written, a button for an account without `_` decodes to its plan and account |
| Coordinator.SplitPlanButton | bot_coordinator.py:204 | three `_`-free words split back into themselves |
| Coordinator.UnderscoredAccountLosesPlan | bot_coordinator.py:202-212 | as written, a button for an account with `_` decodes to no account and a plan id that names no plan |
| Coordinator.PayloadRoundTrip | bot_coordinator.py:202-212 | corrected (Findings row bot_coordinator.py:202-212): splitting at the first `_` recovers the plan id and the whole username |
| Coordinator.PlanButtonRoundTrip | bot_coordinator.py:202-232 | corrected (Findings row bot_coordinator.py:202-212): every plan button decodes back to its plan and account |
| Coordinator.PayAccountDropsEveryPrefix | bot_coordinator.py:198-200 | an account name containing `payacc_` is altered by the decoder |
| Coordinator.ClaimTarget | bot_coordinator.py:214-232 | a named account is used only if linked to the chat; otherwise the verified user |
| Coordinator.PaidCallback | bot_coordinator.py:214-232 | without a target nothing is written; a created claim is for the target account and this chat |
| Coordinator.RouteText | bot_coordinator.py:130-147 | menu labels go to the reply keyboard; all other text goes to registration |
| Coordinator.LabelIsNoUsername | bot_coordinator.py:135-141 | no menu label is a valid username |
| Coordinator.MenuNeverTakesUsername | bot_coordinator.py:130-147 | every valid username reaches registration |
| Admin.NatToStringWithin | handlers/admin_handlers.py:33 | a number below 10^k has at most k digits |
| Admin.InviteCode | handlers/admin_handlers.py:33 | `link_{u}_{4 digits}`, which parses back to `u` |
| Admin.DigitsHaveNoUnderscore | handlers/admin_handlers.py:33 | digits contain no `_` |
| Admin.AdminLinksCommand | handlers/admin_handlers.py:17-46 | one invitation code per unlinked account, each parsing back to it; "all linked" exactly when none is unlinked |
| Admin.Slices | handlers/admin_handlers.py:148-152 | the chunks join back to the message, each at most the width, all but the last full |
| Admin.ReportMessages | handlers/admin_handlers.py:113-155 | a report is sent whole if it fits, otherwise in 4000-character chunks that join back to it |
| Admin.AddTelegramNoteCommand | handlers/admin_handlers.py:156-193 | corrected (Findings row database_manager.py:368): rights, arguments, id and account are checked; the notes then record the id |
| Admin.SyncedNotes | handlers/admin_handlers.py:219-229 | the new notes record the id and keep the old notes as a prefix |
| Admin.NeedsSyncAsWritten | handlers/admin_handlers.py:219 | as written: a row is synced unless its notes contain the marker text as a substring; `SyncAsWrittenSkipsPrefixId` shows the wrong skip |
| Admin.NeedsSync | handlers/admin_handlers.py:219 | corrected (Findings row handlers/admin_handlers.py:219): a row is synced unless its notes carry the chat id as a whole number |
| Admin.SyncAsWrittenSkipsPrefixId | handlers/admin_handlers.py:219 | as written a row with id 123 in its notes is skipped for id 12; the whole-marker check syncs it |
| Admin.SyncedRow | handlers/admin_handlers.py:219-233 | a synced row changes only its notes, which then record its id |
| Admin.AfterSync | handlers/admin_handlers.py:194-241 | corrected (Findings row handlers/admin_handlers.py:219): syncing keeps the set of accounts |
| Admin.AfterSyncKeepsConstraints | handlers/admin_handlers.py:194-241 | syncing keeps chat ids unique and linked rows verified |
| Admin.SyncLeavesOnlyFailures | handlers/admin_handlers.py:194-241 | corrected (Findings row handlers/admin_handlers.py:219): after a sync only the rows whose write failed still need syncing |
| Admin.SyncStep | handlers/admin_handlers.py:214-233 | corrected (Findings row handlers/admin_handlers.py:219): one loop step syncs one row exactly when it needs it and its write succeeds |
| Admin.SyncTelegramNotesCommand | handlers/admin_handlers.py:194-241 | corrected (Findings row handlers/admin_handlers.py:219): the table becomes `AfterSync` and the count of updated rows is reported out of the linked rows |
| Admin.SyncRow | handlers/admin_handlers.py:215-234 | corrected (Findings row handlers/admin_handlers.py:219): one row of the sync: the table moves to `AfterSync` with that row no longer pending, and the count grows by one exactly when the row was written |
| Admin.SubsetSmaller | handlers/admin_handlers.py:236-241 | the updated count never exceeds the total |
| Admin.SyncToMarzbanCommand | handlers/admin_handlers.py:242-284 | corrected (Findings row marzban_api.py:375-381): the errors are exactly the verified linked accounts whose login was refused, whose read or write failed, or which the panel lacks; every other one is on the panel with its note merged with the sync note; each error leaves its user as it was; no login is refused while the stored token is valid; the successes count exactly the merged accounts and successes and errors add up to the total; nothing but those notes changes |
| Admin.SyncOneToPanel | handlers/admin_handlers.py:255-275 | corrected (Findings row marzban_api.py:375-381): succeeds exactly when the client is authorised, the read succeeds, the user exists and the write is accepted; then only that user's note changes, to its merge with the sync note; a failure changes nothing |
| Admin.SyncRows | handlers/admin_handlers.py:262-276 | every row is attempted once; the failed attempts are the errors, exactly those whose login, read or write failed or whose user the panel lacks, and leave their users as they were; every other row's user carries the merged note |
| Admin.SyncedSoFarStep | handlers/admin_handlers.py:265-276 | one more attempt on a new row keeps the panel as "merged or untouched", adding the row to the failures exactly when the attempt failed |
| Admin.CleanupAccountsCommandAsWritten | handlers/admin_handlers.py:355 | as written the admin branch always raises |
| Admin.CleanupAccountsCommand | handlers/admin_handlers.py:350-373 | corrected (Findings row handlers/admin_handlers.py:355): the named local accounts deleted are exactly those whose lookup returns nothing: failed login, failed read or no such panel user, so an unreachable panel deletes them all; a failed login counts only when the stored token had run out; the panel is unchanged |
| Admin.CleanupOne | handlers/admin_handlers.py:356-373 | a named account is deleted exactly when its lookup returns nothing: the login failed, the read failed or the panel has no such user |
| Admin.CleanupRow | handlers/admin_handlers.py:356-373 | one cleanup step deletes exactly the accounts whose lookup missed and books a failed login only while the token had run out |
| Reconcile.ImportedRow | main.py:172 | an imported row is unlinked, unverified and carries the import note |
| Reconcile.ListedNamesStep | main.py:148 | one more panel entry adds its name when it has one |
| Reconcile.AddedStep | main.py:166-173 | one more panel entry adds one new local name exactly when it is inserted |
| Reconcile.Imported | main.py:164-173 | the table and count after the insert loop; `ImportedKeys`, `ImportedCount`, `ImportedKeepsRows` and `ImportedStatus` state what it adds |
| Reconcile.ImportedKeys | main.py:166-173 | the import adds exactly the listed names not yet stored |
| Reconcile.ImportedCount | main.py:166-173 | the reported added count is the growth of the table |
| Reconcile.ImportedKeepsRows | main.py:166-173 | existing rows are never changed by the import |
| Reconcile.ImportedStatus | main.py:166-173 | each imported row takes its status from the first panel entry of that name |
| Reconcile.AddMissing | main.py:164-173 | the loop builds exactly `Imported` |
| Reconcile.RemoveAbsent | main.py:175-181 | exactly the local names missing from the panel are deleted, and counted |
| Reconcile.DropIfUnlisted | main.py:178-181 | one name is deleted exactly when the panel does not list it |
| Reconcile.AutoImportUsersAsWritten | main.py:138-184 | as written a failed panel listing deletes every local account |
| Reconcile.AutoImportUsers | main.py:138-184 | corrected (Findings row main.py:148): a failed listing changes nothing; otherwise import then removal; a failed local read deletes nothing |
| Reconcile.ImportMirrorsPanel | main.py:138-184 | after a full reconciliation the local usernames are exactly the names in the listing |
| Validators.ValidateUsername | utils/validators.py:16-63 | corrected (Findings row utils/validators.py:26): accepted exactly when the stripped name has an acceptable shape and is not reserved; empty and too short are reported |
| Validators.AcceptedUsernameShape | utils/validators.py:16-63 | an accepted username has 4–32 allowed characters |
| Validators.ValidateUsernameAsWritten | utils/validators.py:26 | as written the verdict exists only if the message document is found under the path key |
| Validators.UsernameAsWrittenAlwaysRaises | utils/validators.py:26 | with the loader's dotted keys the path key is never found, so validation always raises |
| Validators.PathKeyHasSlash | utils/validators.py:26 | the key used contains `/` |
| Validators.PathKeyMissesDocuments | utils/validators.py:26 | a key with `/` finds no document |
| Validators.DottedKeyFindsMessages | texts/__init__.py:41-47 | the dotted key finds the messages; the path key does not |
| Validators.ValidateTelegramId | utils/validators.py:97-124 | valid exactly for integers from 1000 to the maximum; non-numeric and non-positive are told apart |
| Validators.TelegramIdTextAgrees | utils/validators.py:97-124 | an id and its decimal text get the same verdict |
| Validators.KeepPhoneChars | utils/validators.py:139 | only digits and `+` are kept |
| Validators.KeepPhoneCharsIdentity | utils/validators.py:139 | a clean number is kept as it is |
| Validators.ValidatePhoneNumber | utils/validators.py:125-151 | accepted exactly when the cleaned number is international, and Russian-shaped when it starts with 7 or +7 |
| Validators.AcceptedPhoneDigitCount | utils/validators.py:125-151 | an accepted number has 7–15 digits |
| Validators.CleanPhoneNumber | utils/validators.py:417-431 | the result is digits and `+` only |
| Validators.CleanPhoneNumberIdempotent | utils/validators.py:417-431 | cleaning twice is cleaning once |
| Validators.PlusSevenValidates | utils/validators.py:125-151 | `+7` followed by ten digits is accepted |
| Validators.CleanedRussianNumberValidates | utils/validators.py:417-431 | an 11-digit number starting with 7 or 8 cleans to `+7…`, which is accepted |
| Validators.Extension | utils/validators.py:244-271 | the extension contains no dot |
| Validators.LowerAll | utils/validators.py:244-271 | each allowed type is lower-cased |
| Validators.ValidateFileType | utils/validators.py:244-271 | accepted exactly when the extension is among the allowed types, lower-cased |
| Validators.ExtensionOfName | utils/validators.py:244-271 | `stem.ext` has the lower-cased extension `ext` |
| Validators.ValidateSubscriptionDaysAsWritten | utils/validators.py:343 | as written every positive day count raises |
| Validators.SubscriptionDaysAsWrittenRaises | utils/validators.py:325-348 | 30 days raises as written and is accepted by the corrected version |
| Validators.ValidateSubscriptionDays | utils/validators.py:325-348 | corrected (Findings row utils/validators.py:343): accepted exactly for integers from 1 to the maximum |
| Validators.RemoveChars | utils/validators.py:349-375 | no removed character remains, and the rest come from the input |
| Validators.ReplaceCharByNothing | utils/validators.py:360-363 | `replace(c, '')` removes that character |
| Validators.RemoveCharsTwice | utils/validators.py:360-363 | removing one set of characters and then another is removing both |
| Validators.DropEachRemoves | utils/validators.py:360-363 | the replace loop removes all dangerous characters |
| Validators.RemoveNothing | utils/validators.py:360-363 | removing no characters changes nothing |
| Validators.RemoveAbsentChars | utils/validators.py:360-363 | text without those characters is unchanged |
| Validators.JoinWordsLength | utils/validators.py:369 | collapsing whitespace never lengthens text |
| Validators.JoinWordsChars | utils/validators.py:369 | collapsing whitespace keeps only input characters and spaces |
| Validators.WordsOfJoin | utils/validators.py:369 | space-joined words split back into themselves |
| Validators.JoinedWordsHaveNoEdgeSpace | utils/validators.py:369 | joined words have no leading or trailing space |
| Validators.SanitizeInput | utils/validators.py:349-375 | no dangerous character, at most the maximum length, no edge space |
| Validators.SanitizedShape | utils/validators.py:349-375 | on non-empty text: no dangerous character, no longer than the limit or the input, no edge space |
| Validators.SanitizeIdempotent | utils/validators.py:349-375 | sanitizing twice is sanitizing once |
| Validators.SanitizeKeepsJoinedWords | utils/validators.py:349-375 | already clean text is kept |
| Validators.ValidateComment | utils/validators.py:376-401 | accepted exactly when empty, or short enough and free of HTML characters once stripped |
| Validators.SanitizedCommentAccepted | utils/validators.py:349-401 | a sanitized comment of default length is accepted |
| Helpers.GenerateInviteCode | utils/helpers.py:12-31 | `link_{u}_` followed by up to six hex digits |
| Helpers.FormatDuration | utils/helpers.py:59-89 | every wording that does not count months or a year starts with the day count and a space |
| Helpers.DurationWording | utils/helpers.py:59-89 | month wording exactly for 30 days or at least 60; plain day wording for 5–20 days |
| Helpers.Stars | utils/helpers.py:154 | n asterisks |
| Helpers.MaskSensitiveDataAsWritten | utils/helpers.py:142-161 | the mask as written, with `data[-visible:]`; `MaskAsWrittenLeaksWithZeroVisible` shows the leak at zero |
| Helpers.MaskAsWrittenLeaksWithZeroVisible | utils/helpers.py:153-160 | as written, zero visible characters lengthens the text and reveals it |
| Helpers.MaskAgreesForPositiveVisible | utils/helpers.py:142-161 | for positive visible counts the corrected mask is the original one |
| Helpers.MaskSensitiveData | utils/helpers.py:142-161 | corrected (Findings row utils/helpers.py:157): same length; short data fully masked; otherwise only the ends are visible |
| Helpers.TruncateText | utils/helpers.py:333-349 | short text is kept; long text is cut to the limit with the suffix |
| Helpers.TruncateShortLimitGrows | utils/helpers.py:333-349 | a limit shorter than the suffix makes the result longer than the limit |
| Helpers.Paginate | utils/helpers.py:241-272 | the page holds the right slice; the total pages cover the items; next and previous flags are right |
| Helpers.PagesUpToPrefix | utils/helpers.py:241-272 | the first k pages are a prefix of the items |
| Helpers.PagesCoverItems | utils/helpers.py:241-272 | all pages together are exactly the items |
| Helpers.FormatRemainingTimeText | utils/helpers.py:583-610 | the months, days and hours wording; `FormatRemainingTime` and `RemainingTimeMonths` state its cases |
| Helpers.FormatRemainingTime | utils/helpers.py:583-610 | "less than an hour" exactly when no day and no hour remain |
| Helpers.RemainingTimeMonths | utils/helpers.py:583-610 | more than 30 days is written as months and leftover days |
| Helpers.CheckFileType | utils/helpers.py:203-240 | empty names are an error; otherwise the extension decides validity |
| Helpers.ImageNameClassified | utils/helpers.py:203-240 | an image extension classifies as a valid image |
| Helpers.TrafficWarningLevel | utils/helpers.py:611-649 | critical exactly from 95 percent; fine exactly below 60 |
| Helpers.TrafficWarningMonotone | utils/helpers.py:611-649 | more usage never lowers the warning |
| Helpers.UsagePercentage | utils/helpers.py:566-582 | between 0 and 100, proportional, 0 without a quota |
| Helpers.OverQuotaIsCritical | utils/helpers.py:566-649 | usage at or over the quota is critical |
| Formatters.ReplaceCharByEscape | utils/formatters.py:345-352 | each `replace(c, '\\'+c)` escapes that character |
| Formatters.EscapeCharsConcat | utils/formatters.py:334-354 | escaping distributes over concatenation |
| Formatters.EscapeNothing | utils/formatters.py:334-354 | escaping no characters changes nothing |
| Formatters.EscapeTwice | utils/formatters.py:345-352 | escaping in two passes is escaping once with both sets |
| Formatters.EscapeFoldChars | utils/formatters.py:345-352 | the replace loop, backslash first, escapes each reserved character once |
| Formatters.ReservedShape | utils/formatters.py:345-350 | the reserved lists are duplicate-free and start with the backslash |
| Formatters.EscapeMarkdownV2 | utils/formatters.py:334-354 | a missing text is `-`; otherwise every reserved character is escaped |
| Formatters.Esc | utils/formatters.py:87-90 | an empty text is `-`; otherwise the helper's characters are escaped |
| Formatters.EscapeLength | utils/formatters.py:334-354 | escaping adds one character per reserved character |
| Formatters.UnescapeEscape | utils/formatters.py:334-354 | escaping can be undone |
| Formatters.EscapedIsPlain | utils/formatters.py:334-354 | escaped text has no unescaped reserved character |
| Formatters.MarkdownV2IsPlain | utils/formatters.py:334-354 | escaped text is plain and unescapes back to the input |
| Formatters.PlaceholderIsReserved | utils/formatters.py:87-90 | the `-` placeholder is not plain MarkdownV2 |
| Formatters.EscLeavesBracket | utils/formatters.py:87-90 | the helper leaves `]` unescaped, which MarkdownV2 reserves |
| Formatters.EscapeHtml | utils/formatters.py:8-13 | no HTML-special character remains and the result is never shorter than the text |
| Formatters.StatusEmoji | utils/formatters.py:224-233 | a known emoji exactly for a known status, in any case |
| Formatters.StatusEmojiIgnoresCase | utils/formatters.py:224-233 | the emoji does not depend on case |
| Formatters.DetermineUserStatus | utils/formatters.py:289-303 | disabled, expired, over limit or active, each exactly in its case, in that priority |
| Formatters.StatusExpiryStays | utils/formatters.py:289-303 | an expired user stays expired later |
| Formatters.PendingBlock | utils/formatters.py:184-192 | each request block ends with a blank line |
| Formatters.Listed | utils/formatters.py:175-198 | the first ten requests at most |
| Formatters.FormatPendingPayments | utils/formatters.py:175-198 | the pending-requests message; `PendingMessageShape` and `PendingListsFirstTen` state its shape |
| Formatters.PendingMessageShape | utils/formatters.py:175-198 | "no pending" exactly for no requests; a "more" line exactly beyond ten |
| Formatters.PendingBlocksEnd | utils/formatters.py:184-192 | a non-empty list ends with a blank line |
| Formatters.PendingListsFirstTen | utils/formatters.py:175-198 | the message depends only on the first ten requests and the count |
| Texts.LastIndex | texts/__init__.py:22 | the last occurrence of a character |
| Texts.Stem | texts/__init__.py:22 | the file name without its extension is a prefix of it |
| Texts.StemOfExtension | texts/__init__.py:22 | `stem.ext` has stem `stem` |
| Texts.FullKeyInjective | texts/__init__.py:39 | different keys in one category give different full keys |
| Texts.Lines | texts/__init__.py:17 | no line contains a newline |
| Texts.ParseLine | texts/__init__.py:17-22 | a line with `=` sets its key; any other line sets the file-stem key |
| Texts.ParseLines | texts/__init__.py:13-23 | the messages of a file, a later line winning; `ParseLinesStep`, `ValueKeepsEquals` and `PlainLineOverwrites` state it |
| Texts.ParseLinesStep | texts/__init__.py:13-23 | parsing one more line applies `ParseLine` to it |
| Texts.ValueKeepsEquals | texts/__init__.py:19-20 | `key=value` parses to that key and value |
| Texts.PlainLineOverwrites | texts/__init__.py:21-22 | a line without `=` overwrites the stem key |
| Texts.Prefixed | texts/__init__.py:38-40 | every message is stored under its full key, and nothing else |
| Texts.FirstIndex | texts/__init__.py:54 | the first occurrence of a character |
| Texts.ArgName | texts/__init__.py:54 | the field name stops at `.`, `[`, `!` or `:` |
| Texts.FormatLiteral | texts/__init__.py:54 | text without braces formats to itself |
| Texts.ArgNameStops | texts/__init__.py:54 | a shorter field name stops at a separator |
| Texts.PlainArgName | texts/__init__.py:54 | a plain name is the field name |
| Texts.ClosingBrace | texts/__init__.py:54 | a plain field name ends where the `}`, `:` or `!` after it stands |
| Texts.FormatAtField | texts/__init__.py:54-56 | `{name}` is replaced by its argument, or reports the missing key |
| Texts.FormatCopies | texts/__init__.py:54 | ordinary characters are copied |
| Texts.FormatField | texts/__init__.py:54-56 | text before a field is copied, the field replaced, a missing key reported |
| Texts.Format | texts/__init__.py:54-58 | `str.format` over keyword arguments: each field is parsed before its name is looked up, so syntax errors win over a missing key (`FormatLiteral`, `FormatField`, `ConversionCheckedFirst`, `UnclosedSpecReported`) |
| Texts.ConversionCheckedFirst | texts/__init__.py:54-58 | a conversion not followed by `}` or `:` is the ValueError "expected ':' after conversion specifier", supplied name or not |
| Texts.SpecRunsOut | texts/__init__.py:54 | a format spec without braces never closes the field |
| Texts.UnclosedSpecReported | texts/__init__.py:54-58 | a field whose spec runs to the end of the template is the ValueError "unmatched '{' in format spec", supplied name or not |
| Texts.Report | texts/__init__.py:53-58 | every format outcome is reported except the unmodelled ones; a missing key as `Missing format key: ` and the key's `repr` |
| Texts.Lookup | texts/__init__.py:49-59 | without arguments the stored text or the key itself; a document with arguments reports a format error |
| Texts.JsonLookup | texts/__init__.py:61-63 | the stored document or an empty one |
| Texts.FormatPlaceholder | texts/__init__.py:54-56 | a template that is one placeholder formats to its argument, or is a `KeyError` for the name |
| Texts.MissingKeyQuiet | texts/__init__.py:55-56 | a missing key without quotes, backslashes or control characters is reported in single quotes |
| Texts.LookupPlaceholder | texts/__init__.py:49-59 | a one-placeholder text formats to its argument or names the missing key by its `repr`, which is the key in single quotes when it has no quote, backslash or control character |
| Texts.LoadFile | texts/__init__.py:33-47 | one file of the walk: `.txt` lines under their full keys, `.json` under its dotted key, others nothing; `JsonFileKey` states the document case |
| Texts.LoadAll | texts/__init__.py:30-47 | the files loaded in walk order; `DocKeysHaveNoSlash` and `LoadAllTexts` state it |
| Texts.DocKeysHaveNoSlash | texts/__init__.py:41-47 | documents are stored under dotted keys only |
| Texts.JsonFileKey | texts/__init__.py:41-47 | `dir/stem.json` is found under `dir.stem` |
| Texts.TextManager.constructor | texts/__init__.py:8-11 | the cache is loaded from all files |
| Texts.TextManager.LoadTextFile | texts/__init__.py:13-23 | the loop builds exactly `ParseLines` of the file |
| Texts.TextManager.ReadLine | texts/__init__.py:17-22 | one line read is one `ParseLine` step |
| Texts.TextManager.LoadAllTexts | texts/__init__.py:30-47 | the cache becomes `LoadAll` of the files |
| Texts.TextManager.AddMessages | texts/__init__.py:38-40 | the cache gains the prefixed messages |
| Texts.TextManager.Get | texts/__init__.py:49-59 | an unknown key without arguments returns the key |
| Texts.TextManager.GetJson | texts/__init__.py:61-63 | an unknown key returns an empty document |
| Texts.StepPrefixed | texts/__init__.py:38-40 | one loop step stores one more prefixed message |
| Texts.PrefixedAdd | texts/__init__.py:38-40 | adding a message adds its prefixed entry |
| PyStr.ParseIntRoundTrip | handlers/payment_handlers.py:420 | `int(str(n)) == n` |
| PyStr.IntToStringInjective | handlers/payment_handlers.py:107 | different ids have different texts |
| PyStr.IntToStringHasNoSeparators | bot_coordinator.py:204 | an id's text contains no `_` |
| PyStr.JoinSplit | config.py:14 | splitting a join on a separator not in the parts recovers them |
| PyStr.SplitJoin | bot_coordinator.py:204 | joining a split recovers the text |
| PyStr.StripShape | config.py:15 | strip removes leading and trailing whitespace only |
| PyStr.Repr | texts/__init__.py:55-56 | `repr` of a string is quoted at both ends and never shorter than the string plus its quotes |
| PyStr.ReprQuiet | texts/__init__.py:55-56 | a string without `'`, `\` or control characters has `repr` `'s'` |

## Left out

- HTTP, Telegram delivery, `asyncio` and concurrency are outside the model. Panel and Telegram outcomes are parameters, and two administrators racing is modelled as two handler calls in sequence (`Settlement`).
- SQLite itself is outside the model. Each table is a map or a sequence, storage errors are `fault` parameters, and the connection handling is not modelled.
- Floating-point formatting is left out (`bytes_to_human`, `format_currency`, `calculate_discount`, `calculate_subscription_price`, `format_file_size`). Amounts are `real` and percentages are exact rationals.
- Date and time formatting is left out (`format_timestamp`, `get_time_until_expiry`, `get_subscription_days_left`). Times are epoch seconds.
- Randomness and hashing are parameters: the invite hash, `generate_secure_password`, `generate_transaction_id` and the `manual_` stamp.
- `Panel.SubMarker` writes out `re.sub` with the pattern `Telegram ID: \d+[^|]*` of update_user_note: every match, left to right, is the marker, at least one digit and everything up to the next `|`. The replacement is inserted literally. `re.sub` would also interpret backslash escapes in it, and the sync notes never contain a backslash.
- `get_users_by_telegram_id_partial`, `get_payment_history`, `update_user_status`, `get_setting` and `set_setting` are not modelled. No core flow depends on them.
- The subscription handlers, bot_handlers.py, utils/text_validator.py, the usage-statistics calls and the menu keyboards are not part of this model.
- Message texts are not modelled. Replies are constructors and the exact wording is left out. The formatters' wording is modelled only where a property depends on it.
- `Repository.Database.GetPendingPaymentRequests` orders by descending request id in place of `ORDER BY created_at DESC` (database_manager.py:161). Requests created within the same second, which SQLite may return in either order, and a clock that steps back are not modelled.
- `Reconcile.AutoImportUsers` and `Reconcile.AutoImportUsersAsWritten` take the panel listing as a parameter. `get_all_users` asks for one page, offset 0 and limit 1000 (marzban_api.py:452, :461). With more than 1000 panel users the listing is only that page, and both versions then delete the local accounts of the users beyond it. The model states its results in terms of the listing it is given.
- `Texts.TextManager.LoadAllTexts`: a `.json` file that `json.load` rejects raises at start-up (texts/__init__.py:27-28). The model takes each document as already parsed.
- `Texts.Lines` ends a line only at `\n`. Python's text-mode reading with universal newlines also ends a line at a lone `\r`. A `\r` before `\n` is removed by the strip of each line, but files with lone `\r` line ends are not modelled.
- `Panel.PanelClient.CreateNewUser`: polling for the created user is a sequence of observations `seen`, not a timed retry loop.
- `Validators.ValidateUsername`: the reserved-name list is fixed as in the source, and the messages are not looked up.
- `Texts.Format` parses every field as `str.format` does and reports its syntax errors, the index errors of numeric names and the missing key. A conversion, a format spec or attribute or index access applied to a supplied argument is not evaluated and reports `Unmodelled`.
- `PyStr.Repr` escapes only ASCII control characters, `\x7f`, the backslash and the quote. Non-ASCII characters are treated as printable, so Python's escapes for unprintable non-ASCII characters are not modelled.
- `PyStr.IsDigit`, `PyStr.Lower` and `Validators.ValidatePhoneNumber` are ASCII-only. Python's `isdigit`, `lower` and `\d` also accept other Unicode digits and letters: `'²'.isdigit()` is true, so `int('²')` raises in config.py:16, and Arabic-Indic digits pass the phone check. The model treats such characters as non-digits and leaves non-ASCII letters as they are.
- `Coordinator.DecodeAsWritten` decodes `download_app` to `DownloadApp`, but the dispatcher then calls `download_app_callback`, which the user handlers do not define (bot_coordinator.py:168; only `download_app_command` exists). The press therefore ends in the dispatcher's generic error answer. Handling the decoded actions is not part of this model.

## Findings

| source | as written | input that shows it | evidently intended | confidence | as-written member | corrected member |
|---|---|---|---|---|---|---|
| database_manager.py:368 | the substring test `Telegram ID: {id}` in notes treats id 12 as present in notes recording id 123 | notes `Telegram ID: 123`, id 12 | record 12 unless the whole marker is present | not executed | Repository.AddIdAsWrittenSkipsPrefixId | Repository.AddIdToNotesRecordsPrefixId |
| handlers/admin_handlers.py:219 | the same substring test makes the notes sync skip id 12 | notes `Telegram ID: 123`, id 12 | sync unless the whole marker is present | not executed | Admin.SyncAsWrittenSkipsPrefixId | Admin.SyncTelegramNotesCommand |
| marzban_api.py:375-381 | substituting a marker by an equal one leaves the note unchanged, which then triggers the append | note `Telegram ID: 5`, re-sync of id 5 | the note stays as it is | not executed | Panel.MergeAsWrittenRepeatsMarker | Panel.MergeNoteIdempotent |
| utils/helpers.py:157 | `data[-0:]` is the whole string | `mask_sensitive_data("ab", 0)` gives `**ab` | `**` | not executed | Helpers.MaskAsWrittenLeaksWithZeroVisible | Helpers.MaskSensitiveData |
| utils/validators.py:343 | `config.LIMITS` does not exist, so every positive day count raises | `validate_subscription_days(30)` | accept 1 to 365 | not executed | Validators.SubscriptionDaysAsWrittenRaises | Validators.ValidateSubscriptionDays |
| utils/validators.py:26 | messages are looked up by the path `validators/validation_messages.json`, but documents are stored under dotted keys | any username | look up `validators.validation_messages` | not executed | Validators.UsernameAsWrittenAlwaysRaises | Validators.ValidateUsername |
| handlers/admin_handlers.py:355 | `get_all_users` is not a store method, so the command raises for every admin | `/cleanup_accounts` by an admin | list the local accounts | not executed | Admin.CleanupAccountsCommandAsWritten | Admin.CleanupAccountsCommand |
| handlers/payment_handlers.py:393 | the failure log refers to an undefined `request` | `/confirm_payment u 1` when the user notice fails | log the username | not executed | PaymentHandlers.ConfirmPaymentCommandAsWritten | PaymentHandlers.ConfirmPaymentCommand |
| handlers/registration_handlers.py:137 | `ADMIN_NOTIFICATIONS` is not a configuration attribute, so every registration raises after the account is created | username `alice` registered | notify the admins | not executed | Registration.ProcessUsernameInputAsWritten | Registration.ProcessUsernameInput |
| bot_coordinator.py:202-212 | a username containing `_` splits into more than three parts, so the plan id becomes `1_my_name` | button `plan_1_my_name` | plan 1 for account `my_name` | not executed | Coordinator.UnderscoredAccountLosesPlan | Coordinator.PlanButtonRoundTrip |
| main.py:148 | a failed panel listing (`None`) becomes `[]`, and every local account is then deleted as absent | panel listing fails at start-up | keep the local accounts | not executed | Reconcile.AutoImportUsersAsWritten | Reconcile.AutoImportUsers |
