# Verified model of the operator panel and the embeddable game widget

A Dafny 4.11 model of two programs: the panel with which operators manage tenants, and the widget
that tenants embed to let visitors play. `dafny verify dfyconfig.toml` checks the whole project.

What is modelled, one module per component:

- **Tenant writes and their audit trail** (`Tenants`, `TenantAudit`, `TenantRequests`, `AuditQuery`). Each write handler
  reads a tenant and later commits a mutation together with one audit row; any number of requests
  interleave between the two steps. Each stored request changes what it asked for and its row says so; the
  trail rebuilds the tenants; the viewer's query, assembled as
  text with numbered parameters, means the plain filter.
- **Operator sessions** (`OperatorPassword`, `SessionCookie`, `OperatorSessions`, `AdminServer`,
  `Routing`). Who is authorized is characterised on the history of a whole run: login, logout, disable,
  enable, grant, revoke and the clock. The stored password hash and the session cookie are printed and
  read back. Route resolution is compared with a decision tree that knows no table.
- **The widget's run** (`Grouping`, `WidgetRun`, `Widget`, `Greeting`). Boot, resume, presence
  broadcasts, joins, retries and leaving as one event-driven machine, with the catalog grouping, the
  two lobby screens and the lobby's dealt hand.
- **Focus continuity** (`Selectors`, `FocusContinuity`, `FocusIdentity`, `FocusDocument`). A position in a tree is
  compiled to three selector texts, the tree is rebuilt, and the texts are read and evaluated again;
  where the focus lands is also told on attributes and positions alone.
- **The dice sound** (`DiceNoise`, `Rattle`, `DicePlayer`). The xorshift walk, the two coprime cycles
  and the player with its voices.

`Optional`, `Text`, `Decimal` and `Base64` hold what several modules share. Code that changes state in
place is modelled by classes and methods whose contracts tie the new state to a step of the run; what
is proved about runs is proved about those steps.

Where the code and its own documentation disagree, or a promise holds only under a condition, the code
is followed and the exact condition is proved:

- The theme handler's audit row records the raw theme, not the sanitized one that is stored
  (`LiteralReplayIffThemesAreClean`).
- `before` is the value at the request's read, which another commit can overtake
  (`OvertakenBeforeIsStale`). It is the value the commit found if and only if it is what the last row
  touching the field left there, or no row touches it (`BeforeIsCurrentIff`).
- A session inserted after its operator was disabled survives until the operator is enabled again:
  disabling finds no row to delete yet (`DisableBetweenVerifyAndInsert`), so `AuthorizedIff` counts
  disables from the insert.
- The closing paint of a fresh boot does not ask the departure gate. On a catalog of one family with
  several entries a join can be under way by then (`GateHoldsInEveryRunIffQuietBoot`).
- An identity value with a newline makes the captured selector text invalid and restoring throws
  (`RestoreThrowsIffNewline`). U+0000 in a value is replaced by the reader, so the round trip can end
  elsewhere (`NulIdentityGoesElsewhere`). `RoundTripIff` and `RestoreLandsHonestly` cover both: they
  speak of the selectors as their texts are read (`EscapeRoundTrips` says when that is what was printed).
- No two ticks of a rattle at one pitch sound the same, by the player's comment. Four pairs do
  (`SameSoundIff`).
- An undecodable second segment throws during resolution even where no route has the remaining
  segments (`ThrowsIff`).
- The in-memory tenant adapter looks the tenant up before it checks the window; the Postgres adapter
  checks the window first. `Tenants.Apply` follows the Postgres one, the class the in-memory one.

Premises of the runs: one `host-hello`, each join attempt settles once, no message arrives on a
connection after it was left, storage works; for sessions, unique usernames and, where said, fresh
tokens under an injective hash.

## Model

| member | source | states |
|---|---|---|
| `TenantAudit.TrailRebuildsTenants` | apps/admin/src/tenant-handlers.ts:99-369 | For every interleaving of the read and commit steps of any number of requests, folding the audit rows' `after` values in commit order gives exactly the stored tenant table (themes through the sanitizer) |
| `TenantAudit.StepKeepsInv` | apps/admin/src/tenant-handlers.ts:208-335 | Each read, commit or failed transaction keeps: the trail replays to the table, every pending request holds what its handler computed at its read, every row is explained by its request, embed keys stay unique |
| `TenantAudit.CommitExtendsReplay` | packages/platform-core/src/postgres-tenant-admin-repository.ts:79-105 | The transaction that stores a write adds one row whose replay is that write, and no tenant's `validFrom` moves |
| `TenantAudit.ValidFromNeverChanges` | apps/admin/src/tenant-handlers.ts:264-299 | No run changes any tenant's `validFrom`, although the window write replaces the whole window with a value read earlier |
| `TenantAudit.BeforeIsTheValueAtRead` | apps/admin/src/tenant-handlers.ts:203-225 | A row's `before` is the folded value of the field at that request's own read (for a creation, at its commit) |
| `TenantAudit.BeforeIsCurrentIff` | apps/admin/src/tenant-handlers.ts:203-225 | Exactly when `before` is the value its commit found: always if no earlier row touches the field (or it is the identifier), otherwise if and only if it is what the last touching row left there - for a creation that does not record the field, the empty record's value. The trail alone decides it |
| `TenantAudit.BeforeIsCurrentUnlessOvertaken` | apps/admin/src/tenant-handlers.ts:208-335 | In particular: if no other write to the field committed between the read and the commit, `before` is the folded value at the commit |
| `TenantAudit.OvertakenBeforeIsStale` | apps/admin/src/tenant-handlers.ts:215-221 | A concrete interleaving of two origin edits after which the second row's `before` is out of date, so the second case above occurs |
| `TenantAudit.TrailIsAChain` | apps/admin/src/tenant-handlers.ts:208-335 | Two successive rows on one field, the second read after the first, chain: the later `before` is what the earlier `after` became |
| `TenantAudit.AsManyRowsAsSuccesses` | apps/admin/src/audit-log.ts:106-129 | Over a run the trail only grows, by exactly the number of 200 and 201 answers |
| `TenantAudit.RawReplayDiffersOnlyInThemes` | apps/admin/src/tenant-handlers.ts:356-362 | Replaying the recorded raw themes without the sanitizer gives the stored tenants up to sanitizing the themes that rows set |
| `TenantAudit.LiteralReplayIffThemesAreClean` | apps/admin/src/tenant-handlers.ts:353-362 | The literal replay equals the stored table if and only if every theme the trail ends on is left unchanged by the sanitizer |
| `TenantAudit.PreparedBefore` | apps/admin/src/tenant-handlers.ts:99-362 | What each of the six handlers puts under `before`, and which of them records a creation |
| `TenantRequests.CommitCarriesItsRequestOut` | apps/admin/src/tenant-handlers.ts:99-369 | From the request to its row, over every run and interleaving: a commit settles the well-formed request received under its number and still held; its status is what the request meets on the table then (409, 404 or 400, else 201 or 200); if stored, exactly the named tenant changes in exactly the field asked for, or is created, and the one row appended is the sender's and records just that field |
| `TenantRequests.EveryRowCarriesItsRequestOut` | apps/admin/src/tenant-handlers.ts:99-369 | The trail alone says it too: each row carries out, on the table the rows before it rebuild, the request behind it, and names the action, tenant, sender and field of that request |
| `TenantRequests.StoredIsCarriedOut` | apps/admin/src/tenant-handlers.ts:208-363 | Storing a write prepared at any earlier read does what its request asks to the table as it is at the commit: origins and games as listed, the paid-through instant with the start kept, the fresh key, the sanitized theme |
| `TenantRequests.CommitAnswers` | apps/admin/src/tenant-handlers.ts:112-113 | Which committed request answers 409, 404 and 400, said on the table: an identifier or key in use, an absent tenant, a window that ends before the stored start |
| `TenantRequests.MalformedIsAnswered` | apps/admin/src/tenant-handlers.ts:99-363 | Exactly the malformed requests are answered at once, with 400 and the error of the first check that fails; all others are held for their commit |
| `TenantRequests.ReceivingAnswers` | apps/admin/src/tenant-handlers.ts:208-220 | So receiving answers 400 or holds the request, never both and never neither |
| `TenantRequests.PendingIsHeld` | apps/admin/src/tenant-handlers.ts:208-221 | Over every run what is pending is a well-formed request received under that number with neither a commit nor a failure since |
| `TenantAudit.TenantPanel.Transact` | packages/platform-core/src/postgres-tenant-admin-repository.ts:79-105 | Mutation and witness apply together or, on a refusal or a throw of either, table and trail are what they were |
| `TenantAudit.TenantPanel.Receive` | apps/admin/src/tenant-handlers.ts:208-220 | The handler's first step: validation answers at once, otherwise the request is pending with what it read |
| `TenantAudit.TenantPanel.Commit` | apps/admin/src/tenant-handlers.ts:221-224 | The handler's second step, tied to the run's step, with its status code |
| `Tenants.WriteKeepsWellKeyed` | packages/platform-core/src/tenant-admin.ts:137-189 | No write, refused or stored, ever makes two tenants share an embed key or files one under a foreign id |
| `Tenants.WindowRefusedIff` | packages/platform-core/src/tenant-admin.ts:181-189 | A window is refused if and only if it has both ends and does not end after it starts |
| `Tenants.StaticTenantAdminRepository.IndexAnswersTheScan` | packages/platform-core/src/tenant-admin.ts:121-174 | While the two maps are images of each other, looking a key up answers the uniqueness question a scan of the table would |
| `Tenants.StaticTenantAdminRepository.Create` | packages/platform-core/src/tenant-admin.ts:137-145 | Stores a record with the given key, origins and games, no window and the sanitized theme, or refuses, exactly as the table specification says; both maps stay images of each other |
| `Tenants.StaticTenantAdminRepository.RotateEmbedKey` | packages/platform-core/src/tenant-admin.ts:171-180 | The same for rotation: the old key is forgotten, the new one indexed |
| `Tenants.StaticTenantAdminRepository.SetValidityWindow` | packages/platform-core/src/tenant-admin.ts:181-189 | The same for the window, with this adapter's order of checks |
| `Tenants.StaticTenantAdminRepository.UpdateAllowedOrigins` | packages/platform-core/src/tenant-admin.ts:146-153 | The same for origins |
| `Tenants.StaticTenantAdminRepository.UpdateEntitledGames` | packages/platform-core/src/tenant-admin.ts:154-161 | The same for games |
| `Tenants.StaticTenantAdminRepository.UpdateTheme` | packages/platform-core/src/tenant-admin.ts:162-170 | The same for the theme, sanitized on its way in |
| `TenantAudit.WriteSettlesItsFields` | apps/admin/src/tenant-handlers.ts:99-362 | What a recorded `after` makes of its field when the row is replayed: itself, a theme sanitized |
| `AuditQuery.BuildWhere` | apps/admin/src/audit-query.ts:81-106 | For every subset of the filters, the text assembled under the five branches reads back as conditions whose k-th one names the k-th value, and with the values bound selects exactly the rows the filters mean |
| `AuditQuery.WhereTextReads` | apps/admin/src/audit-query.ts:87-106 | The joined clause, cut at its spaces by a reader, is the list of conditions pushed, in order, with their parameter numbers |
| `AuditQuery.PushedCondition` | apps/admin/src/audit-query.ts:85-104 | Pushing a value and a condition naming the new length adds that comparison and changes no earlier condition's meaning |
| `AuditQuery.ExecuteReturnsNewest` | apps/admin/src/audit-query.ts:107-113 | Any clause that means the filters makes the database return the newest two hundred satisfying rows in (time, id) descending order, every omitted one sorting after all returned |
| `AuditQuery.NewestIsUnique` | apps/admin/src/audit-query.ts:107-113 | There is only one such list |
| `AuditQuery.ListingIsTheTrailBackwards` | apps/admin/src/audit-query.ts:107-123 | Under a clock that does not run back, a list is that answer if and only if it is the satisfying part of the trail, last first, cut at two hundred |
| `AuditQuery.ListingShowsTheLatest` | apps/admin/src/audit-query.ts:81-124 | From the entries appended to the entries listed: under such a clock the viewer shows the last two hundred entries whose own actor, tenant, action and time meet the filters, newest first, each with what its handler wrote |
| `AuditQuery.StoredAsWritten` | apps/admin/src/audit-log.ts:114-129 | A stored entry meets the filters, and is shown, by the entry's own values |
| `AuditQuery.AuditLog.AppendAuditEntry` | apps/admin/src/audit-log.ts:114-129 | Appends one row that shows the entry's own values, absent fields stored as NULL coming back absent, so that the table holds one more entry in order |
| `AuditQuery.AuditLog.ListAuditEntries` | apps/admin/src/audit-query.ts:81-124 | The entries listed are the views of the newest two hundred satisfying rows, and no other rows would qualify |
| `OperatorSessions.AuthorizedIff` | apps/admin/src/authorization.ts:81-106 | Over every run a request is authorized as an operator if and only if its token's session was inserted by a login that verified the enabled account, has been neither logged out nor disabled since, has not expired, and the account is enabled and holds the permission now |
| `OperatorSessions.RefusedIff` | apps/admin/src/authorization.ts:81-106 | Over every run, each refusal if and only if, on the history and the current rows: no session when the header carries no live one, expired when the live one is out of time, disabled when it is in time and its operator disabled whatever the route asks for, a missing permission only for an enabled operator who lacks it; who is let through has the current name and permissions |
| `OperatorSessions.CarriedIsStored` | apps/admin/src/authorization.ts:81-87 | The live session a header carries by the history is the one row stored under its token's hash, and its operator exists |
| `OperatorSessions.ExpiredAfterEightHours` | apps/admin/src/authorization.ts:88-89 | A session is refused as expired only eight hours or more after its login verified |
| `OperatorSessions.ClockIsTheLatestTick` | apps/admin/src/authorization.ts:88-88 | The clock these compare with is the latest one the run was given |
| `OperatorSessions.SessionsAreTheUnended` | apps/admin/src/login-handler.ts:110-118 | The session table is exactly what the history says: rows inserted after a verified login and not ended since |
| `OperatorSessions.StepOnSession` | apps/admin/src/logout-handler.ts:44-50 | One event adds a row exactly by inserting it and removes one exactly by logging it out or disabling its operator |
| `OperatorSessions.AuthorizedWithinEightHours` | apps/admin/src/login-handler.ts:110-118 | Whoever is authorized at the end of a run verified, with that token, less than eight hours earlier by the run's clock |
| `OperatorSessions.LoggedOutStaysOut` | apps/admin/src/logout-handler.ts:32-50 | With fresh tokens and an injective hash, a live token once logged out is refused as no session ever after, whatever happens in between |
| `OperatorSessions.GoneStaysGone` | apps/admin/src/login-handler.ts:110-118 | A generated token whose row is nowhere never gets one again |
| `OperatorSessions.DisableBetweenVerifyAndInsert` | apps/admin/src/login-handler.ts:93-118 | A concrete run in which a disable lands between verification and insert, so the session outlives it: why the condition above counts from the insert |
| `OperatorSessions.AccountsFollowTheirHistory` | packages/platform-core/src/operator-lifecycle.ts:35-75 | Over every run an account is enabled exactly as its last enable or effective disable left it, and holds a permission exactly as its last grant or effective revoke did |
| `OperatorSessions.ManagerNeverLost` | packages/platform-core/src/last-account-manager.ts:77-128 | Once some enabled operator can manage accounts, every run keeps one |
| `OperatorSessions.GuardRefusesTheLast` | packages/platform-core/src/last-account-manager.ts:77-128 | What the guard undoes: disabling an operator, or revoking the right to manage accounts, exactly when nobody else is enabled and holds it |
| `OperatorSessions.LoginBooksBalance` | apps/admin/src/login-handler.ts:81-120 | Over any run, comparisons equal the requests every consulted limiter granted, each limiter was asked exactly by the requests that reach it, and verified comparisons equal the sessions created plus the inserts pending or refused |
| `OperatorSessions.RefusedAddressesSpendNoUsername` | apps/admin/src/login-handler.ts:62-91 | Over any run each complete request either was stopped by its address and spent nothing of any username's budget, or spent one unit of its own |
| `AdminServer.AdminServer.AuthenticateOperator` | apps/admin/src/operator-password.ts:158-168 | Exactly one comparison on every path; yes only for an enabled account whose own hash compares |
| `AdminServer.AdminServer.ConsultLimiters` | apps/admin/src/login-handler.ts:86-91 | Address first, if there is one; a refused address leaves the username limiter unasked |
| `AdminServer.AdminServer.Verify` | apps/admin/src/login-handler.ts:93-112 | The account's row, one comparison, and a token pending only if it says yes |
| `AdminServer.AdminServer.HandleLoginRequest` | apps/admin/src/login-handler.ts:81-112 | The login's steps up to the verified token, tied to the run's step: no limiter for missing credentials, the username limiter only if the address was not refused, no comparison unless both granted, no token unless it verified |
| `AdminServer.AdminServer.CreateSession` | apps/admin/src/login-handler.ts:113-118 | The awaited insert, tied to the run's step |
| `AdminServer.AdminServer.HandleLogoutRequest` | apps/admin/src/logout-handler.ts:44-50 | Deletes the token's row, tied to the run's step; that cookie is then no session for any guard |
| `AdminServer.AdminServer.DisableOperator` | packages/platform-core/src/operator-lifecycle.ts:35-45 | Flag and sessions change together or not at all, tied to the run's step |
| `Routing.OrderIsIrrelevant` | apps/admin/src/routing.ts:167-181 | Any table with the same entries in any order resolves every request, the throwing ones included, as a decision tree that never sees the table |
| `Routing.AtMostOneEntryMatches` | apps/admin/src/routing.ts:115-129 | At most one entry matches a request, and no entry throws on a request another one matches |
| `Routing.ResolveAdminRoute` | apps/admin/src/routing.ts:167-181 | The scan over the written table returns what the decision tree says, asset paths first |
| `Routing.MatchSegments` | apps/admin/src/routing.ts:115-129 | The loop that fills the parameters computes the recursive match |
| `Routing.MatchCapturing` | apps/admin/src/routing.ts:115-129 | What matching a pattern with one captured segment means: no match, a throw, or that one decoded parameter |
| `Routing.SegmentsOfPath` | apps/admin/src/routing.ts:104-106 | Cutting a path put together from segments gives those segments back |
| `Routing.RenderThenResolve` | apps/admin/src/routing.ts:57-99 | Rendering any route with a non-empty, slash-free, decodable segment resolves to that route, its guard and the decoded parameter |
| `Routing.BypassIff` | apps/admin/src/routing.ts:148-165 | Of everything a request can resolve to, exactly login-form, login-submit, logout, asset and not-found go round the checkpoint |
| `Routing.ThrowsIff` | apps/admin/src/routing.ts:115-129 | Resolution throws if and only if the request has the method, length and first segment of a capturing entry and an undecodable second segment, also where no entry has the rest |
| `Routing.AssetIff` | apps/admin/src/routing.ts:140-146 | An asset route carries exactly the bare names behind the prefix |
| `Routing.GuardedHandlerRunsIff` | apps/admin/src/index.ts:327-349 | End to end over any run: a handler behind the checkpoint runs for an operator if and only if that operator is enabled, holds the permission the route names if it names one, and owns the cookie's live, unexpired session |
| `Routing.RefusalStatusIff` | apps/admin/src/authorization.ts:188-201 | And otherwise the checkpoint answers 403 if and only if the enabled operator of a live session in time lacks what the route names, and 401 if and only if there is no such session, it ran out, or its operator is disabled |
| `Routing.PermissionByFirstSegment` | apps/admin/src/routing.ts:76-99 | Whatever resolves under `operators` needs `operators.manage`, under `tenants` one of the five tenant permissions, under `audit` `audit.view`; account pages need a session, the login page nothing |
| `Routing.RequestsAboutATenant` | apps/admin/src/routing.ts:87-90 | What each change of a tenant resolves to, however its slashes stand: route, literal permission, decoded id |
| `Routing.MoreRequestsAboutATenant` | apps/admin/src/routing.ts:85-91 | The same for seeing a tenant and for changing its key |
| `Routing.RequestsAboutAnOperator` | apps/admin/src/routing.ts:94-95 | The same for enabling and disabling an operator |
| `Routing.MoreRequestsAboutAnOperator` | apps/admin/src/routing.ts:96-97 | The same for granting and revoking a permission |
| `Routing.PlainRequests` | apps/admin/src/routing.ts:77-80 | The same for login, logout and the own password |
| `Routing.TenantListRequests` | apps/admin/src/routing.ts:84-86 | The same for the tenant list and the creation of one |
| `Routing.OperatorListRequests` | apps/admin/src/routing.ts:92-93 | The same for the operator list and the creation of one |
| `Routing.AuditRequests` | apps/admin/src/routing.ts:98 | The same for the audit log |
| `SessionCookie.RecoversFirstSession` | apps/admin/src/session-cookie.ts:110-121 | The parser recovers the token of the first session pair, whatever other pairs surround it and however it is padded |
| `SessionCookie.FirstSessionOfJoin` | apps/admin/src/session-cookie.ts:110-121 | In general: the first session pair's trimmed value decides, an empty one being no session |
| `SessionCookie.NoSessionPairNoSession` | apps/admin/src/session-cookie.ts:110-121 | A header naming no session cookie yields none |
| `SessionCookie.HeadersRoundTrip` | apps/admin/src/session-cookie.ts:70-100 | Reading what login prints gives the token; reading what logout prints gives no session |
| `SessionCookie.HeaderAttributes` | apps/admin/src/session-cookie.ts:88-100 | Cut as a user agent cuts it, a printed header is the cookie, then `HttpOnly`, `SameSite=Strict`, `Path=/`, one age reading back as the seconds asked for, no `Domain`, and `Secure` if and only if asked |
| `SessionCookie.HeaderAges` | apps/admin/src/session-cookie.ts:70-86 | A login's cookie lasts 28800 seconds, eight hours; a logout's has an empty value and age 0 |
| `SessionCookie.Base64UrlIsCarriable` | apps/admin/src/session-cookie.ts:42-44 | Every unpadded base64url text can be such a token |
| `SessionCookie.GeneratedTokensRoundTrip` | apps/admin/src/session-cookie.ts:42-72 | A token made of any random bytes goes through the login header and back |
| `SessionCookie.ParseSessionCookie` | apps/admin/src/session-cookie.ts:110-121 | The loop with its early return computes the first-session specification |
| `SessionCookie.BuildCookieHeader` | apps/admin/src/session-cookie.ts:88-100 | The list pushed in place and joined is the printed header |
| `OperatorPassword.ParseInvertsFormat` | apps/admin/src/operator-password.ts:72-95 | Parsing inverts the stored text for all cost parameters, salts and keys |
| `OperatorPassword.VerifiesByItsOwnParameters` | apps/admin/src/operator-password.ts:97-110 | A stored hash is checked with the parameters it names, whatever today's constants are, and checking throws exactly when scrypt throws on those |
| `OperatorPassword.HashedPasswordVerifies` | apps/admin/src/operator-password.ts:72-110 | The password just hashed verifies, and another one exactly when it derives the same key |
| `OperatorPassword.StoredText` | apps/admin/src/operator-password.ts:56-76 | The stored text of a fresh hash, literally: `scrypt$32768$8$1$`, salt and 32-byte key in base64 |
| `OperatorPassword.LastPasswordVerifies` | apps/admin/src/own-password-handler.ts:52-63 | After any interleaving of account creations and own-password changes, the stored hash of an account is a hash of the last password set for it, which verifies; untouched accounts keep theirs |
| `OperatorPassword.PendingIsOnItsWay` | apps/admin/src/own-password-handler.ts:32-59 | Over every run a change waits to be written if and only if a request asked for it with two non-empty passwords, the current one verifying against the hash the account had then, and has not written it since |
| `OperatorPassword.HashesChangeOnlyOnRequest` | apps/admin/src/own-password-handler.ts:47-59 | No event changes the hash of an account that is there, unless it writes such a change, and then to a hash of the new password |
| `OperatorPassword.OnlyTheLastPasswordAsks` | apps/admin/src/own-password-handler.ts:47-50 | Who asked gave the last password set for the account, or one that derives the same key |
| `OperatorPassword.AccountsStayWellNamed` | apps/admin/src/login-handler.ts:93-96 | No run gives two accounts one username or an account none, and no run sets an empty password |
| `Base64.DecodeOfEncode` | apps/admin/src/operator-password.ts:75-94 | Base64 decoding inverts encoding, standard or url alphabet (section 4 of RFC 4648) |
| `Base64.KnownEncodings` | apps/admin/src/operator-password.ts:75-75 | The encoder gives the test vectors of section 10 of RFC 4648, padded and unpadded |
| `Base64.KnownAlphabets` | apps/admin/src/session-cookie.ts:42-44 | ... and the two characters in which the alphabets differ stand where they should |
| `Decimal.ReadOfPrint` | apps/admin/src/operator-password.ts:75-94 | Reading a printed whole number gives the number |
| `Text.SplitOfJoin` | apps/admin/src/operator-password.ts:75-87 | `split` undoes `join` when no field contains the separator |
| `FocusContinuity.RoundTripIff` | apps/widget-app/src/focus-continuity.ts:75-112 | For every tree and every position: capture, wipe, rebuild the same tree, restore returns to the position if and only if no captured identity holds a newline and the position is the first focusable match of the first of its rungs, as their texts are read, that has one |
| `FocusContinuity.SameTreeRoundTrip` | apps/widget-app/src/focus-continuity.ts:75-112 | The case without newline or U+0000: if and only if it is the first focusable match of its own exact selector |
| `FocusContinuity.NulIdentityGoesElsewhere` | apps/widget-app/src/focus-continuity.ts:46-50 | A concrete tree with U+0000 in an action: restoring on the same tree puts focus on another button |
| `FocusContinuity.NulIsItsOnlyMatch` | apps/widget-app/src/focus-continuity.ts:52-61 | ... although the control it was captured from is the only match of its own exact selector |
| `FocusContinuity.OnlyMatchGetsFocusBack` | apps/widget-app/src/focus-continuity.ts:75-112 | In particular when the focused control has an identity and is the only focusable match |
| `FocusContinuity.RestoreLandsHonestly` | apps/widget-app/src/focus-continuity.ts:95-112 | For any old and new tree: unless a captured identity holds a newline, restore lands on the first focusable match of the most specific rung, as its text is read, that has one, else on the container; with a newline it throws |
| `FocusContinuity.CleanRestoreLandsHonestly` | apps/widget-app/src/focus-continuity.ts:95-112 | Without U+0000 those are the captured rungs themselves |
| `FocusIdentity.RestoreByAttributes` | apps/widget-app/src/focus-continuity.ts:63-112 | The whole of restore on attributes and positions, without selectors: for any old chain and rebuilt tree, the first focusable element with all the same names takes the focus; if none, the first of the group; if none, the first with an action, each under likes of the old ancestors in order; if none, the container; and it throws if and only if a name holds a newline |
| `FocusIdentity.ACardGivesWayToACard` | apps/widget-app/src/focus-continuity.ts:63-69 | A card that is gone gives its focus to the first focusable card under the likes of its ancestors |
| `FocusIdentity.RungMatches` | apps/widget-app/src/focus-continuity.ts:75-93 | Each captured selector, as its text is read, matches an element if and only if the element fits the rung by its attributes and stands under likes of the old ancestors |
| `FocusIdentity.IdentityMeansSameNames` | apps/widget-app/src/focus-continuity.ts:52-61 | Meeting an identity is having its `role` and each of its ten naming attributes, with the same values; an element has one if and only if it has some of these |
| `FocusIdentity.GroupMeansSameGroup` | apps/widget-app/src/focus-continuity.ts:63-73 | The group of a control: the same action; without one, any card for a card; without either, the same role |
| `FocusIdentity.AncestorsEmbed` | apps/widget-app/src/focus-continuity.ts:81-85 | The captured ancestors embed if and only if each named ancestor has its like, in order |
| `FocusContinuity.RestoreThrowsIffNewline` | apps/widget-app/src/focus-continuity.ts:46-50 | Restore throws (the text is no selector) if and only if some identity value on the captured chain holds a newline |
| `FocusContinuity.FirstMatchIsTheFirstCandidate` | apps/widget-app/src/focus-continuity.ts:102-108 | Scanning the matches in document order and trying each takes focus to the first position that matches and takes focus |
| `FocusContinuity.DescendantsInOrder` | apps/widget-app/src/focus-continuity.ts:102 | The traversal lists the positions of the tree in document order |
| `FocusContinuity.DescendantsAreThePositions` | apps/widget-app/src/focus-continuity.ts:102 | ... and lists exactly those positions |
| `FocusContinuity.SkippingTriedChangesNothing` | apps/widget-app/src/focus-continuity.ts:98-101 | Skipping a selector already tried never changes where restore lands |
| `FocusContinuity.ExactMatchIsGroupMatch` | apps/widget-app/src/focus-continuity.ts:63-73 | Every element an exact selector matches, the group selector of the same chain matches |
| `FocusContinuity.CapturedElementMatches` | apps/widget-app/src/focus-continuity.ts:81-92 | The focused element matches all three selectors captured from it |
| `FocusContinuity.ClimbRungsLandsHonestly` | apps/widget-app/src/focus-continuity.ts:99-111 | The ladder over any rungs: the first rung with a candidate decides, and its first candidate wins |
| `Selectors.EscapeRoundTrips` | apps/widget-app/src/focus-continuity.ts:46-50 | An escaped value read back inside double quotes is itself if and only if it has neither a newline nor U+0000 (section 4.3.5 of CSS Syntax Level 3) |
| `Selectors.EscapedValueReadsBack` | apps/widget-app/src/focus-continuity.ts:46-50 | ... and what the reader makes of any other value |
| `Selectors.PrintedSelectorReads` | apps/widget-app/src/focus-continuity.ts:52-73 | The text of a selector is read back as that selector, or refused exactly when it quotes a newline (section 8.1 of Selectors Level 3) |
| `Selectors.MatchesSnoc` | apps/widget-app/src/focus-continuity.ts:86 | A selector with a descendant combinator matches exactly when its leaf matches the element and the rest embeds in the ancestors |
| `FocusDocument.Document.CaptureFocus` | apps/widget-app/src/focus-continuity.ts:75-93 | The walk up to the container builds exactly the three printed selectors of the focused element's chain, or none |
| `FocusDocument.Document.RestoreFocus` | apps/widget-app/src/focus-continuity.ts:95-112 | The nested loops move focus where the ladder lands, set the container's tab index only on the last rung, and leave focus alone for a null snapshot |
| `FocusDocument.Document.Rerender` | apps/widget-app/src/game-screen.ts:513-524 | Capture, replace, restore on the mutable document |
| `FocusDocument.GroupSelectorText` | apps/widget-app/src/focus-continuity.ts:63-73 | The group text with its early returns is the printed group test, whose meaning on attributes is `GroupMeansSameGroup` |
| `FocusDocument.AncestorTexts` | apps/widget-app/src/focus-continuity.ts:81-85 | The loop that puts each identity in front computes the ancestors' printed compounds |
| `FocusDocument.IdentitySelector` | apps/widget-app/src/focus-continuity.ts:52-61 | The pushed and joined attribute tests are the printed identity |
| `Grouping.GroupByFamily` | apps/widget-app/src/game-families.ts:33-41 | The insertion-ordered map refines: families in first-appearance order, each the catalog filtered by its id |
| `Grouping.GroupBySection` | apps/widget-app/src/game-sections.ts:48-56 | The same for sections, each holding the families of its entries |
| `Grouping.KeysInFirstAppearanceOrder` | apps/widget-app/src/game-families.ts:33-41 | Each key once, ordered by where it first occurs |
| `Grouping.RegroupingIsTheIdentity` | apps/widget-app/src/game-families.ts:33-41 | Grouping the concatenation of the families gives the families |
| `Grouping.FamiliesConserveEntries` | apps/widget-app/src/game-families.ts:33-41 | No entry is lost or repeated by the families |
| `Grouping.SectionsConserveEntries` | apps/widget-app/src/game-sections.ts:48-56 | No entry is lost or repeated by the sections |
| `Grouping.FamilyOncePerDeclaredSection` | apps/widget-app/src/game-sections.ts:40-47 | A family stands on a shelf if and only if one of its entries declares that section, and once |
| `Grouping.FlattenedShelvesAreFamiliesIffOneSectionEach` | apps/widget-app/src/main.ts:335-344 | Flattening the sections lists no family twice if and only if every family declares one section |
| `Grouping.ShelvesReorderFamiliesStably` | apps/widget-app/src/game-sections.ts:48-56 | With one section per family, the shelves laid end to end are the families stably reordered by section |
| `WidgetRun.GateHoldsInEveryRunIffQuietBoot` | apps/widget-app/src/main.ts:492-508 | In every run the gate is closed exactly while a status, error, match or unsupported screen shows - if and only if the catalog is not a single family with two or more entries, where the closing boot paint can cover a join |
| `WidgetRun.PaintFirstRunsAreSound` | apps/widget-app/src/main.ts:354-509 | On any catalog, in every run whose closing paint comes before the first departure: gate and screen agree, a readable stored session exists iff a match is entered and not left and holds its token, each entered connection is left once, and the joins carry the renewed tokens in order |
| `WidgetRun.JoinsAreConserved` | apps/widget-app/src/main.ts:400-435 | In every such run the joins sent are those settled by a connection, a refusal or a failed pairing, plus the one in flight past its renewal |
| `WidgetRun.ConnectionHasItsOwnRenewal` | apps/widget-app/src/main.ts:400-435 | A connection that arrives was asked for with the game, modality and tier last chosen, through all failures and retries; since its own press there was exactly one renewal, whose token its join carries, and no other attempt ended; only a match against a person waited in the queue; it is stored under its own game |
| `WidgetRun.ConnectionTookItsCourse` | apps/widget-app/src/main.ts:400-435 | Between its press and its connection a bot match saw the renewal alone; a match against a person the renewal, the queue joined and a pairing, in that order |
| `WidgetRun.FailureOffersTheAttemptAgain` | apps/widget-app/src/main.ts:412-419 | Whatever fails in such a run, the error screen offers exactly the attempt last chosen and nothing is in flight |
| `WidgetRun.PressRenewsFirst` | apps/widget-app/src/main.ts:400-405 | A press or a retry shows the status screen and starts the renewal for that attempt, sending no join yet |
| `WidgetRun.EveryConnectionHasOne` | apps/widget-app/src/join-flow.ts:11-14 | So every connection entered by a join has a renewal of its own |
| `WidgetRun.ConnectionsShareNoRenewal` | apps/widget-app/src/join-flow.ts:11-14 | ... and two connections have two, in order |
| `WidgetRun.StepKeepsSound` | apps/widget-app/src/main.ts:171-196 | Every event keeps all of that, the one overpainting step excepted |
| `WidgetRun.StepKeepsQuiet` | apps/widget-app/src/main.ts:492-508 | On a quiet catalog no event can be that step |
| `WidgetRun.EarlyPressIsCovered` | apps/widget-app/src/main.ts:492-508 | On any other catalog, the run that presses play before the last watcher opens and is painted over |
| `WidgetRun.PresenceIsTheLatest` | apps/widget-app/src/main.ts:494-500 | The stored count of each game is the last one broadcast, whatever screen was open |
| `WidgetRun.LobbyShowsLatestCounts` | apps/widget-app/src/main.ts:388-399 | A game screen, however reached, shows for each of its entries the latest count broadcast |
| `WidgetRun.BroadcastsNeverReplaceAnAwayScreen` | apps/widget-app/src/main.ts:494-500 | However many broadcasts arrive during a status, error, match or unsupported screen, it stays as it was |
| `WidgetRun.LobbyIsWhereItWasLeft` | apps/widget-app/src/lobby-screen.ts:34-68 | Whenever the lobby shows in such a run, it is the family last opened and not backed out of with its latest counts, or else the list |
| `WidgetRun.LobbyShows` | apps/widget-app/src/main.ts:373-399 | What such a lobby shows, on the catalog and the history alone: the list, or the open family with the latest count of exactly those of its games that had one, and a way back if and only if there is another family |
| `WidgetRun.ChosenIsTheLastOpened` | apps/widget-app/src/lobby-screen.ts:34-68 | In every run, overpainted or not, the open family is the one last opened and not backed out of |
| `WidgetRun.FreshBootPaintsTheLobby` | apps/widget-app/src/main.ts:503-508 | In every run the event that completes the watchers of a boot that resumed nothing paints the lobby where it was left |
| `WidgetRun.NoFinishedBootIsBlank` | apps/widget-app/src/main.ts:503-508 | So in no run is a page blank whose fresh boot opened every watcher |
| `WidgetRun.PlainBootShowsTheLobby` | apps/widget-app/src/main.ts:439-508 | On any catalog, a boot with nothing to resume whose watchers all connect shows the list, or the only family |
| `WidgetRun.FailedWatcherEndsTheBoot` | apps/widget-app/src/main.ts:492-493 | A watcher that cannot connect leaves the screen as it was, and no continuation ever opens another |
| `WidgetRun.ResumeEnds` | apps/widget-app/src/main.ts:453-485 | At the end of the resume attempt in any run: with a connection, the match of the persisted game is entered behind a closed gate and stored under it with the new token; without one nothing is entered and a session that was tried is gone |
| `WidgetRun.PressingLeadsThere` | apps/widget-app/src/main.ts:380-398 | At the end of any such run, pressing a game on the list shows that game, and pressing back shows the list |
| `WidgetRun.LeavingLeadsBack` | apps/widget-app/src/main.ts:354-371 | Leaving a match at the end of such a run leads back there, with the gate open, nothing stored and the connection left as asked |
| `Widget.Page.Rerender` | apps/widget-app/src/main.ts:373-437 | The repaint of the page object is the run's repaint |
| `Widget.Page.EnterMatch` | apps/widget-app/src/main.ts:171-196 | Persisting and entering a match, as the run's step |
| `Widget.Page.ReturnToSelection` | apps/widget-app/src/main.ts:354-371 | Leaving, clearing storage, opening the gate and repainting, as the run's step |
| `Widget.Page.OnCounts` | apps/widget-app/src/main.ts:494-500 | The broadcast callback, as the run's step: the count is stored, and on a page that holds what the runs keep an away screen is untouched |
| `Widget.Page.OnRenewed` | apps/widget-app/src/join-flow.ts:11-14 | The join goes out with the token just renewed, as the run's step |
| `Widget.Page.OnResumeSettled` | apps/widget-app/src/main.ts:453-485 | The resume attempt's end, as the run's step |
| `Widget.Page.OnHostHello` | apps/widget-app/src/main.ts:453-454 | Boot reads the persisted session the resume attempt will try, as the run's step |
| `Widget.Page.OnQueueJoined` | apps/widget-app/src/main.ts:404-406 | Waiting in the queue, as the run's step |
| `Widget.Page.OnPaired` | apps/widget-app/src/main.ts:406-411 | Claiming the reserved seat, as the run's step |
| `Widget.Page.OnMessage` | apps/widget-app/src/main.ts:182-197 | A message paints the match or, without a renderer, only counts, as the run's step |
| `Widget.Page.OnWatcherFailed` | apps/widget-app/src/main.ts:492-493 | A watcher that cannot connect ends the boot without its paint, as the run's step |
| `Widget.Page.OnPlay` | apps/widget-app/src/main.ts:400-435 | Committing to a join closes the gate and starts the renewal, as the run's step |
| `Widget.Page.OnRetry` | apps/widget-app/src/main.ts:402-404 | A retry starts the same attempt over, as the run's step |
| `Widget.Page.OnConnected` | apps/widget-app/src/main.ts:408-411 | A connection is persisted, then entered, as the run's step |
| `Widget.Page.OnAttemptFailed` | apps/widget-app/src/main.ts:412-419 | Every rejection ends on the error screen offering that attempt again, as the run's step |
| `Widget.Page.OnOpenGame` | apps/widget-app/src/main.ts:381-384 | Opening a game from the list, as the run's step |
| `Widget.Page.OnBack` | apps/widget-app/src/main.ts:394-397 | Going back to the list, as the run's step |
| `Widget.Page.OnLeave` | apps/widget-app/src/main.ts:175-180 | Leaving the match on screen, as the run's step: on such a page the lobby shows, the gate is open and nothing is stored |
| `Widget.Page.OnWatcherOpened` | apps/widget-app/src/main.ts:492-508 | One more presence watcher, the last of which closes the boot, as the run's step; the page keeps what the runs keep unless this paints over a departed player |
| `Greeting.RebuildsAreInvisible` | apps/widget-app/src/game-screen.ts:558-598 | For every schedule of rebuilds and any hand, each card's pose is the one a single animation started at the first playable render shows |
| `Greeting.ClassDroppedIffHandDealt` | apps/widget-app/src/game-screen.ts:572-580 | The greeting class is absent if and only if every card lies still |
| `Greeting.ArrivalNeverMoves` | apps/widget-app/src/game-screen.ts:560-571 | Once begun, the greeting has one beginning |
| `Greeting.FirstArrivalIff` | apps/widget-app/src/game-screen.ts:558-571 | It begins at the first render with a hand and something to play, and at no other |
| `Greeting.Container.RenderGameSelection` | apps/widget-app/src/game-screen.ts:558-598 | The per-container instant kept in place gives the fan of the render history |
| `DiceNoise.NextIsABijection` | packages/dice-ui/src/dice-sound.ts:98-108 | The noise step is a bijection of the 32-bit words |
| `DiceNoise.NextIsNeverZero` | packages/dice-ui/src/dice-sound.ts:98-108 | From a non-zero word it never reaches zero |
| `DiceNoise.KnownStates` | packages/dice-ui/src/dice-sound.ts:98-108 | The step is the published xorshift of shifts 13, 17 and 5, by its known first states |
| `DiceNoise.SamplesAreEvenlySpaced` | packages/dice-ui/src/dice-sound.ts:106 | Samples rise evenly with the word and reach 1 at the largest |
| `DiceNoise.NoRepeatBeforeTheSeed` | packages/dice-ui/src/dice-sound.ts:84-94 | Two passes are in the same state if and only if the walk has come back to its seed in between |
| `DiceNoise.NoiseInRange` | packages/dice-ui/src/dice-sound.ts:106 | For every buffer length every sample lies in (-1, 1] |
| `DiceNoise.ShorterIsAPrefix` | packages/dice-ui/src/dice-sound.ts:84-94 | A shorter buffer is a prefix of a longer one |
| `DiceNoise.FillDeterministicNoise` | packages/dice-ui/src/dice-sound.ts:98-108 | The in-place fill writes exactly that walk |
| `Rattle.SamePhaseIff84` | packages/dice-ui/src/dice-sound.ts:128-141 | Two ticks of the unbounded stream share gap and pitch if and only if 84 divides their distance |
| `Rattle.ClosedForm` | packages/dice-ui/src/dice-sound.ts:138-148 | A tick's time is 426 per twelve ticks plus a prefix of the cycle |
| `Rattle.TimesIncrease` | packages/dice-ui/src/dice-sound.ts:143-153 | Times are strictly increasing |
| `Rattle.StreamRepeatsAfter84` | packages/dice-ui/src/dice-sound.ts:128-141 | 84 ticks later everything is the same but the time, which is 7 * 426 milliseconds on |
| `Rattle.SameSoundIff` | packages/dice-ui/src/dice-sound.ts:251-254 | Two ticks of one rattle have the same pitch and slice of noise if and only if the earlier is the ninth of its cycle and the other 35 after it; then loudness and decay agree too |
| `Rattle.RattleTicks` | packages/dice-ui/src/dice-sound.ts:143-153 | The loop emits exactly one period of the stream |
| `DicePlayer.NothingOverlaps` | packages/dice-ui/src/dice-sound.ts:220-314 | In every run nothing sounds while muted or before a context exists, and all that sounds is of the latest burst |
| `DicePlayer.SoundsIff` | packages/dice-ui/src/dice-sound.ts:220-314 | Over every run a source sounds, with a given tick, if and only if a call that was heard started it as that tick and no stop, mute, later heard burst or its own end came since |
| `DicePlayer.ControlsFollowTheirHistory` | packages/dice-ui/src/dice-sound.ts:199-218 | Over every run the player is muted as last told, has a context if and only if some unlock while not muted could make one, and that runs as the browser last said |
| `DicePlayer.StopAndMuteLeaveSilence` | packages/dice-ui/src/dice-sound.ts:304-310 | After a stop or a mute nothing sounds |
| `DicePlayer.ARattleReplacesEverything` | packages/dice-ui/src/dice-sound.ts:234-299 | A rattle in any run that can sound leaves exactly its own 84 ticks sounding |
| `DicePlayer.StepKeepsInv` | packages/dice-ui/src/dice-sound.ts:220-314 | Every call and every browser event keeps that, and that whatever sounds is still reachable through the voices |
| `DicePlayer.APourReplacesEverything` | packages/dice-ui/src/dice-sound.ts:234-278 | A pour in any run that can sound leaves exactly its own nine strikes sounding |
| `DicePlayer.DiceSound.Silence` | packages/dice-ui/src/dice-sound.ts:220-232 | Stops every voice and forgets them |
| `DicePlayer.DiceSound.Play` | packages/dice-ui/src/dice-sound.ts:242-278 | Cuts what sounds, then starts one source per tick |
| `DicePlayer.DiceSound.Unlock` | packages/dice-ui/src/dice-sound.ts:286-295 | Creates the context once, and not while muted, as the run's step |
| `DicePlayer.DiceSound.Rattle` | packages/dice-ui/src/dice-sound.ts:296-299 | A rattle plays one period of the stream or nothing, as the run's step |
| `DicePlayer.DiceSound.Tumble` | packages/dice-ui/src/dice-sound.ts:300-303 | A pour plays its nine strikes or nothing, as the run's step |
| `DicePlayer.DiceSound.Stop` | packages/dice-ui/src/dice-sound.ts:304-306 | Cuts whatever sounds, as the run's step |
| `DicePlayer.DiceSound.SetMuted` | packages/dice-ui/src/dice-sound.ts:307-310 | Muting, as the run's step |
| `DicePlayer.DiceSound.OnEnded` | packages/dice-ui/src/dice-sound.ts:274-276 | The ended callback, as the run's step |

## Left out

- Postgres, Redis, HTTP, WebSocket and the browser: a table, a store, a transport and an audio graph with stated contracts stand for them.
- The bodies of the theme sanitizer, the paid-through date conversion, scrypt, the token hash and `decodeURIComponent`: parameters of the model.
- The rate limiters' windows: each login carries what the limiters answer if asked, and who is asked is counted.
- The account row is read, compared and timestamped in one step of a run; only the awaited session insert is a second step.
- Selector texts the widget never prints (hex escapes, unterminated strings, other combinators) are not read by `Selectors.ReadSelector`.
- `Number(text)` spellings other than decimal digits, doubles beyond 2^53 and text after base64 padding are not read: no stored hash the panel prints contains them.
- The fixed `SELECT`, `ORDER BY` and `LIMIT` text of the audit query: its ordering and limit are modelled, its spelling is not.
- JSON spelling of audit changes: the column holds the value.
- The route table is written as segments; `Routing.PathOf` gives the path text that resolution cuts up again.
- Floating-point rounding of samples and timing of scrypt: samples are real numbers, comparisons are counted.
- A context whose buffer or gain cannot be created after construction; the audio graph behind a source.
- Two join attempts in flight after an overpainted boot: the model keeps the newer one.
- The picked modality per card, the credit panel and the layout messages of the game screen: presentation, read back unchanged.
- Player-id persistence, consult messages and the match renderers.
- Tenant, operator and audit list handlers that only format a read.
- Tenants.StaticTenantAdminRepository.SetValidityWindow: its refusal of a missing tenant comes before the window check, so it is stated separately from `Tenants.Apply`.
