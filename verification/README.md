# Identity Hub: a verified model

Identity Hub signs employees in with a password and an emailed code, issues
OAuth authorization codes to company applications, lets administrators manage
accounts, and delivers its mail through a queue. Two client applications,
Contabilidad and Inventario, keep a ledger and a warehouse in the browser. This
project models the parts of that system whose correctness depends on order:
which transaction commits first, which clock reading is used late, which publish
fails after its commit, which tab answers first. It proves what those parts
keep over every run, and for several of them exactly when.

`dafny verify dfyconfig.toml` checks the whole project.

## How the model is built

Code that works on a database or on module variables is modelled twice. A class
has the source's fields, and methods that follow the source branch by branch:
every writer call can fail, a transaction that fails leaves its tables as they
were, and a publish happens after the commit it reports. Each method is proved
equal to a function of the old state. State machines over those functions then
interleave transactions, publishes and compensations freely, and the main
results are about all their runs.

| Module | Content |
| --- | --- |
| SlidingWindow | counting stamps in intervals; admission below a cap keeps every interval capped |
| HubTables, HubDatabase | the shared tables, what each SQL statement means, and the writers |
| Lockout, LockoutRuns | the account policy, its exact bound, and the bound over whole sign-in runs |
| Login, AddressLimit | the password step; the per-address limit under overlapping logins |
| Mfa, MfaRuns | challenges: issue, verify, resend; issuance cap, attempts, sessions, guess budget |
| ResendDelivery | resend, publish and restore on one challenge, with and without timing |
| OAuth | access check, authorization codes with PKCE |
| RoleLists, Admin, AdminConcurrency, Invitations | list loops and set facts, administration one at a time and overlapping, invitations and bootstrap |
| TokenRefresh | browser tabs, the refresh cookie and server-side rotation |
| Worker | notification deliveries and the purged cache |
| Csv, Base64Url | two printers and a reader; two codecs and the PKCE bounds |
| Decimal, Months, MonthWalk | decimal text; ledger groupings; the month walk on text |
| AuditPaging, Warehouse | keyset pages and export; stock and folios |

## Assumptions

- Transactions that lock the same rows are serialized and each is atomic: the
  model's step is the commit. Two counts of the source are read without such a
  lock, and are modelled apart from the commit they decide: the failures of an
  address (AddressLimit) and the active administrators (AdminConcurrency, where
  the locking statement reads role rows as they were when it began). The runs of
  Admin and Invitations take account updates one after another.
- Service and database share one clock, which does not run backwards; readings
  may be used late where the source reads before it locks. Times are integers
  in microseconds.
- SHA-256 and HMAC are injective and random tokens are new, so a token stands
  for its hash, a challenge's token for its id, and a code hash for the pair of
  token and code. Only holders of a returned token can present it.
- Emails are compared as text, already folded as the citext column does.
- A refresh token is named by its family and its place in the rotation chain.

## Findings

- The lockout policy bounds every closed interval of a length V, for delays up
  to D between the start of a transaction and its row lock, if and only if
  V + D < LockoutDuration and V + D <= FailureWindow (only D <= FailureWindow
  when one failure locks). With immediate transactions, a half-open failure
  window is bounded if and only if FailureWindow <= LockoutDuration.
  The default policy bounds an interval exactly when V + D is below 15 minutes.
- The address limit counts before any row lock. With at most k logins of an
  address between counting and committing, an interval within the failure window
  less the delay holds at most ipMaxFailures + k - 1 of its login failures; that
  bound is attained, so the configured cap itself holds if and only if logins of
  one address never overlap.
- The stored code of a challenge is always a delivered one between resend cycles
  if and only if a cycle, from its clock reading to the end of its restore, takes
  less than ResendInterval. Publish and restore are limited to five seconds each;
  nothing limits the commit before them, which has to come less than fifty
  seconds after the reading.
- The count that protects the last active administrator reads role rows as they
  were when its statement began, and replacing roles rewrites no user row. An
  active administrator remains in every run if and only if at most one update at
  a time is between that statement and its commit; two administrators who demote
  each other at once leave none.
- A start creates another bootstrap account after an account update if and only
  if the update took the role from, or set to pending, a locked or disabled
  account that was the only administrator not pending.
- Refresh rotation never reports reuse over every run of n tabs if and only if
  no response is lost (a tab closed while it waits loses its own) and there is
  a lock or a single tab. The fallback without
  `navigator.locks` (frontend/src/api/client.ts:114-117) is unsafe with two tabs,
  and a response lost after rotation makes the next refresh look stolen.
- The month walk is the calendar from first to last if and only if the last
  month is before December 9999 and the first is at least December 999, or both
  are one month that is at least December of year zero. Outside, unpadded years
  end the walk early or add keys of no calendar month; the walk still ends,
  before January 99990.
- A CSV row without cells is read back as one empty cell, so the round trip
  holds if and only if no row is empty. The comment that the Hub and
  Contabilidad keep identical copies (frontend/src/features/csv.ts:1) is not what
  the code does: the movements file has its own printer, which leaves trusted
  text as it is; the two agree if and only if no trusted text opens like a formula.
- An undelivered issue leaves the challenges as before the call if and only if
  the account had none open; otherwise the codes of that account, and no others,
  can no longer be verified.

## Model

| member | source | states |
|---|---|---|
| SlidingWindow.AdmissionKeepsCap | backend/internal/auth/login/login.go:214-223 | a stamp admitted while the recorded interval behind it is below the cap keeps every closed interval within the cap plus the stamps that were waiting, in any arrival order |
| SlidingWindow.IntervalWithinLookback | backend/internal/auth/lockout/lockout.go:61-74 | the failures of any interval that reaches the present are among those the lookback counts |
| HubTables.FailuresAppend | db/queries/audit.sql:22-45 | an audit entry adds one counted failure exactly when it is a failure of that account after its last completed reset |
| HubTables.StampsOfAddressAppend | db/queries/audit.sql:47-54 | an audit entry adds one counted failure of an address exactly when it is a failure from there |
| HubDatabase.Database.LockLoginUser | backend/internal/store/login.go:60-65 | only an active account becomes locked, until the given time |
| HubDatabase.Database.UnlockLoginUser | backend/internal/store/login.go:67-72 | only a locked account becomes active, without a lock end |
| HubDatabase.Database.UpdatePasswordHash | backend/internal/store/login.go:74-79 | the account's hash and nothing else |
| HubDatabase.Database.InsertAuditEvent | backend/internal/store/mfa.go:148-163 | the event is appended, or nothing is |
| HubDatabase.Database.SetLastLogin | backend/internal/store/mfa.go:180-185 | the account's last login and nothing else |
| HubDatabase.Database.SupersedeOpenChallenges | backend/internal/store/mfa.go:57-62 | every open challenge of the account becomes used |
| HubDatabase.Database.InsertChallenge | backend/internal/store/mfa.go:64-73 | exactly the new row is added |
| HubDatabase.Database.RemoveChallenge | backend/internal/store/mfa.go:75-80 | exactly that row is deleted |
| HubDatabase.Database.Consume | backend/internal/store/mfa.go:108-113 | the row becomes used |
| HubDatabase.Database.Reject | backend/internal/store/mfa.go:114-120 | one attempt fewer, used at zero, the remainder returned; an error when no row is open |
| HubDatabase.Database.StoreResend | backend/internal/store/mfa.go:121-126 | an open row takes the new code and send time |
| HubDatabase.Database.RestoreResendRow | backend/internal/store/mfa.go:82-95 | the previous code and send time return only while the row holds what the resend wrote |
| HubDatabase.Database.InsertRefreshToken | backend/internal/store/mfa.go:134-139 | one refresh family is added |
| HubDatabase.Database.InsertHubSession | backend/internal/store/mfa.go:141-146 | one hub session is added |
| HubDatabase.Database.Rollback | backend/internal/store/mfa.go:22-35 | the tables are as the transaction found them |
| Lockout.EvaluateAccount | backend/internal/auth/lockout/lockout.go:61-74 | the lock is written exactly when the recorded failures in the window reach the threshold, until now plus LockoutDuration, and only on an active account |
| Lockout.JudgeIsRecording | backend/internal/auth/lockout/lockout.go:61-74 | judging the tables after a recorded failure is the account machine's own step |
| Lockout.LockoutBoundIsExact | backend/internal/auth/lockout/lockout.go:21-74 | for every policy, delay and length: all runs mixing both steps keep every closed interval within AccountMaxFailures if and only if the length and delay fit the lock and the window |
| Lockout.DefaultBoundIsExact | backend/internal/auth/lockout/lockout.go:30-37 | the default policy bounds an interval if and only if, with the delay, it is shorter than fifteen minutes |
| Lockout.WindowIsBoundedIffLockOutlastsIt | backend/internal/auth/lockout/lockout.go:21-42 | with immediate transactions a half-open failure window is bounded if FailureWindow <= LockoutDuration, and not otherwise |
| Lockout.LateReadingOverflows | backend/internal/auth/login/login.go:165-200 | when a late clock reading can miss an old failure of the interval, a run with one failure too many exists |
| Lockout.ShortLockOverflows | backend/internal/auth/login/login.go:246-259 | when a lock can expire within the interval, a run with one failure too many exists |
| LockoutRuns.FailuresAreBoundedInEveryRun | backend/internal/auth/mfa/mfa.go:391-420 | over every run of issuing, verifying, resending, restoring and logging in by any accounts, an active account unlocked only by expiry collects at most AccountMaxFailures in any bounded interval, whichever step recorded them |
| LockoutRuns.StepFollows | backend/internal/auth/login/login.go:312-327 | every transaction of the tables is, for one account, nothing or one attempt of the account machine |
| Login.Service.Login | backend/internal/auth/login/login.go:138-160 | an error leaves the database unchanged; a rejection is the specified one and tells whether its lock event was published; an accepted password leads to exactly one outcome of Issue |
| Login.Service.WithinLoginTransaction | backend/internal/store/login.go:19-32 | a failure of any call leaves the database unchanged, everything else is the specified outcome |
| Login.Service.Authenticate | backend/internal/auth/login/login.go:165-200 | the branches of the password check leave exactly the specified tables and result |
| Login.Service.AuthenticateKnownUser | backend/internal/auth/login/login.go:177-200 | past the address limit, a known account is released, refused, recorded or accepted as specified |
| Login.Service.RehashIfNeeded | backend/internal/auth/login/login.go:279-291 | an outdated hash is replaced by a present one of the same password; a failure aborts |
| Login.Service.ResolveLock | backend/internal/auth/login/login.go:246-259 | still locked without an end or before it; otherwise the lock is released |
| Login.Service.RejectKnownUser | backend/internal/auth/login/login.go:264-274 | the failure is recorded for any account; only an active one is judged and locked, with the lock audited |
| Login.LoginIsAPasswordAttempt | backend/internal/auth/login/login.go:165-200 | a login of a known account past the address limit is one password attempt of the account machine |
| Login.LoginLeavesOthersAlone | backend/internal/auth/login/login.go:312-327 | a login changes neither another account nor its failures |
| AddressLimit.CountKeepsWithin | backend/internal/auth/login/login.go:214-223 | an admitted login keeps every interval, on record and in flight together, within the cap plus the other logins in flight |
| AddressLimit.AddressBoundIsExact | backend/internal/auth/login/login.go:214-223 | over every run with at most k logins of an address in flight, ipMaxFailures + k - 1 bounds its login failures in every interval the window covers less the delay, and no smaller number does |
| AddressLimit.AddressWindowIsExact | backend/internal/auth/login/login.go:165-200 | that bound holds for an interval if and only if its length and the delay fit the failure window |
| AddressLimit.CapHoldsIffLoginsDoNotOverlap | backend/internal/auth/login/login.go:214-223 | the configured cap holds in every run if and only if k is one |
| AddressLimit.BoundIsAttained | backend/internal/auth/login/login.go:214-223 | a run that counts k logins before the first of them commits attains the bound |
| Mfa.GeneratedCodesAreWellFormed | backend/internal/auth/mfa/mfa.go:630-638 | every drawn code passes the input check, and different draws are different codes |
| Mfa.Service.Verify | backend/internal/auth/mfa/mfa.go:250-268 | a session means exactly that commit, an invalid code exactly one rejection, any other answer an unchanged database, whichever call fails |
| Mfa.Service.VerifyChallenge | backend/internal/auth/mfa/mfa.go:273-298 | used, expired, exhausted and inactive challenges are refused unchanged; the code decides between session and rejection |
| Mfa.Service.RejectCode | backend/internal/auth/mfa/mfa.go:391-420 | one attempt fewer, the audits and the lock that follow from it |
| Mfa.Service.IssueSession | backend/internal/auth/mfa/mfa.go:303-334 | the challenge is consumed, one refresh family, the optional hub session, last login and two audits are written |
| Mfa.RejectionSpendsOneAttempt | backend/internal/auth/mfa/mfa.go:391-405 | a rejection spends one attempt of that challenge alone, closes it exactly at zero, audits once and opens no session |
| Mfa.RejectionIsACodeAttempt | backend/internal/auth/mfa/mfa.go:391-420 | a rejected code is one code attempt of the account machine |
| Mfa.SessionConsumesChallenge | backend/internal/auth/mfa/mfa.go:303-334 | afterwards the challenge can be neither verified nor resent, at any time; sessions and login_succeeded grow by one |
| Mfa.Service.Issue | backend/internal/auth/mfa/mfa.go:538-560 | issued, limited, undelivered and removed, or stranded: each with exactly the tables it leaves |
| Mfa.Service.StoreChallenge | backend/internal/auth/mfa/mfa.go:579-600 | below the cap the open challenges are superseded and one row is created; at the cap nothing changes |
| Mfa.Service.CancelUndelivered | backend/internal/auth/mfa/mfa.go:604-619 | exactly the undelivered row is deleted, or nothing when the compensation fails |
| Mfa.UndeliveredIssueIsUndoneIffNoneOpen | backend/internal/auth/mfa/mfa.go:579-619 | an undelivered issue leaves the challenges as before if and only if the account had none open |
| Mfa.UndeliveredIssueCostsTheOpenCode | backend/internal/auth/mfa/mfa.go:579-619 | afterwards an earlier challenge can be verified if and only if it could before and belongs to another account |
| Mfa.Service.Resend | backend/internal/auth/mfa/mfa.go:432-448 | an undelivered resend leaves every challenge as before the call; other outcomes leave exactly the specified tables |
| Mfa.Service.StoreResend | backend/internal/auth/mfa/mfa.go:453-482 | refused when used, expired or inactive, too soon within ResendInterval, otherwise the code and send time are replaced |
| Mfa.Service.RestoreUndelivered | backend/internal/store/mfa.go:82-95 | compare and set: the row changes only while it holds exactly what the resend wrote |
| MfaRuns.IssueKeepsWindow | backend/internal/auth/mfa/mfa.go:579-600 | one admitted row keeps any window, wherever it starts, within the cap, even for a reading older than other rows |
| MfaRuns.IssuanceIsCapped | backend/internal/auth/mfa/mfa.go:538-600 | in every run no window of IssuanceWindow holds more than MaxIssuancesPerWindow rows of an account, and an account has at most one unused challenge |
| MfaRuns.AttemptsAreConserved | backend/internal/auth/mfa/mfa.go:391-405 | attempts left plus committed rejections is MaxAttempts for every challenge, however many resends and restores happen |
| MfaRuns.SessionsMatchConsumedChallenges | backend/internal/auth/mfa/mfa.go:303-334 | refresh families, login_succeeded audits and consumed challenges are equal in number and none serves twice |
| MfaRuns.RowsInLongInterval | backend/internal/auth/mfa/mfa.go:579-600 | rows created in any interval are at most the cap for each window needed to cover it |
| MfaRuns.GuessBudget | backend/internal/auth/mfa/mfa.go:26-46 | the wrong codes compared for an account in any interval are bounded by a closed formula of its length, ChallengeTTL, IssuanceWindow and the two caps |
| ResendDelivery.RestoreHitsOnlyItsOwnCode | backend/internal/auth/mfa/mfa.go:487-502 | in every interleaving the restore's compare and set succeeds if and only if the open row still holds that resend's own code |
| ResendDelivery.RowHoldsItsOwnersCode | backend/internal/auth/mfa/mfa.go:453-502 | in every run the stored code is the code of the issue or resend the run last credits with the row |
| ResendDelivery.DeliveryIsKeptIffCyclesAreShort | backend/internal/auth/mfa/mfa.go:432-502 | between cycles of every run the stored code is one whose publish succeeded, if and only if a cycle, from clock reading to restored, stays below ResendInterval |
| ResendDelivery.SlowCycleLosesDeliveredCode | backend/internal/auth/mfa/mfa.go:453-482 | with slower cycles and three different codes, a run leaves an open challenge holding a code that was never delivered |
| ResendDelivery.ConfiguredTimeoutsLeaveTheCommit | backend/internal/events/broker.go:112 | with the publish and compensation timeouts, delivery is kept if and only if each resend commits less than fifty seconds after its clock reading, which no timeout bounds |
| OAuth.OAuthService.CheckAccess | backend/internal/auth/oauth/oauth.go:169-188 | accepted exactly for a user of the application's company with one of its roles; each refusal is audited with its reason |
| OAuth.OAuthService.Authorize | backend/internal/auth/oauth/oauth.go:143-165 | a code is stored only for a trusted client, a valid request and an entitled user, bound to the request for sixty seconds |
| OAuth.OAuthService.ExchangeCode | backend/internal/auth/oauth/oauth.go:190-214 | one transaction: a failing call leaves the code available, otherwise exactly the specified exchange |
| OAuth.OAuthService.ExchangeWithinTransaction | backend/internal/store/oauth.go:82-108 | lookup, expiry, binding, marking and reuse audit leave exactly the specified tables |
| OAuth.OnlySuccessBurnsCode | backend/internal/auth/oauth/oauth.go:238-273 | a code is burnt exactly by an attempt that yields its result; a mismatched one leaves the rightful exchange intact, a replay is audited as reuse |
| OAuth.EachCodeYieldsAtMostOnce | backend/internal/auth/oauth/oauth.go:143-273 | over every run with directory changes and purges, a code yields at most one result, before its expiry, for the user, client, redirect URI and verifier it was issued for, to a user entitled when checked |
| RoleLists.DeduplicatedIsTheSetInOrder | backend/internal/auth/admin/admin.go:340-348 | exactly the set of roles, without repeats, in order of first occurrence |
| RoleLists.Deduplicate | backend/internal/auth/admin/admin.go:340-348 | the loop computes that list |
| RoleLists.HasRole | backend/internal/auth/admin/admin.go:332-339 | membership |
| RoleLists.SameRoles | backend/internal/auth/admin/admin.go:349-359 | equal lengths and every left role on the right |
| RoleLists.SameRolesDecidesSetEquality | backend/internal/auth/admin/admin.go:349-359 | with no repeats on the left, the comparison holds if and only if the sets are equal and the right has no repeats |
| RoleLists.ComparesIsInclusion | backend/internal/auth/admin/admin.go:349-359 | for any lists, the comparison is inclusion of the left set at equal length |
| RoleLists.NeverMisjudgesIffNoRepeats | backend/internal/auth/admin/admin.go:349-359 | it never calls different sets equal if and only if the left list repeats no role, as the lists it is called with do not |
| RoleLists.LengthsDecideExistence | backend/internal/auth/admin/admin.go:251-269 | as many names found as requested if and only if every requested role exists |
| RoleLists.FinalRoles | backend/internal/auth/employee/employee.go:212-236 | "user" first, then each other requested role at its first occurrence |
| Admin.AdministrationInvariants | backend/internal/auth/admin/admin.go:137-327 | over every run of updates and employee creations an active administrator remains, every account keeps "user", no role of another company's application is held, nobody granted to themselves |
| Admin.RefusalsChangeNothing | backend/internal/auth/admin/admin.go:137-169 | a refused update changes only the audit log; an accepted one gives the target the reported status and roles and touches nobody else |
| Admin.AnotherAdminRemains | backend/internal/auth/admin/admin.go:291-293 | with two active administrators, or when the target stays one, an active administrator is left |
| Admin.UpdatedIffAccepted | backend/internal/auth/admin/admin.go:219-327 | an update is carried out if and only if its guards on status, roles, self-assignment, company and last administrator let it through |
| Admin.AcceptedIsWritten | backend/internal/auth/admin/admin.go:298-327 | an accepted update writes exactly the target's status, lock end and roles |
| Admin.EmptiesIffCountedTooMany | backend/internal/auth/admin/admin.go:271-293 | however many administrators were counted, none is active afterwards if and only if the only one was taken out on a count above one |
| Admin.AdminService.UpdateUser | backend/internal/auth/admin/admin.go:137-169 | self-assignment is audited, status checked, the transaction rolled back on refusal or fault, a cross-company refusal audited apart |
| Admin.AdminService.ApplyUserUpdate | backend/internal/auth/admin/admin.go:219-247 | the in-transaction update leaves exactly the specified directory and result |
| Admin.AdminService.RemovesAdmin | backend/internal/auth/admin/admin.go:291-293 | whether the update takes an active administrator out |
| Admin.AdminService.WriteUpdate | backend/internal/auth/admin/admin.go:229-246 | past the guard, exactly the specified directory and result |
| Admin.AdminService.ValidateRequestedRoles | backend/internal/auth/admin/admin.go:251-269 | deduplicated; refused exactly for an unknown role or a missing "user" |
| Admin.AdminService.ApplyStatusChange | backend/internal/auth/admin/admin.go:298-312 | only a changed status is written, clearing the lock end, and only a new "disabled" is audited |
| Admin.AdminService.ApplyRoleChange | backend/internal/auth/admin/admin.go:316-327 | roles are replaced and audited exactly when the set changes; refused exactly when a new role belongs elsewhere |
| Admin.AdminService.ReplaceRoles | backend/internal/store/admin_users.go:125-139 | afterwards the account holds exactly the new roles, granted by the actor, unless one crosses companies |
| Admin.AdminService.AddUserRoles | db/migrations/000011_organizations.up.sql:90-118 | inserting role by role is refused with IH001 exactly when some role belongs to another company |
| Admin.AdminService.InsertAuditEvent | backend/internal/store/admin_users.go:140-153 | the event is appended, or nothing is |
| Admin.AdminService.ValidateRoleNames | backend/internal/store/admin_users.go:78-84 | the requested names that exist, each once |
| Admin.AdminService.ListRolesForUser | backend/internal/store/admin_users.go:107-113 | exactly the account's roles, each once |
| AdminConcurrency.AnAdminIsLeftIffUpdatesDoNotOverlap | db/queries/users.sql:33-40 | from every sound directory, every run leaves an active administrator if and only if at most one update is between its locking statement and its commit |
| AdminConcurrency.MutualDemotion | db/queries/users.sql:33-40 | two overlapping demotions each count two administrators and leave none |
| Invitations.OneInvitationPerAccount | backend/internal/auth/invitationresend/resend.go:55-101 | over every run an account has at most one invitation token not used up, and an email has one account |
| Invitations.NoBootstrapOnceAdminExists | backend/internal/auth/bootstrap/bootstrap.go:114-134 | once an administrator beyond a pending one exists, no later start of any run creates or reissues, unless an update of the run leaves only pending ones |
| Invitations.UpdateReopensIff | backend/internal/auth/admin/admin.go:219-247 | an update leaves no administrator but pending ones if and only if it is accepted and takes the role from, or sets to pending, the only other one, which is then not active |
| Invitations.StartCreatesAgainIff | backend/internal/auth/bootstrap/bootstrap.go:114-134 | right after an update a start with an unused email creates an account if and only if the update was such a one |
| Invitations.ActiveAdminNeverReopens | backend/internal/auth/admin/admin.go:291-293 | from a state with an active administrator no update of any run does |
| Invitations.NextStartReissuesIffWithdrawn | backend/internal/auth/bootstrap/bootstrap.go:198-214 | after an undelivered invitation the next start reissues at once if and only if the withdrawal committed or the invitation expired |
| Invitations.AcceptanceIsFinal | backend/internal/auth/invitation/invitation.go:117-143 | after an acceptance, over every run in which no update sets the account back to pending, none of its invitations can be accepted, old or new |
| Invitations.PendingAgainIsAcceptableAgain | backend/internal/auth/invitationresend/resend.go:71-101 | after such an update, a resend makes a new invitation acceptable |
| Invitations.InvitationService.EnsureWithinTransaction | backend/internal/auth/bootstrap/bootstrap.go:114-134 | the locked decision, or an unchanged database when a call fails |
| Invitations.InvitationService.ReissueIfPending | backend/internal/auth/bootstrap/bootstrap.go:137-162 | conflict, waiting, or replacement of the tokens of a pending administrator |
| Invitations.InvitationService.CreateBootstrapAdmin | backend/internal/auth/bootstrap/bootstrap.go:166-189 | a pending account of the Hub's company with both roles, granted by nobody, and one invitation |
| Invitations.InvitationService.AddBootstrapRoles | backend/internal/store/bootstrap_admin.go:81-90 | exactly "user" and "admin", without a grantor |
| Invitations.InvitationService.Invite | backend/internal/auth/bootstrap/bootstrap.go:230-248 | one token valid for a day and its audit entry |
| Invitations.InvitationService.InvalidateInvitationTokens | backend/internal/store/invitations.go:109-114 | every token of the account becomes used, no other changes |
| Invitations.InvitationService.GetUserByEmail | backend/internal/store/bootstrap_admin.go:62-68 | the account holding the email, if there is one |
| Invitations.InvitationService.PublishAfterCommit | backend/internal/auth/bootstrap/bootstrap.go:198-214 | the outcome tells truthfully whether the invitation was published, withdrawn or left live |
| Invitations.InvitationService.Validate | backend/internal/auth/employee/employee.go:212-236 | the first invalid field, or the roles without repeats and with "user" |
| Invitations.InvitationService.CreateEmployee | backend/internal/auth/employee/employee.go:96-127 | account, roles, invitation and audit together or nothing; a cross-company refusal is audited apart |
| Invitations.InvitationService.CreateWithinTransaction | backend/internal/auth/employee/employee.go:144-185 | unknown role, taken email, unknown organization and cross-company role in that order; success writes exactly the new rows |
| Invitations.InvitationService.WriteEmployee | backend/internal/auth/employee/employee.go:152-161 | the account with exactly the roles, or a cross-company refusal |
| Invitations.InvitationService.ResendInvitation | backend/internal/auth/invitationresend/resend.go:55-67 | only a pending account; its tokens are replaced, or nothing changes when a call or the publish fails |
| Invitations.InvitationService.AcceptInvitation | backend/internal/auth/invitation/invitation.go:65-113 | a blank token, a password outside 12 to 128 characters and an unusable token are refused unchanged, in that order; otherwise the token is consumed and its account activated |
| Invitations.InvitationService.ConsumeAndPublish | backend/internal/auth/invitation/invitation.go:117-143 | consumed, audited and published together, or unchanged |
| TokenRefresh.RefreshService.RotateRefreshToken | db/queries/users.sql:265-289 | rotated only from an active newest token; a replaced token of a live family is reported as reused |
| TokenRefresh.RefreshService.RevokeRefreshFamily | backend/internal/store/refresh.go:52-58 | the whole family is revoked, no other changes |
| TokenRefresh.RefreshService.RefreshSession | backend/internal/auth/refresh/refresh.go:154-205 | rotation, refusal or reuse with its family revocation kept; a failing call changes nothing |
| TokenRefresh.Client.SetAccessToken | frontend/src/api/client.ts:67-70 | the tab's token, announced exactly when asked |
| TokenRefresh.Client.OnMessage | frontend/src/api/client.ts:58-65 | a sibling's token is taken over and not announced again |
| TokenRefresh.Client.RefreshSession | frontend/src/api/client.ts:119-130 | a caller joins the refresh in flight, or starts one that remembers the present token |
| TokenRefresh.Client.OnLockGranted | frontend/src/api/client.ts:123-126 | no request when a sibling's token arrived meanwhile, otherwise a request with the cookie |
| TokenRefresh.Client.OnResponse | frontend/src/api/client.ts:126-128 | a renewed token is set and announced |
| TokenRefresh.Client.OnSettled | frontend/src/api/client.ts:130-137 | a failure drops and announces the token; the refresh in flight is over either way |
| TokenRefresh.RefreshIsSerialized | frontend/src/api/client.ts:114-138 | in every interleaving with any broadcast delay, sign-ins, sign-outs and revocations, at most one request is outstanding, it presents its family's newest token, and no reuse is reported |
| TokenRefresh.NeverReusesIffSerialized | frontend/src/api/client.ts:114-117 | no run of n tabs is answered with reuse if and only if no response is lost and there is a lock or one tab |
| TokenRefresh.RaceWithoutLock | frontend/src/api/client.ts:114-117 | two tabs without a lock reach a reuse |
| TokenRefresh.LostResponse | backend/internal/store/refresh.go:33-50 | a response lost after rotation reaches a reuse |
| TokenRefresh.SiblingsShareARotation | frontend/src/api/client.ts:123-126 | a tab that waited while a sibling renewed and heard of it sends no request |
| Worker.DeliveriesAreAnHourApart | backend/cmd/worker/main.go:112-137 | over every run, two deliveries of one event are over an hour apart |
| Worker.AcknowledgedMeansDelivered | backend/cmd/worker/main.go:139-173 | each message is settled once, and acknowledged if and only if a delivery of its event within the hour is on record by then |
| Worker.FailuresAreNeverDropped | backend/cmd/worker/main.go:129-137 | an event none of whose attempts succeeded is requeued every time |
| Worker.NotificationWorker.AlreadyProcessed | backend/cmd/worker/main.go:112-127 | after the purge the cache holds exactly the events delivered within the hour, so it answers as the full log does |
| Worker.NotificationWorker.Purge | backend/cmd/worker/main.go:116-123 | exactly the entries before the cutoff are dropped |
| Worker.NotificationWorker.MarkDelivered | backend/cmd/worker/main.go:133-137 | the record is the latest delivery and the cache stays true to the log |
| Worker.NotificationWorker.Deliver | backend/cmd/worker/main.go:177-212 | succeeds exactly when specified; the reset of an unknown account succeeds without an email |
| Worker.NotificationWorker.Handle | backend/cmd/worker/main.go:139-173 | the cached worker settles and records as the full log prescribes |
| Worker.NotificationWorker.Consume | backend/cmd/worker/main.go:82-94 | the consuming loop produces the specified log and settlements |
| Csv.FileIsReadBackIffNoRowIsEmpty | frontend/src/features/csv.ts:17-26 | reading the file as RFC 4180 section 2 asks gives exactly its records, text neutralized, if and only if header and rows have cells |
| Csv.NoTextRunsAsFormula | frontend/src/features/csv.ts:8-22 | no text cell is read back as a formula, harmless text is unchanged, numbers keep their text |
| Csv.MovementsAreReadBack | contabilidad/src/exportMovements.ts:30-41 | the movements file is read back as its titles and rows, with only users' text neutralized |
| Csv.PrintersAgreeIffTrustedTextIsPlain | contabilidad/src/exportMovements.ts:30-41 | both printers write the same bytes if and only if no trusted text opens like a formula |
| Base64Url.DecodeEncode | contabilidad/src/auth/base64url.ts:1-17 | decoding the encoding of any bytes gives them back (RFC 4648 section 5) |
| Base64Url.EncodeBase64Url | contabilidad/src/auth/base64url.ts:1-8 | btoa, replacement and the moving end compute the unpadded encoding |
| Base64Url.DecodeBase64Url | contabilidad/src/auth/base64url.ts:10-17 | decodes exactly what the shared decoder decodes, and rejects exactly what it rejects |
| Base64Url.BytesOfBinary | contabilidad/src/auth/base64url.ts:14-16 | the array holds the byte of each character |
| Base64Url.BytesToB64u | inventario/src/oauth/base64.ts:3-7 | the same encoding by removing every '=' |
| Base64Url.B64uToBytes | inventario/src/oauth/base64.ts:9-14 | the same decoding and the same rejections, padding before replacing |
| Base64Url.AtobOfPadded | contabilidad/src/auth/base64url.ts:12-13 | atob of the padded text decodes it, or throws on the one length no encoding has |
| Base64Url.PkceAcceptsIff32To96Bytes | backend/internal/auth/oauth/oauth.go:351-369 | the encoding passes the server's verifier and challenge checks if and only if it has 32 to 96 bytes; 32 bytes give 43 characters |
| Months.StatusTotalsConserve | contabilidad/src/aggregate.ts:16-21 | one labelled group for each status in order, which add up to all movements |
| Months.ValuesByCategory | contabilidad/src/aggregate.ts:25-32 | the values of the map: count and total of each category, in order of first appearance |
| Months.TotalsByCategory | contabilidad/src/aggregate.ts:24-33 | those values, sorted |
| Months.CategoryTotalsAreRanked | contabilidad/src/aggregate.ts:23-33 | for every collation the result is each category's total once, largest first and equal totals by name, and adds up to all movements |
| Months.TallyCategories | contabilidad/src/aggregate.ts:25-31 | the map holds the totals of each category, inserted in order of first appearance |
| Months.CategoryTotalsConserve | contabilidad/src/aggregate.ts:24-32 | the category totals add up to all movements |
| Months.GroupingConserves | contabilidad/src/aggregate.ts:16-55 | any grouping in which each kept movement has exactly one key conserves count and total |
| MonthWalk.NextMonthSteps | contabilidad/src/aggregate.ts:35-38 | from either text of a month, its successor with an unpadded year |
| MonthWalk.KeysCompare | contabilidad/src/aggregate.ts:45 | keys compare as text exactly as the months they name |
| MonthWalk.TotalsByMonth | contabilidad/src/aggregate.ts:44-55 | the loop ends on every input and yields exactly the labelled totals of the walked texts |
| MonthWalk.LabelOfKey | contabilidad/src/aggregate.ts:11-14 | the label of a key is its month's short name and its year |
| MonthWalk.LabelsAreDistinct | contabilidad/src/aggregate.ts:11-14 | keys with one label are one key |
| MonthWalk.TotalsBetween | contabilidad/src/aggregate.ts:47-54 | from the first to the last key, the labelled totals of the walked texts |
| MonthWalk.TotalsFrom | contabilidad/src/aggregate.ts:49-53 | the loop visits exactly the walked texts and totals each |
| MonthWalk.LimitStops | contabilidad/src/aggregate.ts:50 | no walk passes January 99990 |
| MonthWalk.WalkIsCalendarIff | contabilidad/src/aggregate.ts:50 | every month from first to last once, in order and nothing else, if and only if the range avoids unpadded years and December 9999 |
| MonthWalk.RangeInText | contabilidad/src/aggregate.ts:47-48 | that condition, as comparisons of the first and last keys |
| MonthWalk.MonthTotalsConserve | contabilidad/src/aggregate.ts:44-55 | in that range the monthly totals add up to the movements with a valid month |
| AuditPaging.NewestIsMatchingDescending | db/queries/audit.sql:56-64 | the query returns exactly the matching events, newest first |
| AuditPaging.ExtraRowDecides | backend/internal/api/audit_log.go:43-51 | through every clamp, one row beyond the page decides whether another page exists |
| AuditPaging.AuditLog.ListAuditLog | backend/internal/api/audit_log.go:17-58 | a malformed cursor is refused; otherwise exactly the page of the whole match |
| AuditPaging.AuditLog.CutPage | backend/internal/api/audit_log.go:46-51 | the rows up to the limit, and a cursor exactly when there was one more |
| AuditPaging.AuditLog.List | backend/internal/auth/auditlog/audit_log.go:86-103 | the service's clamp leaves room for the extra row |
| AuditPaging.AuditLog.ListRows | backend/internal/store/audit_log.go:34-73 | the store's clamp and the first rows of the match |
| AuditPaging.AuditLog.Export | backend/internal/auth/auditlog/audit_log.go:117-134 | truncated if and only if more than 10000 match; nothing is returned without the audit record |
| AuditPaging.CursorRoundTrip | backend/internal/api/audit_log.go:29-36 | a printed id is read back as that cursor |
| AuditPaging.RestOfPage | db/queries/audit.sql:56-64 | below the id of a page's last event lie exactly the events after the page |
| AuditPaging.PagingMissesNothing | backend/internal/api/audit_log.go:43-58 | whatever ids commit meanwhile, following the cursors ends, every matching event of the initial log is returned exactly once, no event twice, newest id first, full pages but the last |
| AuditPaging.PagingYieldsTheInitialLog | backend/internal/api/audit_log.go:43-58 | where only larger ids commit meanwhile, nothing but the matching events of the initial log is returned |
| Warehouse.FolioRoundTrip | inventario/src/warehouse/ledger.ts:53-56 | the number printed into a folio is read back from it |
| Warehouse.FoliosIncrease | inventario/src/warehouse/ledger.ts:53-78 | over every run each new folio has a higher number than all before it and repeats none |
| Warehouse.StockIsConserved | inventario/src/warehouse/ledger.ts:62-84 | over every run no stock is negative and each SKU's stock is the initial one plus entries minus exits |
| Warehouse.PostingIsExact | inventario/src/warehouse/ledger.ts:62-78 | with distinct SKUs, accepted if and only if the quantity is a positive integer, the SKU exists and its stock would not fall below zero; then that stock alone moves by the quantity |

## Left out

- LockoutRuns.FailuresAreBoundedInEveryRun: excludes administrative unlock and completed password resets, which restart the count by design.
- MfaRuns.GuessBudget: counts wrong codes compared, not the probability that a code is guessed.
- TokenRefresh.RefreshIsSerialized: sign-out appears as its effects (a revoked token, a cleared cookie) in any order, not as its own request.
- Worker.DeliveriesAreAnHourApart: covers one process lifetime; a restarted worker starts with an empty cache.
- Admin.AdministrationInvariants: covers updates and employee creations one after another; failed logins can lock an administrator, and overlapping updates are in AdminConcurrency.
- The conversion of rows to API records field by field.
- HTTP handlers beyond the audit page, generated code, middleware, cookies' attributes, metrics, logging and configuration: plumbing.
- React views, charts, downloads and browser storage.
- PostgreSQL, RabbitMQ and SMTP themselves: only atomic transactions, publish success or failure, and redelivery.
- Hash parameters and salts, Ed25519 tokens and random sources: a hash is the password it verifies and whether it is outdated, drawn values are parameters.
- The address grammar of RFC 5322 and the locale's collation: the parser's verdict and the order of names are parameters.
- JavaScript numbers: amounts and quantities are integers, printed numbers keep the text JavaScript gives them, folio numbers are unbounded.
- White space inside atob's input, which the decoders' own check excludes.
- Search, filters and sorting of the ledger, low-stock flags, role grids, service keys and session listings: they would add easy members.
