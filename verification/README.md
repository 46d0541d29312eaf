# Verified model of asterion's stateful core

asterion is an admin framework on FastAPI and SQLAlchemy. This project models the parts of it whose
correctness is a property of many functions together: credentials and sessions, throttling, permission
keys and their reconciliation, listing and writing records, tenant resolution, and the extension
lifespan. The properties are proved with Dafny 4.11; `dafny verify dfyconfig.toml` checks all of them.

Tables are maps and sets. One HTTP request is one atomic step, because a request runs in one database
transaction that is rolled back when the handler raises (`asterion/db/dependencies.py:31-49`). What the
process keeps in memory, the limiters and the tenant cache, survives a rollback.

## The files

| file | what it holds |
|---|---|
| `AuthModel.dfy` | users, tokens, resets, backup codes; every credential handler as a step; runs |
| `AuthInvariants.dfy`, `AuthFrames.dfy` | the invariant of all runs, and what a request cannot touch |
| `SingleUse.dfy`, `Revocation.dfy`, `Accounts.dfy`, `SecondFactorBound.dfy`, `ResetThrottle.dfy`, `RoundTrips.dfy` | the theorems over runs and across handlers |
| `HandlerOutcomes.dfy` | when each request is granted and what it leaves, spelled out over the tables |
| `Members.dfy` | memberships and their roles in all tenants, and the tenant an impersonation enters |
| `AuthService.dfy` | the handlers in place, on an object; each does exactly what its step says |
| `RateLimiter.dfy` | the sliding-window limiter, in place, against an untrimmed log |
| `Text.dfy`, `PermissionKeys.dfy` | split, join, strip; key validation, the wildcard matcher and its algebra |
| `Reconciliation.dfy`, `RoleSeeding.dfy` | diff-and-apply routines; default roles of a tenant |
| `Capabilities.dfy`, `FieldAccess.dfy` | what the contract reports against what the routes and the write path accept |
| `Listing.dfy`, `DateHierarchy.dfy` | ordering and pagination; the date drill-down and the calendar |
| `InlineWrites.dfy` | a parent and its inline children saved in one transaction |
| `TenantCache.dfy`, `SchemaNames.dfy` | the tenant cache against the database's history; slugs to schema names |
| `Lifespan.dfy` | startup and shutdown of extensions under arbitrary failures |

Code that changes state step by step (handlers, limiter, reconciliations, writers, cache, lifespan) is
a class or a method with loops, proved equal to a function of the old state; the theorems are lemmas
about that function. Pure code (validators, matcher keys, schema names, field rules) is functions.

## What the proofs found

Some statements in the repository's documentation or comments hold only under a condition. The
condition is proved exact in each case.

* **Disabling an account.** `user disable` ends every token of an active account. On an account that is
  already inactive it returns early and leaves `token_version` alone, so tokens of the current version
  work again after `user enable`. It ends all usable tokens, challenges included, exactly when the
  account was active or none was current (`DisableEndsSessionsIff`). The user admin brings an account
  into that state, because its edit of `is_active` does not touch the version (`DisableAfterSwitchOff`).
* **Two bearer paths.** The provider's `authenticate_request` does not look at `is_active`. Both paths
  nevertheless accept the same tokens in every run without such an edit (`PathsAgreeInEveryRun`), and an
  edit parts them exactly when the account had a token in use (`SwitchOffPartsPathsIff`).
* **Anonymised accounts.** `privacy/anonymizer.py` promises that login can never succeed again. A reset
  token issued before still sets a password and reactivates the account; short of an operator enabling
  it, the promise holds exactly when no such token is outstanding (`AnonymisedStaysDormantIff`).
* **Configured ordering** has no primary-key tie-break. Pages tile the result under every answer the
  database may give exactly when no two matching rows tie (`PagesTileIffTotal`).
* **Date drill-down** finds no range for the year 9999, its December and its last day, because the end
  of the range is not a date; such a value filters nothing (`ParseFindsRange`).
* **Field permissions.** The contract and the write path agree for every policy of enumeration members
  that ignores the row. They part for a primary key not called `id` (`NaturalKeyParts`), and for a
  policy that answers with a bare text, which the contract coerces and the write path ignores
  (`TextAnswerParts`); exactly when they agree is `AgreementIff`.
* **Shared policy objects.** A `SuperadminDeletablePolicy` object keeps the resource of the first admin
  that registers it. The contract of an admin never promises what a route refuses exactly when its
  policy object is its own (`NeverOverreportsIff`).
* **Keys in the catalogue.** Every emitted CRUD key is live, except those of a singleton without policy;
  every withheld one is dead, except `platform.<res>.delete` of a platform-tier admin under a
  `SuperadminDeletablePolicy` of its own (`EmittedKeyIsLiveIff`, `WithheldKeyIsLiveIff`).
* **Created inline children** carry the parent's key exactly when the last entry of the save that names
  the new child and sets the key, if there is one, sets it to the parent's (`CreatedChildBelongsIff`).
  With a writable foreign key a save can create a child and move it away (`MovedChildDoesNotBelong`).
* **Shutdowns.** A failing shutdown never stops the rest, but one that ends in an exception outside
  `Exception`, such as a cancellation, does: every started extension is stopped exactly when only the
  last shutdown to run may do so (`StopsMirrorStartsIff`).
* **Long slugs.** Schema names are cut at 63 characters, so slugs of more than 56 characters may share a
  schema although their segments differ; exactly when is `SharedSchemaIff`.

## Model

| member | source | states |
|---|---|---|
| `RateLimiting.KeepRecent` | asterion/auth/rate_limiter.py:59-63 | the trimming loop keeps exactly the hits later than the cutoff, in order |
| `RateLimiting.InMemoryRateLimiter.Trim` | asterion/auth/rate_limiter.py:59-66 | trims one key's list in place; the untrimmed log it stands for is unchanged |
| `RateLimiting.InMemoryRateLimiter.IsLimited` | asterion/auth/rate_limiter.py:68-71 | limited exactly when the untrimmed log of the key holds at least the maximum in (now - window, now] |
| `RateLimiting.InMemoryRateLimiter.RecordFailure` | asterion/auth/rate_limiter.py:73-77 | adds one hit to the key's log and to no other |
| `RateLimiting.InMemoryRateLimiter.Clear` | asterion/auth/rate_limiter.py:79-80 | forgets the key's hits only |
| `RateLimiting.InMemoryRateLimiter.Dispatch` | asterion/core/tenant_rate_limit.py:50-59 | admits exactly when the key's window has room, and only then records a hit |
| `RateLimiting.LimitedByLog` | asterion/auth/rate_limiter.py:68-71 | a trimmed list answers as the full log does |
| `RateLimiting.MirrorsRecorded` | asterion/auth/rate_limiter.py:73-77 | recording keeps every key's trimmed list in agreement with its log |
| `RateLimiting.AdmissionBound` | asterion/core/tenant_rate_limit.py:50-59 | over every run of check-then-record, no window of the given width holds more than the maximum of admitted calls of a key |
| `RateLimiting.RefusedOnlyWhenFull` | asterion/core/tenant_rate_limit.py:50-58 | a call is refused only when the window before it already holds the maximum |
| `RateLimiting.KeysIndependent` | asterion/auth/rate_limiter.py:59-80 | what a key is granted depends on that key's own calls alone |
| `AuthInvariants.StepOk` | asterion/auth/router.py:101-527 | every request keeps the invariant, un-issues, un-revokes and un-uses nothing, and lowers no version |
| `AuthInvariants.RunOk` | asterion/auth/router.py:101-527 | the same over every run of requests |
| `AuthInvariants.InitialOk` | asterion/models/user.py:18-96 | a database of users without tokens satisfies the invariant |
| `AuthInvariants.RefreshOk` | asterion/auth/router.py:271-316 | a refresh hands the family's place to the new token and keeps the invariant |
| `AuthInvariants.ResetConfirmOk` | asterion/auth/router.py:485-527 | setting a password by token keeps the invariant, also for accounts locked out of passwords |
| `AuthFrames.UserChange` | asterion/auth/router.py:499-516 | an active account goes inactive only with a higher version or by an edit in the user admin; one is switched on only by an operator or its own token; a hash becomes usable only by its own token |
| `AuthFrames.MintedForActive` | asterion/auth/tokens.py:60-123 | tokens are minted for active accounts only |
| `AuthFrames.NewReset` | asterion/auth/password_reset.py:90-108 | a reset row appears only for an active account or one the request creates |
| `SingleUse.OneTokenPerFamily` | asterion/auth/router.py:271-316 | in every run a started rotation family has exactly one refresh token whose jti is not revoked |
| `SingleUse.RefreshGrantedIff` | asterion/auth/router.py:251-295 | a refresh is granted exactly to the last token of a family while its user is active and of the same version |
| `SingleUse.RefreshHandsOn` | asterion/auth/router.py:288-316 | the returned token is the family's next and only one, and it would be granted |
| `SingleUse.ExchangedOnce` | asterion/auth/revocation.py:38-67 | an exchanged refresh token is refused after any further requests |
| `SingleUse.ChallengeUsedOnce` | asterion/auth/two_factor_router.py:266-352 | a challenge completes at most one login, whatever factors are tried |
| `SingleUse.ResetTokenUsedOnce` | asterion/auth/password_reset.py:122-146 | a reset or invite token sets at most one password |
| `SingleUse.BackupCodeUsedOnce` | asterion/auth/totp.py:91-116 | a backup code completes at most one login, with any challenge and after re-enrolment |
| `Revocation.LogoutAllEndsSessions` | asterion/auth/router.py:372-396 | no token minted earlier for the caller is accepted at any endpoint at any later step |
| `Revocation.ResetConfirmEndsSessions` | asterion/auth/router.py:499-516 | the same after a password is set by token |
| `Revocation.AnonymiseEndsSessions` | asterion/privacy/anonymizer.py:61-71 | the same after an account is anonymised |
| `Revocation.DisableEndsActiveSessions` | asterion/cli/main.py:1157-1165 | disabling an active account ends every token of it for good: access, refresh, challenge and impersonation |
| `Revocation.DisableEndsSessionsIff` | asterion/cli/main.py:1144-1165 | disabling ends all usable tokens of any kind for good exactly when the account was active or none was current |
| `Revocation.RevivedByEnable` | asterion/cli/main.py:1153-1160 | a current token of an inactive account, challenges included, is accepted again once the account is enabled |
| `Revocation.DisableAfterSwitchOff` | asterion/cli/main.py:1144-1165 | login, switch-off in the user admin, disable and enable: the login's token is accepted at the end |
| `Revocation.LogoutEndsOneToken` | asterion/auth/router.py:335-368 | logging out changes the acceptance of the presented token and of no other |
| `Revocation.SettledStep` | asterion/auth/dependencies.py:58-74 | without a switch-off in the user admin, inactive accounts never have a token of their current version |
| `Revocation.PathsAgreeInEveryRun` | asterion/providers/auth.py:61-102 | both bearer paths accept the same tokens in every run without such a switch-off |
| `Revocation.SwitchOffPartsPathsIff` | asterion/providers/auth.py:91-100 | a switch-off parts the paths exactly when the account had a token in use |
| `Accounts.MachineAccountsStayClosed` | asterion/auth/router.py:446-455 | in every run an account with password login disabled has no reset row and no usable hash, and no password opens it |
| `Accounts.ProvisionedIsMachine` | asterion/auth/provisioning.py:28-64 | the account created for a machine stays closed to passwords for good |
| `Accounts.UsableOnlyByToken` | asterion/auth/router.py:493-499 | an account without a usable hash gets one only by consuming a token issued to it |
| `Accounts.InvitedStartsClosed` | asterion/admin/member_router.py:293-322 | an invited account starts inactive and closed, with exactly one token that can open it |
| `Accounts.AnonymisedStaysDormantIff` | asterion/privacy/anonymizer.py:47-71 | an anonymised account stays dormant, short of an operator enabling it, exactly when no reset token issued to it is usable |
| `Accounts.ReturnsByToken` | asterion/auth/router.py:493-516 | a usable reset token brings a dormant account back with the new password |
| `SecondFactorBound.FailedAttemptsBounded` | asterion/auth/two_factor_router.py:288-352 | in every run, however many challenges are minted, no window holds more than the maximum of attempts failed under one key since the last success |
| `SecondFactorBound.ThrottledIffWindowFull` | asterion/auth/two_factor_router.py:288-306 | with a valid challenge the throttle answers exactly when the window before now is full of failures |
| `SecondFactorBound.RefusedAttemptChangesNoTable` | asterion/auth/two_factor_router.py:292-338 | a refused attempt changes no table: no backup code is consumed and no challenge revoked |
| `SecondFactorBound.RunInStep` | asterion/auth/rate_limiter.py:59-80 | the limiter's state agrees in every run with the failures read off the responses |
| `ResetThrottle.ResetRequestsBounded` | asterion/auth/router.py:416-434 | in every run no window holds more than the allowed number of reset requests let through under one key |
| `ResetThrottle.ResetRowsBounded` | asterion/auth/router.py:416-455 | nor more reset rows issued by such requests |
| `ResetThrottle.ResetRefusedIffWindowFull` | asterion/auth/router.py:420-434 | in every run a reset request is turned away exactly when the window before it is full, whether or not the account exists |
| `RoundTrips.OpensIff` | asterion/providers/auth.py:104-171 | an unthrottled login is let through exactly for the account's password and an active account, and asks for a second factor exactly when it is enabled |
| `RoundTrips.LoginTokensLast` | asterion/auth/tokens.py:25-123 | the tokens of a login are the account's; the access token is accepted and the refresh token exchanged exactly until their configured lifetimes end |
| `RoundTrips.ChallengeLasts` | asterion/auth/tokens.py:174-225 | a challenge holds exactly until its lifetime ends, and serves neither as bearer nor for a refresh |
| `RoundTrips.SecondFactorTokensLast` | asterion/auth/two_factor_router.py:340-381 | the right factor turns a challenge into a pair for the same account with the same lifetimes |
| `RoundTrips.KindsDoNotMix` | asterion/auth/tokens.py:126-345 | no token is accepted at two of the bearer, refresh and second-factor endpoints |
| `RoundTrips.ConfirmOpens` | asterion/auth/router.py:493-516 | after a confirmed reset the account opens with the new password and with no other |
| `RoundTrips.InviteRoundTrip` | asterion/admin/member_router.py:293-322 | an invitation can be confirmed exactly until it expires, and leaves an active account with the invited e-mail and the chosen password |
| `RoundTrips.ResetRoundTrip` | asterion/auth/router.py:436-516 | a requested reset can be confirmed exactly until it expires, unless the account is locked out of passwords, and changes no other account |
| `RoundTrips.EnrolmentRoundTrip` | asterion/auth/two_factor_router.py:109-150 | enabling hands out ten codes, exactly these are usable for the user afterwards, and other users' codes are as before |
| `RoundTrips.BackupCodeAcceptedIff` | asterion/auth/totp.py:91-116 | with a valid challenge and room in the window exactly an unused code of the user completes the login, and only that code is used up |
| `RoundTrips.ImpersonationActsAsTarget` | asterion/root/impersonation.py:136-232 | an impersonation token acts as its target exactly for the given minutes, in the resolved tenant, and can neither refresh nor impersonate |
| `HandlerOutcomes.AuthenticateIff` | asterion/auth/dependencies.py:31-80 | a bearer is its user's exactly while it is genuine, unexpired, of a bearer kind and unrevoked, and the user active and of its version; the second path leaves out the active flag and nothing else |
| `HandlerOutcomes.LoginsCountTogetherIff` | asterion/auth/router.py:117-125 | logins share a limiter key exactly when their addresses agree in lower case and, if so configured, their clients do |
| `HandlerOutcomes.ThrottledLoginRefused` | asterion/auth/router.py:128-145 | a login is answered "too many attempts" exactly when its window is full, whatever the password, and then counts nothing |
| `HandlerOutcomes.LoginOutcome` | asterion/auth/router.py:147-231 | every other login: a wrong password and an inactive account are refused and add one failure; the right password forgets the failures under its key only |
| `HandlerOutcomes.ChallengeHoldsIff` | asterion/auth/two_factor_router.py:256-286 | what a challenge must be: genuine, unexpired, unburnt, of an active, unbumped account with the second factor on |
| `HandlerOutcomes.CodeAcceptedIff` | asterion/auth/two_factor_router.py:288-352 | with a valid challenge and room in the window exactly a code that the stored secret produces now completes the login; any other is refused, adds one failure and changes nothing else |
| `HandlerOutcomes.WrongBackupCodeCounted` | asterion/auth/two_factor_router.py:326-338 | a text that is not an unused backup code of the user is refused and adds one failure |
| `HandlerOutcomes.SecondFactorRefusals` | asterion/auth/two_factor_router.py:247-306 | a request with both factors or none, a bad challenge and a full window are refused, in this order |
| `HandlerOutcomes.SecondFactorLeaves` | asterion/auth/two_factor_router.py:340-352 | a completed second factor burns the challenge, forgets the user's failures, and leaves accounts, addresses and resets alone |
| `HandlerOutcomes.RefreshedTokensLast` | asterion/auth/router.py:288-316 | the rotated pair is the same user's, each half works exactly until its configured lifetime ends, and nothing but the old token's revocation is recorded |
| `HandlerOutcomes.LogoutOutcome` | asterion/auth/router.py:335-396 | both logouts are granted to exactly the accepted bearers; one revokes that token only, the other raises that user's version only |
| `HandlerOutcomes.ResetRequestOutcome` | asterion/auth/router.py:436-466 | a reset row, with the configured lifetime, is written exactly for an active account that may have a password |
| `HandlerOutcomes.ResetConfirmOutcome` | asterion/auth/router.py:485-527 | a password is set exactly by an acceptable one with a known, unused, unexpired token; the account is switched on, its version raised, the row marked, nothing else changed |
| `HandlerOutcomes.SetupOutcome` | asterion/auth/two_factor_router.py:81-105 | the secret handed out is the one stored, and only an account whose second factor is off gets one |
| `HandlerOutcomes.EnableOutcome` | asterion/auth/two_factor_router.py:109-150 | enabling is granted exactly with a code of the pending secret, hands out ten codes, and changes no account but by the flag |
| `HandlerOutcomes.DisableOutcome` | asterion/auth/two_factor_router.py:154-185 | disabling is granted exactly with a code of the secret; flag, secret and all codes of the user go, and no one else's |
| `HandlerOutcomes.EnrolmentComesBack` | asterion/auth/two_factor_router.py:81-185 | set up, enable, disable: with codes of the secret handed out both steps are granted and the account ends as it was, without a secret |
| `HandlerOutcomes.InviteOutcome` | asterion/admin/member_router.py:293-322 | an address with an account is left alone; a free one becomes an inactive account without password and one row with the invite lifetime |
| `HandlerOutcomes.ProvisionOutcome` | asterion/auth/provisioning.py:39-64 | a machine account is made exactly for a free address; it is active, and its token is accepted exactly for the given time |
| `HandlerOutcomes.SetActiveOutcome` | asterion/cli/main.py:1144-1165 | enable and disable succeed exactly for a known address, leave the flag as asked, raise the version exactly on switching off, and touch nothing else |
| `HandlerOutcomes.DisabledIsShut` | asterion/cli/main.py:1157-1165 | a disabled account is inactive, and no password logs in to it from any address |
| `HandlerOutcomes.EnabledOpens` | asterion/cli/main.py:1144-1160 | an enabled account is active and opens for its own password |
| `HandlerOutcomes.EditUserOutcome` | asterion/crud/services.py:324-397 | an edit is refused exactly for an unknown account or a taken address; it changes e-mail and flag of that row and moves the unique index along |
| `HandlerOutcomes.AnonymiseOutcome` | asterion/privacy/anonymizer.py:47-71 | the row ends with the tombstone, no usable hash, no second factor, inactive and with a higher version; the old address leads nowhere |
| `HandlerOutcomes.AnonymisedIsShut` | asterion/privacy/anonymizer.py:47-71 | neither the old address nor the tombstone logs in afterwards |
| `HandlerOutcomes.ImpersonateGrantedIff` | asterion/root/impersonation.py:136-193 | granted exactly to an accepted access token of a superadmin, for 1 to 480 minutes, with a reason if one is required, into another active account whose tenant resolves; no table changes |
| `Members.EnsuringTwice` | asterion/auth/provisioning.py:67-88 | adding a member again finds the same membership and changes nothing |
| `Members.MemberAdmin.EnsureMembership` | asterion/auth/provisioning.py:67-88 | finds, reactivates or makes the one membership of user and tenant, and touches no other |
| `Members.MemberAdmin.ResolveRoles` | asterion/admin/member_router.py:134-149 | succeeds exactly when every id parses and names a role of the tenant; an id that does not parse is reported first |
| `Members.MemberAdmin.SetMembershipRoles` | asterion/admin/member_router.py:222-246 | the membership ends with exactly the desired roles; no other link changes |
| `Members.MemberAdmin.AddMember` | asterion/admin/member_router.py:281-336 | membership and roles of the request: succeeds exactly for known roles; the user's one membership in the tenant ends active and, if roles are named, with exactly those; nothing outside the tenant changes, and a refusal changes nothing |
| `Members.MemberAdmin.UpdateMember` | asterion/admin/member_router.py:345-375 | only a membership of the caller's tenant is found; flag and roles change together or not at all, and the roles end as exactly those named |
| `Members.MemberAdmin.RemoveMember` | asterion/admin/member_router.py:384-413 | the membership and exactly its role links go, in the tenant and outside it |
| `Members.EntersIff` | asterion/root/impersonation.py:95-132 | the session enters exactly an active tenant that was asked for, or that is the target's only active membership; a request for any other is refused |
| `Members.EntersOnlyTenantIff` | asterion/root/impersonation.py:112-132 | without a request the session enters exactly an active tenant that all of the target's active memberships, at least one, belong to |
| `Members.FirstMembershipIsEntered` | asterion/root/impersonation.py:112-132 | a user added to a first, active tenant is impersonated in that tenant |
| `Members.ImpersonatedTenant` | asterion/root/impersonation.py:136-193 | an impersonation token names no tenant but such a one |
| `AuthServing.AuthService.VerifyCredentials` | asterion/providers/auth.py:104-171 | an unknown account and a wrong password get the same answer, and only the right password learns that the account is inactive |
| `AuthServing.AuthService.constructor` | asterion/auth/rate_limiter.py:49-57 | starts with the given users, no tokens and empty limiters, in a world that satisfies the invariant |
| `AuthServing.AuthService.RevokeToken` | asterion/auth/revocation.py:38-67 | adds the jti, and answers whether it was new |
| `AuthServing.AuthService.GetCurrentUser` | asterion/auth/dependencies.py:31-80 | the guard chain answers as the acceptance function says, in the same order of errors |
| `AuthServing.AuthService.ConsumePasswordReset` | asterion/auth/password_reset.py:111-146 | marks a usable row as used and gives its owner, or changes nothing |
| `AuthServing.AuthService.ClearBackupCodes` | asterion/auth/totp.py:75-88 | removes the user's codes and no others |
| `AuthServing.AuthService.StoreBackupCodes` | asterion/auth/totp.py:47-72 | adds the given number of fresh unused codes for the user |
| `AuthServing.AuthService.ConsumeBackupCode` | asterion/auth/totp.py:91-116 | uses up an unused code of the user, or changes nothing |
| `AuthServing.AuthService.HandleLogin` | asterion/auth/router.py:101-231 | the handler changes tables and limiter and answers as the login step says |
| `AuthServing.AuthService.HandleRefresh` | asterion/auth/router.py:235-316 | as the refresh step says |
| `AuthServing.AuthService.HandleLogout` | asterion/auth/router.py:335-368 | as the logout step says |
| `AuthServing.AuthService.HandleLogoutAll` | asterion/auth/router.py:372-396 | as the logout-all step says |
| `AuthServing.AuthService.HandleResetRequest` | asterion/auth/router.py:400-466 | as the reset-request step says |
| `AuthServing.AuthService.HandleResetConfirm` | asterion/auth/router.py:470-527 | as the reset-confirm step says |
| `AuthServing.AuthService.HandleTotpSetup` | asterion/auth/two_factor_router.py:81-105 | as the enrolment step says |
| `AuthServing.AuthService.HandleTotpEnable` | asterion/auth/two_factor_router.py:109-150 | as the enabling step says |
| `AuthServing.AuthService.HandleTotpDisable` | asterion/auth/two_factor_router.py:154-185 | as the disabling step says |
| `AuthServing.AuthService.HandleTotpLogin` | asterion/auth/two_factor_router.py:223-381 | as the second-factor step says, limiter included; when that completes is `CodeAcceptedIff` and `BackupCodeAcceptedIff` |
| `AuthServing.AuthService.HandleInvite` | asterion/admin/member_router.py:281-336 | the account and its token: as the invite step says |
| `AuthServing.AuthService.HandleProvisionMachine` | asterion/auth/provisioning.py:39-64 | as the provisioning step says |
| `AuthServing.AuthService.HandleSetActive` | asterion/cli/main.py:1144-1165 | as the enable and disable step says; what that leaves is `SetActiveOutcome` |
| `AuthServing.AuthService.HandleEditUser` | asterion/crud/services.py:324-397 | an edit of e-mail and active flag leaves the version alone and keeps the e-mail index unique |
| `AuthServing.AuthService.HandleAnonymise` | asterion/privacy/anonymizer.py:47-71 | as the anonymising step says |
| `AuthServing.AuthService.HandleImpersonate` | asterion/root/impersonation.py:136-232 | as the impersonation step says, with the tenant to enter as resolved by `Members.ResolveTargetTenant`; when it is granted is `ImpersonateGrantedIff` |
| `Text.JoinAfterSplit` | asterion/authz/permissions.py:45-47 | joining the parts of a split gives the text back |
| `Text.SplitAfterJoin` | asterion/authz/permissions.py:45-47 | splitting a join of parts without the separator gives the parts back |
| `Text.LowerLetters` | asterion/tenancy/resolver.py:61-68 | lower-casing replaces each capital by its small letter and leaves all else in place |
| `PermissionKeys.ParseRenders` | asterion/security/validation.py:113-162 | every key the validator accepts is the rendering of a well-formed key |
| `PermissionKeys.RenderParses` | asterion/security/validation.py:113-162 | every well-formed key renders to a text the validator accepts and parses back to it |
| `PermissionKeys.MatchesPermission` | asterion/authz/permissions.py:45-62 | on any two texts the loop with early returns computes the closed form: equal, or a prefix before one final wildcard |
| `PermissionKeys.MatchingIgnoresDress` | asterion/authz/permissions.py:45-47 | blanks around a key and capitals in it make no difference to matching, on either side |
| `PermissionKeys.MatchingIsPartialOrder` | asterion/authz/permissions.py:45-62 | on valid keys matching is reflexive, transitive and antisymmetric |
| `PermissionKeys.MatchingDecidesContainment` | asterion/authz/permissions.py:45-62 | one key matches another exactly when it grants every concrete key the other grants |
| `PermissionKeys.CheckPermission` | asterion/authz/permissions.py:65-78 | the check fails exactly on an invalid key and else asks whether some non-blank grant matches |
| `PermissionKeys.PermissionsDistribute` | asterion/authz/permissions.py:65-78 | permission is monotone in the grants and distributes over their union |
| `PermissionKeys.WiderGrantSuffices` | asterion/authz/permissions.py:65-78 | replacing a grant by one that matches it loses no permission |
| `Reconciliation.LinkTable.SetRow` | asterion/admin/member_router.py:222-246 | the diff of a membership's roles lands on exactly the desired set and leaves other memberships alone |
| `Reconciliation.ReplaceTwice` | asterion/admin/member_router.py:222-246 | setting a row twice is setting it once, and setting it to what it is changes nothing |
| `Reconciliation.PermissionCatalogue.Sync` | asterion/authz/catalog.py:184-227 | succeeds exactly when all keys are valid and none is stored by another source; lands on the desired set, leaves other sources alone, counts what was added, removed and kept; a refusal changes nothing |
| `Reconciliation.SyncDetermined` | asterion/authz/catalog.py:184-227 | a sync, pruning or not, can lead to one catalogue only |
| `Reconciliation.SyncRepeats` | asterion/authz/catalog.py:184-227 | a second sync with the same keys is not refused, adds and removes nothing, and changes nothing |
| `Reconciliation.PermissionMatrix.UpdateMatrix` | asterion/admin/permission_matrix_router.py:168-269 | a rejected update changes nothing; an accepted one had only known, non-system roles and valid catalogue keys; with distinct roles, known roles and known keys it succeeds and lands on the submitted rows |
| `Reconciliation.DistinctEntriesLand` | asterion/admin/permission_matrix_router.py:231-266 | for distinct roles the diffs taken at the start of the request never collide |
| `Reconciliation.LandedRow` | asterion/admin/permission_matrix_router.py:231-266 | each listed role ends with exactly its submitted keys |
| `Reconciliation.RowUntouched` | asterion/admin/permission_matrix_router.py:231-266 | a role that is not listed keeps its keys |
| `Reconciliation.LandedRepeats` | asterion/admin/permission_matrix_router.py:168-269 | submitting the same matrix again changes nothing |
| `RoleSeeding.TenantRoles.SeedDefaultRoles` | asterion/tenancy/bootstrap.py:109-164 | the loops over roles and keys leave the tables as the seeding function says, or unchanged if a key is invalid |
| `RoleSeeding.SeededHolds` | asterion/tenancy/bootstrap.py:109-182 | each default role holds what it had and its share of the catalogue, nothing else |
| `RoleSeeding.FreshRolesHold` | asterion/tenancy/bootstrap.py:129-156 | in a fresh tenant the owner holds `admin.*` and every key outside `platform.`, the admin those keys but the two denied ones, the viewer exactly those ending in ".list" |
| `RoleSeeding.OwnerIsAssigned` | asterion/tenancy/bootstrap.py:158-199 | the three roles exist, and the given membership gets the owner role and no other assignment is made |
| `RoleSeeding.SeedingIsMonotone` | asterion/tenancy/bootstrap.py:109-199 | no role, grant or assignment is lost or moved |
| `RoleSeeding.SeedingGrowsWithCatalogue` | asterion/tenancy/bootstrap.py:109-164 | a larger catalogue seeds more |
| `RoleSeeding.SeedingIsIdempotent` | asterion/tenancy/bootstrap.py:109-199 | seeding again changes nothing |
| `RoleSeeding.FreshRolesAreNested` | asterion/tenancy/bootstrap.py:109-164 | in a fresh tenant viewer is within admin and admin within owner |
| `RoleSeeding.SeedNeverReachesPlatform` | asterion/tenancy/bootstrap.py:125-133 | no seeded grant matches any key of the platform namespace |
| `Capabilities.CapableIff` | asterion/contract/service.py:802-857 | a reported capability means that both gates pass, and is exactly that plus holding the key; for deleting, if the admin's policy object is its own |
| `Capabilities.CrudKeyText` | asterion/authz/permissions.py:32-42 | the text of the key an action needs: namespace, resource and action with dots between |
| `Capabilities.PassesIff` | asterion/crud/router.py:53-79 | what passes for one caller, written out: in a tenant and for platform-tier admins every action, reading included, needs its key; elsewhere an open setting, platform authority or the key does; then what each policy forbids |
| `Capabilities.CapableExactlyInTenant` | asterion/crud/router.py:53-79 | inside a tenant, and for platform-tier admins anywhere, capabilities are exactly what passes both gates |
| `Capabilities.UnderreportedIff` | asterion/authz/permissions.py:116-150 | elsewhere an allowed action is hidden exactly from a caller without the key whom the no-tenant gate lets in |
| `Capabilities.CrudActionsFor` | asterion/authz/catalog.py:69-97 | the loop emits reading actions always and writing actions as the policy's flags say, each once |
| `Capabilities.EmittedKeyIsLiveIff` | asterion/authz/catalog.py:69-113 | holding just an emitted key passes both gates unless a singleton without policy forbids the action |
| `Capabilities.WithheldKeyIsLiveIff` | asterion/authz/catalog.py:69-97 | a key that is not emitted is dead, except the platform key for deleting under a superadmin policy object of the admin's own |
| `Capabilities.NeverOverreportsIff` | asterion/contract/service.py:802-857 | to no caller does the contract promise what a route refuses, and inside a tenant it reports exactly what passes, exactly when the admin's policy object is its own |
| `Capabilities.SharedPolicyPartsIff` | asterion/admin/policy.py:286-310 | a caller with the admin's and the platform's delete key is told it may delete, and passes exactly when the policy object is the admin's own |
| `Capabilities.OneKeyGrants` | asterion/authz/permissions.py:65-78 | a caller with one concrete key is granted that key and no other |
| `FieldAccess.Strictest` | asterion/admin/policy.py:61-79 | the result is the strictest of the given permissions, or "write" for none |
| `FieldAccess.ComputeFieldPermissions` | asterion/contract/service.py:705-752 | one entry per column and calculated field, the stricter of the static and the policy's answer; an unreadable answer is an error |
| `FieldAccess.BuildModelSchema` | asterion/schemas/builder.py:12-42 | the two loops list the unprotected columns and then the calculated fields |
| `FieldAccess.ApplyFieldPolicy` | asterion/crud/services.py:37-84 | the loop drops hidden fields and locks read-only ones, comparing with the enumeration's members only |
| `FieldAccess.CleanedIsPayload` | asterion/crud/payload.py:43-82 | a payload passes exactly when all its names are writable (and on create there is one), and then unchanged |
| `FieldAccess.AcceptedIff` | asterion/crud/payload.py:32-40 | the accepted names are the open non-key columns the policy leaves alone |
| `FieldAccess.AcceptedNames` | asterion/crud/payload.py:32-40 | the same written out over the admin's lists, the automatic columns by name |
| `FieldAccess.ReportedIff` | asterion/admin/policy.py:326-363 | the contract says "write" exactly for open, non-calculated fields for which the policy shows write |
| `FieldAccess.ReportedWithoutPolicy` | asterion/admin/policy.py:326-363 | without a policy: hidden exactly when protected, else read-only exactly when calculated, read-only or automatic, else writable |
| `FieldAccess.ReportedUnderPolicy` | asterion/contract/service.py:736-752 | with a policy: the stricter of that and the answer, read as a member or as one of three texts; any other text is an error |
| `FieldAccess.PolicyOnlyTightens` | asterion/contract/service.py:736-752 | a policy can make a field stricter than its static permission, never looser; the result is one of the two |
| `FieldAccess.AgreementIff` | asterion/contract/service.py:705-752 | for any policy, when contract and write path agree on a column and when not |
| `FieldAccess.ContractMatchesWrites` | asterion/crud/services.py:37-84 | for a non-key, non-calculated column and a policy that does not look at the row, accepted exactly when reported as "write" |
| `FieldAccess.NaturalKeyParts` | asterion/schemas/builder.py:20-32 | a key column is never accepted, and is reported as writable exactly when nothing else closes it, which for "id" its name does |
| `FieldAccess.TextAnswerParts` | asterion/crud/services.py:76-83 | under a policy of bare texts other than "write" a field is not reported as writable and is accepted exactly when statically open |
| `FieldAccess.PartingWitnesses` | asterion/contract/service.py:736-745 | both happen |
| `FieldAccess.BuildListEditable` | asterion/contract/service.py:85-107 | the loop keeps the editable declared names in order |
| `FieldAccess.FieldEntryIff` | asterion/contract/service.py:549-577 | a column's entry in the contract's field list is left out exactly when protected or hidden, and is not read-only exactly when the write path accepts the column, keys included, for a policy of members that does not look at the row |
| `FieldAccess.EditableIff` | asterion/contract/service.py:549-609 | an editor is offered exactly for displayed non-key columns reported as "write" |
| `FieldAccess.ListEditableIsAccepted` | asterion/contract/service.py:85-107 | every offered name is accepted by the update path, and every declared, displayed, accepted one is offered |
| `Listing.ApplyOrdering` | asterion/crud/query.py:123-167 | the loop builds the clauses of the requested or the configured ordering, or fails on an unknown configured column; what order they give is `RequestedAscends` and its neighbours |
| `Listing.RequestedAscends` | asterion/crud/query.py:134-146 | a requested column orders every answer upwards by its cells, ties by ascending primary key, whatever is configured |
| `Listing.RequestedDescends` | asterion/crud/query.py:134-146 | with a leading minus downwards, ties still by ascending primary key |
| `Listing.ConfiguredIsLexicographic` | asterion/crud/query.py:148-167 | a configured ordering is lexicographic over its items, each upwards or, with a minus, downwards |
| `Listing.KeyOrdersByDefault` | asterion/crud/query.py:148-151 | with nothing asked and nothing configured the primary key orders upwards |
| `Listing.OrderingFailsIff` | asterion/crud/query.py:153-167 | an ordering fails exactly when no known column is asked for and a configured item names none |
| `Listing.DefaultOrderingsAreTotal` | asterion/crud/query.py:123-151 | a requested known column, or no configuration, gives a strict total order on the table |
| `Listing.AnswerIsUnique` | asterion/crud/query.py:123-167 | under a strict total order every sorted answer is the same sequence |
| `Listing.NormalizeLimitOffset` | asterion/security/validation.py:165-187 | the limit is 100 by default and else the requested one clamped to 1..500; a missing or negative offset is 0 |
| `Listing.ListRecords` | asterion/crud/services.py:172-224 | the total counts all matching rows whatever limit and offset, and the items are the cut of the answer |
| `Listing.PagesTileIffTotal` | asterion/crud/services.py:191-224 | pages advanced by the returned limit hold every matching row exactly once, for every answer of the database, exactly when no two rows tie |
| `Listing.RequestPagesTileIff` | asterion/crud/services.py:172-224 | for a request as a whole, filter and ordering included: the pages tile exactly when its ordering ties no two matching rows, and always when it orders by a known column or nothing is configured |
| `Listing.RequestAnswerIsUnique` | asterion/crud/query.py:123-151 | and then the database has one answer only |
| `Listing.AnswerExists` | asterion/crud/query.py:123-167 | for every ordering the database has an answer to give |
| `Listing.MatchingKeeps` | asterion/crud/query.py:231-247 | the matching rows are exactly the table's rows that the filter accepts |
| `Listing.RequestedStrideIff` | asterion/security/validation.py:165-187 | a client that advances by the requested limit sees every row exactly when that limit was not cut or one page holds all |
| `DateHierarchy.OrdinalOrder` | asterion/crud/query.py:275-301 | the Gregorian day number is strictly increasing in calendar order |
| `DateHierarchy.MonthsAreGregorian` | asterion/crud/query.py:275-301 | months have their usual lengths, February 29 days in the years divisible by four but not by a hundred, or by four hundred |
| `DateHierarchy.CalendarIsGregorian` | asterion/crud/query.py:275-301 | the day numbers start at 0001-01-01, fix 1970-01-01 and repeat after 400 years of 146097 days |
| `DateHierarchy.NextDayOrdinal` | asterion/crud/query.py:275-301 | the day after is the date numbered one higher, and there is none only at the calendar's end |
| `DateHierarchy.RangeIsExact` | asterion/crud/query.py:275-301 | an instant lies in the half-open range exactly when its year, month and day agree with the period |
| `DateHierarchy.ParseFindsRange` | asterion/crud/query.py:250-272 | a value yields a range exactly when it names a period of the calendar that does not end it |
| `DateHierarchy.PartsAreYearMonthDay` | asterion/crud/query.py:250-272 | the parts of a value are year, month and day, in this order |
| `DateHierarchy.DrillDownIsExact` | asterion/crud/query.py:250-301 | the filter passes exactly the instants of the period its value names |
| `DateHierarchy.MonthsTileYear` | asterion/crud/query.py:286-301 | the twelve month ranges tile the year range, each as long as its month |
| `DateHierarchy.YearSpan` | asterion/crud/query.py:286-301 | the year range spans 365 or 366 days |
| `DateHierarchy.DaysTileMonth` | asterion/crud/query.py:286-301 | the day ranges tile the month range, leap years included |
| `InlineWrites.SplitLosesNothing` | asterion/admin/inline.py:237-264 | splitting fails exactly on a malformed block, takes away nothing else, yields a block exactly when a non-empty one is there, and the parts make up the payload |
| `InlineWrites.WritableIff` | asterion/admin/inline.py:170-187 | an inline's writable columns: the declared fields, or all columns but the foreign key, less the read-only ones |
| `InlineWrites.EntryAcceptedIff` | asterion/admin/inline.py:436-489 | when an entry is accepted, over its fields: a delete needs permission and a known row, an update a known row and writable names, a create writable names that are columns; each its policy |
| `InlineWrites.TableAcceptedIff` | asterion/admin/inline.py:416-489 | a table's entries are saved exactly when a foreign key is found, they are not too many, and each is accepted in the table its predecessors leave |
| `InlineWrites.AdminSession.WriteRow` | asterion/admin/inline.py:436-489 | one entry deletes, creates or updates in place as the row step says, or is refused and changes nothing |
| `InlineWrites.AdminSession.WriteRows` | asterion/admin/inline.py:416-489 | the entries of a table are applied in order; a refusal is that of its configuration or of an entry, or of a flush after some of the entries |
| `InlineWrites.AdminSession.ProcessInlineWrites` | asterion/admin/inline.py:375-491 | every table of the payload is written, in whatever order, and no other; a refusal is that of an unknown table, of a table's entries, or of a flush on the way |
| `InlineWrites.AdminSession.UpdateRecord` | asterion/crud/services.py:324-397 | policy gate, hooks, cleaning, parent and children: all is saved together, the first hook's result has only writable names, and with hooks that add no names only writable columns change; or a refusal, whose cause is stated, leaves parent and children exactly as before |
| `InlineWrites.AdminSession.CreateRecord` | asterion/crud/services.py:251-321 | the same for a new parent with a fresh key, with at least one writable name, and with the policy asked before the payload is looked at |
| `InlineWrites.PreparedIff` | asterion/crud/services.py:372-391 | a payload is let through exactly when the first hook's result has only writable names (and one, on create), coercion succeeds and the later hooks agree; a name that is not writable is refused as a bad payload |
| `InlineWrites.PreparedIsWritable` | asterion/crud/services.py:372-391 | with hooks and coercion that add no names, every name written is writable |
| `InlineWrites.WrittenIsAccepted` | asterion/crud/payload.py:43-82 | under an admin's own write schema it is an open non-key column that the policy leaves alone |
| `InlineWrites.NeutralWritesPayload` | asterion/crud/payload.py:43-82 | without hooks and coercion the payload is written as it is, or refused for its names |
| `InlineWrites.AcceptedNamesAreNotRefused` | asterion/crud/services.py:324-397 | conversely, an update of accepted names on a known row is refused only by the gate, a hook, coercion, the inline rows or the database |
| `InlineWrites.AcceptedNamesAreCreated` | asterion/crud/services.py:251-321 | and so is a create of at least one accepted name |
| `InlineWrites.ChildrenAreConserved` | asterion/admin/inline.py:436-489 | the table grows by the entries without an id and shrinks by the deleting ones |
| `InlineWrites.SurvivorsChangeInWritable` | asterion/admin/inline.py:170-187 | a child that is still there differs in writable columns only |
| `InlineWrites.GoneWereDeleted` | asterion/admin/inline.py:446-462 | a child that is gone was deleted by an entry that names it |
| `InlineWrites.UnnamedUntouched` | asterion/admin/inline.py:482-489 | a child no entry names is exactly as it was |
| `InlineWrites.ExistingColumnsLand` | asterion/admin/inline.py:482-489 | every column of a child that was there holds what the last entry to set it says, else what it held |
| `InlineWrites.CreatedColumnsLand` | asterion/admin/inline.py:474-489 | every column of a created child holds what the last later entry to set it says, else the parent's key for the foreign key and the creating entry's value for the others |
| `InlineWrites.CreatedChildBelongsIff` | asterion/admin/inline.py:474-489 | a created child that is still there carries the parent's key exactly when the last entry to set its key, if any, sets the parent's |
| `InlineWrites.CreatedChildrenBelong` | asterion/admin/inline.py:474-481 | so it does whenever the key is not writable, or no entry names a child about to be created |
| `InlineWrites.MovedChildDoesNotBelong` | asterion/admin/inline.py:482-489 | a save that creates a child and moves it to another parent |
| `InlineWrites.SavedTable` | asterion/admin/inline.py:375-491 | all of this about a table after a save that was not refused |
| `TenantCache.TenantResolver.MemGet` | asterion/tenancy/resolver.py:34-38 | a hit exactly while the entry has not expired |
| `TenantCache.TenantResolver.MemSet` | asterion/tenancy/resolver.py:41-47 | stores until now + ttl, or evicts when ttl is not positive |
| `TenantCache.TenantResolver.InvalidateTenant` | asterion/tenancy/resolver.py:22-31 | evicts the slug's own entry only |
| `TenantCache.TenantResolver.ResolveTenant` | asterion/tenancy/resolver.py:82-98 | answers from the cache or the database and leaves other slugs' entries untouched |
| `TenantCache.HeaderSlug` | asterion/tenancy/resolver.py:61-79 | a header gives its text without surrounding blanks, in lower case; a blank or missing one gives none |
| `TenantCache.HostSlug` | asterion/tenancy/resolver.py:71-79 | a host gives its label before the first dot, in lower case, with a port ignored; one without a dot gives none |
| `TenantCache.LookupsAreRecent` | asterion/tenancy/resolver.py:34-47 | in every run a lookup answers the current row, or the row an earlier lookup of the slug read less than ttl ago with no invalidation since; missing tenants included |
| `TenantCache.CurrentWhenFresh` | asterion/tenancy/resolver.py:22-47 | with ttl not positive, and for the first lookup after an invalidation, the answer is the current row |
| `TenantCache.AnswerIsKept` | asterion/tenancy/resolver.py:82-98 | a cached answer is repeated until it expires or is dropped |
| `SchemaNames.NamingIsTotal` | asterion/tenancy/schema_names.py:18-32 | naming succeeds exactly on texts that clean up to a valid slug; the name is valid, unreserved, at most 63 characters, starts with `tenant_` and is accepted as a search path |
| `SchemaNames.SearchPathAcceptsIff` | asterion/security/validation.py:97-110 | a schema name is accepted exactly when it is an identifier, unreserved and without the `pg_` prefix, a search path exactly when it is an identifier that starts with `tenant_` |
| `SchemaNames.SlugSegments` | asterion/tenancy/schema_names.py:24-26 | replacing, collapsing and stripping is joining the non-empty segments with underscores |
| `SchemaNames.CutFits` | asterion/tenancy/schema_names.py:31 | cutting and stripping the joined text is joining the segments that fit |
| `SchemaNames.SharedSchemaIff` | asterion/tenancy/schema_names.py:18-32 | two slugs share a schema exactly when the segments that fit are the same |
| `SchemaNames.ShortSlugsShareIff` | asterion/tenancy/schema_names.py:18-32 | up to 56 characters: exactly when their non-empty segments are the same |
| `SchemaNames.TidySlugsApart` | asterion/security/validation.py:80-94 | slugs of up to 56 characters without doubled or trailing hyphens never share a schema |
| `SchemaNames.TidyFormShares` | asterion/tenancy/schema_names.py:24-26 | a slug shares its schema with its tidy form |
| `Lifespan.StartAndServe` | asterion/extensions/lifecycle.py:125-134 | the extensions start in order until one fails, and the application serves only after all did |
| `Lifespan.Compose` | asterion/extensions/lifecycle.py:121-146 | the loops leave the specified trace and let the specified error escape |
| `Lifespan.StartsInOrder` | asterion/extensions/lifecycle.py:121-146 | the trace's startups are the successful ones in registration order, its shutdowns run downwards from the last |
| `Lifespan.TraceIsInOrder` | asterion/extensions/lifecycle.py:121-146 | no extension starts after anything else has happened, and after the first stop there are only stops |
| `Lifespan.StopsEndAsTheyDo` | asterion/extensions/lifecycle.py:135-146 | a stop is recorded as that extension's own shutdown ended |
| `Lifespan.EscapesIff` | asterion/extensions/lifecycle.py:121-146 | which error escapes: of the last registered started extension whose shutdown aborts, else of the first that did not start, else of the application's own lifespan |
| `Lifespan.StopsMirrorStartsIff` | asterion/extensions/lifecycle.py:135-146 | the shutdowns are the startups in reverse, once each, exactly when no shutdown but the last to run is aborted |
| `Lifespan.ServesIff` | asterion/extensions/lifecycle.py:125-134 | the application serves exactly when every extension started and its own lifespan was entered |
| `Lifespan.FailuresStayInside` | asterion/extensions/lifecycle.py:135-146 | without an aborted shutdown the escaping error is that of the run itself |

## Left out

- Cryptography and random sources: JWT signing, password hashing, TOTP and token digests are parameters or abstract values; a token verifies if and only if it was issued, and jtis, raw tokens and codes come from a supply that never repeats.
- Interleaving of requests inside the database, several worker processes, and shared limiter backends: one request is one step and one process serves all of them.
- Key texts of the shared limiter: login and second-factor keys are separate values; in the source they are texts that cannot coincide because an e-mail address contains `@`.
- Unicode: strip and lower-case are modelled on ASCII text.
- A token pair that the provider mints before the second factor is asked for is never handed out and is not modelled as issued.
- Integer parsing of date parts and role ids is a parameter.
- Other ways to create or delete accounts (command line, service-account deletion, OAuth): the user table changes only by the modelled steps.
- HandleInvite: the membership and the roles of the same request are `Members.MemberAdmin.AddMember`, on tables of their own; the two halves are not joined in one state.
- HandleImpersonate: the tenant to enter is an argument, which `Members.ImpersonatedTenant` takes from the membership tables; the claim that names the impersonating operator and the log row are not modelled.
- UpdateRecord, CreateRecord: the gate, the hooks and the coercion of values are arbitrary functions; reading the stored row back and database defaults are not modelled.
- UpdateMember: the check that the member's user row still exists.
- E-mail texts are compared as stored; the login and reset handlers look an address up exactly as sent.
- Field filters, search, reference labels and value coercion: the matching rows are those an arbitrary predicate keeps.
- NULL ordering: cells are compared in one total order.
- Column adapters that mark more than the primary key as read-only.
- Bulk actions and extension-contributed keys in capabilities and catalogue; policies other than the built-in ones.
- Contract requests without a caller, for which every permission check passes.
- Inline children whose primary key column is not called `id`, and inline rows whose declared fields name no column of the child: a create with such a name is refused, an update leaves no trace.
- Deleting a record: its hooks and the guard for system records.
- Audit, logging, notifications, user interface, storage, migrations and search-path handling.
