# A verified model of the arc-admin state machines

The repository is an administration backend (users, roles, permissions, departments, sessions, second
factors, audit log) with a workflow and source-audit tool beside it. Its difficult promises are about whole
runs of small database-backed state machines, about recursive queries over the department table, and about
one byte-level scanner. This project models those parts in Dafny 4.11 and proves the promises for all
inputs, all runs and all interleavings.

SQL tables are maps, sets and sequences. Where the code opens several transactions or reads before it
locks, each statement (lock, guard read, write, commit, rollback) is a step of its own and the theorems
quantify over every interleaving; where the model instead takes a service call as one step, "Left out" says
so. Code that works by changing rows or variables step by step appears as classes and loops, and each such
method is proved against the function the theorems are about. Times are integers (seconds or
microseconds); randomness, hashes and the outcome of a cryptographic check are choices of the environment.

| file | what it holds |
|---|---|
| `SuperAdminGuard.dfy`, `CommittedRequests.dfy`, `UserStore.dfy` | the lock protocol around the last super administrator; what a committed request leaves; the user tables updated in place |
| `LoginThrottle.dfy` | fixed-window login throttling with lockout, exact bounds, pruning |
| `MfaLogin.dfy`, `MfaDeadlines.dfy`, `MfaRequests.dfy` | second-factor challenges and recovery codes; how long a challenge lives; the requests as statements |
| `Sessions.dfy`, `SessionTimes.dfy` | token versions, revocation, the session limit; when a session authenticates |
| `StepUp.dfy` | single-use step-up grants and re-authentication counters |
| `Delegation.dfy` | roles, permissions and who may grant what |
| `DepartmentForest.dfy`, `Departments.dfy`, `DepartmentListing.dfy`, `DepartmentEditor.dfy`, `DataScopes.dfy` | the department forest, its services, its listing, the client's editor, row visibility |
| `CommentLexer.dfy`, `CommentParse.dfy`, `SourceLines.dfy` | the comment scanner, what its ranges mean, and the line lookup of the audit engine |
| `AuditPages.dfy`, `AuditCursor.dfy`, `AuditArchive.dfy` | pagination, cursor text and archiving of the audit log |
| `TemplateExpansion.dfy` | placeholder validation and expansion |

## Where the code and its promise differ

The code is modelled as it is. Where a promise holds only under a condition, the condition is proved to be
exact, or the failing case is exhibited:

- The architecture notes say the last effective super administrator cannot be removed. With one when requests
  start to be served that holds in every interleaving. Without one it fails as soon as some user may grant the
  role: activation takes no lock, so a deletion whose guard already passed can remove the first one
  (`RaceWithoutSuperAdmin`). It is never lost, in any run of authorized requests, if and only if one exists at
  the start or no run leads to a user who may grant the role (`NeverLosesLastIff`); a user who may grant it
  now, or a code of the role that nobody has, decides the second case from the tables (`AbleAtTheStart`).
- The statement that creates a throttle row never locks, so a limit of one behaves as a limit of two; the
  bounds are stated for the effective limit max(m, 2). Pruning old rows is invisible if and only if every
  limit is at least two (`PruningInvisibleIff`).
- Over a span of D seconds the bound floor(D/W)+1 windows holds when the span starts with a window
  (`FailuresFromWindowStart`); for any span it is ceil(D/W)+1 (`FailuresInAnySpan`). The smaller bound holds
  for every configuration with window W, every run and every span of D seconds if and only if W divides D
  (`FloorBoundIffWholeWindows`, W at most 30 days); for one configuration whose lockout divides its window, if and only if the
  two ends of the span fit one window (`FloorBoundIff`).
- Rows are pruned after 30 days. A window longer than that can be cut short by pruning: the bounds then hold
  with 30 days in place of W, and the bound in terms of W holds at no span but a single instant
  (`FloorBoundIffWholeWindows`).
- Regenerating recovery codes leaves exactly the ten new ones if and only if no other replacement for the user
  commits between its DELETE and its commit (`ReplacesAllIffAlone`). Two overlapping regenerations leave the
  first one's codes spendable (`OverlapKeepsFirstCodes`), for every user after its enrolment
  (`OverlapLeavesTwoSets`).
- Configuration validation only asks that nested comment delimiters differ. Nested comments can be closed if
  and only if the opening token is not a prefix of the closing one (`NestedClosableIff`).
- can_grant follows visibility for every actor with a department; without one the self scope is the single
  exception (`GrantRefinesVisibility`).
- Expansion is substitution without leftovers if and only if no path in use contains an opening brace
  (`ExpansionCleanIff`).
- The archiver loses nothing wherever it stops, as long as jobs do not overlap (`RunLosesNothing`). Jobs that
  overlap lose nothing in any run if and only if a batch has at most two rows, which the ids in the file name
  determine (`OverlapIsSafeIff`); with three or more, two jobs of one second can replace a file whose rows are
  already deleted (`OverlapLosesRow`).

## Model

| member | source | states |
|---|---|---|
| `SuperAdminGuard.GuardLeavesSurvivor` | backend/src/services/users.rs:617-634 | a guard that lets a user through leaves another active holder, or the user was not an active holder |
| `SuperAdminGuard.WriteHarmsOnlyItsTarget` | backend/src/repositories/users.rs:370-385 | a write can end the super-administrator status of no user but the one it names |
| `SuperAdminGuard.PlanDisciplined` | backend/src/services/users.rs:260-281 | the statements of every request take the role lock and pass the guard for exactly the user the next harmful write names |
| `SuperAdminGuard.StepKeepsInv` | backend/src/services/users.rs:376-412 | every step of any transaction keeps: locks exclusive, other pending writes harmless, and a committed survivor for whoever passed the guard, including over the batch's own uncommitted writes |
| `SuperAdminGuard.RunKeepsInv` | backend/src/services/users.rs:493-503 | the invariant holds after every run |
| `SuperAdminGuard.EveryRunKeepsASuperAdmin` | backend/src/services/users.rs:431-437 | from a quiescent state with an active super administrator, every interleaving ends with one, and the role is still present and active |
| `SuperAdminGuard.RaceWithoutSuperAdmin` | backend/src/services/users.rs:194-281 | from any quiescent state without one but with a user who may grant the role, authorized requests of that user lead to a run that gains and loses the only super administrator |
| `SuperAdminGuard.RunWithholds` | backend/src/services/users.rs:569-615 | a code of the role that no user has is held by nobody after any authorized interleaving, pending writes included; likewise the role itself while no run leads to a user who may grant it |
| `SuperAdminGuard.NeverLosesLastIff` | backend/src/services/users.rs:323-361 | over all authorized runs the last super administrator is never lost if and only if one exists at the start or no run leads to a user who may grant the role |
| `SuperAdminGuard.AbleAtTheStart` | backend/src/services/roles.rs:388-409 | a user who may grant the role at the start opens the race; a code of the role that nobody has at the start closes it for every run |
| `CommittedRequests.CommittedAssignment` | backend/src/repositories/users.rs:444-461 | in every interleaving, a committed role assignment leaves its user exactly the given roles, plus only those links that another transaction committed after its DELETE ran; other links, accounts and roles are as committed |
| `CommittedRequests.BeginsOnLivingTargets` | backend/src/services/users.rs:538-590 | a request begins only for living users, each at most once, and assigns only existing active roles, each at most once |
| `CommittedRequests.ActorsStayWithinBounds` | backend/src/services/users.rs:569-615 | an authorized actor is active, neither deletes nor deactivates itself, and hands out only active roles all of whose codes it has |
| `CommittedRequests.HasIff` | backend/src/repositories/permissions.rs:78-94 | a code is effective exactly through an active role linked to a living, active user |
| `CommittedRequests.RoleEventOutcome` | backend/src/services/roles.rs:161-353 | what role maintenance changes, and that it can neither deactivate or delete super_admin nor change its permissions |
| `UserStore.Connection.GuardState` | backend/src/repositories/users.rs:387-415 | says whether the user is living, active and linked to super_admin, and how many such users there are |
| `UserStore.Connection.ProtectLast` | backend/src/services/users.rs:617-634 | refuses exactly when the user is the only super administrator there is |
| `UserStore.Connection.SoftDeleteUser` | backend/src/repositories/users.rs:370-385 | succeeds exactly for a living user, who is gone afterwards with all its links; every other account and link stays, and nobody else stops being a super administrator |
| `UserStore.Connection.UpdateStatus` | backend/src/repositories/users.rs:324-351 | a living user gets the given status or keeps its own; no other account and no link changes |
| `UserStore.Connection.AssignUserRoles` | backend/src/repositories/users.rs:444-461 | afterwards the user has exactly the given roles, whatever it had before, and every other link is as it was |
| `UserStore.Connection.DeleteUsers` | backend/src/services/users.rs:376-412 | all listed users, living before, are deleted with their links and a super administrator is left if there was one, or nothing changed; it succeeds exactly when its plan run alone does |
| `UserStore.Connection.AssignRolesToUsers` | backend/src/services/users.rs:493-534 | every listed user ends with exactly the given roles, everyone else keeps its links, and a super administrator is left if there was one; or nothing changed |
| `UserStore.AloneIsInPlace` | backend/src/services/users.rs:376-412 | a transaction's overlay applied at commit equals executing its statements in place, errors included |
| `UserStore.BatchDeleteOutcome` | backend/src/services/users.rs:365-412 | a successful batch deletes exactly its (distinct, living) users and their links and leaves a super administrator if there was one |
| `UserStore.BatchAssignOutcome` | backend/src/services/users.rs:493-534 | the same of the batch's statements run alone: the listed users' links are exactly the given roles |
| `UserStore.DeletionOutcome` | backend/src/services/users.rs:323-363 | a single deletion run alone deletes a living user and its links and changes nothing else |
| `UserStore.UpdateOutcome` | backend/src/services/users.rs:194-321 | a change of status run alone gives a living user that status and changes nothing else |
| `UserStore.CreationOutcome` | backend/src/services/users.rs:107-192 | a creation run alone adds one user with the given status and exactly the given roles |
| `LoginThrottle.LoginAttempts.RecordLoginFailure` | backend/src/repositories/auth_sessions.rs:209-249 | other keys are untouched; the count is one exactly when a window opens and one more otherwise, in a window that has not elapsed; it locks exactly at the limit, and never on the insert |
| `LoginThrottle.LoginAttempts.LockedUntil` | backend/src/services/auth.rs:289-305 | the latest of the locks in force over the keys |
| `LoginThrottle.LoginAttempts.RecordFailedLogin` | backend/src/services/auth.rs:231-287 | the loop over the three keys records each and returns the latest lock |
| `LoginThrottle.LoginAttempts.Login` | backend/src/services/auth.rs:68-110 | while the account, the address or the pair is locked, every password is answered rate-limited with the latest of these locks and nothing is recorded; otherwise the password alone decides, and a wrong one is counted under all three keys against its own limit |
| `LoginThrottle.LoginAttempts.ClearAfterLogin` | backend/src/services/auth.rs:156-161 | success clears the account keys and never the address key; the same step of the run model |
| `LoginThrottle.LoginAttempts.PruneAttempts` | backend/src/repositories/auth_sessions.rs:177-192 | keeps exactly the rows updated in the last 30 days, unchanged, and drops no lock that is or will be in force |
| `LoginThrottle.ThreeKeys` | backend/src/services/auth.rs:231-287 | each upsert of an attempt reads its row as it was before the attempt, and the lock reported is the latest of the three |
| `LoginThrottle.StepKeepsAgreement` | backend/src/repositories/auth_sessions.rs:209-249 | after every step the row of an address agrees with the last failure recorded for it, and a new failure follows on from that one |
| `LoginThrottle.HitsAreLinked` | backend/src/repositories/auth_sessions.rs:194-249 | in every run and configuration, consecutive failures of an address open a new window after the old one elapsed or was pruned, or continue it, a lockout apart once the limit is reached |
| `LoginThrottle.PlausibleIsRecorded` | backend/src/repositories/auth_sessions.rs:194-249 | conversely, every sequence of failures that follows these rules is recorded by some run |
| `LoginThrottle.FailuresPerWindow` | backend/src/repositories/auth_sessions.rs:194-249 | at most m + ceil(W/L) - 1 failures of one address per window, for every configuration and whatever the accounts tried |
| `LoginThrottle.WindowBoundIsReached` | backend/src/repositories/auth_sessions.rs:209-249 | some run reaches that bound, for every configuration |
| `LoginThrottle.FailuresFromWindowStart` | backend/src/services/auth.rs:75-110 | at most (floor(D/W)+1) windows' worth over a span that starts with a window, with W at most 30 days |
| `LoginThrottle.FailuresInAnySpan` | backend/src/services/auth.rs:75-110 | at most (ceil(D/W)+1) windows' worth over any span, with W at most 30 days |
| `LoginThrottle.EndsFitSuffices` | backend/src/repositories/auth_sessions.rs:209-249 | the floor bound holds for any span of D seconds if W divides D or m - 1 + floor((D mod W)/L) is at most ceil(W/L) |
| `LoginThrottle.FloorBoundIff` | backend/src/repositories/auth_sessions.rs:209-249 | for a lockout that divides the window it holds exactly then |
| `LoginThrottle.FloorBoundIffWholeWindows` | backend/src/repositories/auth_sessions.rs:177-249 | it holds for every configuration with window W if and only if W divides D, and for windows longer than the retention only at a single instant |
| `LoginThrottle.PrunedRunAgrees` | backend/src/repositories/auth_sessions.rs:177-249 | from tables that differ only in outlived rows, a run with pruning has the outcomes of the run without it |
| `LoginThrottle.PruningInvisibleIff` | backend/src/repositories/auth_sessions.rs:177-249 | pruning shows in no run if and only if every limit is at least two |
| `MfaLogin.StepKeepsInv` | backend/src/services/mfa.rs:170-243 | every statement of every request keeps: one claim per login, locks held by transactions on live challenges, attempts left |
| `MfaLogin.RunKeepsInv` | backend/src/services/mfa.rs:270-363 | so does every interleaving, the two-phase enrolment with its rollback and second lock included |
| `MfaLogin.AtMostOneSessionPerLogin` | backend/src/services/mfa.rs:58-160 | live challenges, pending and minted sessions of one begin_login number at most one together; live challenges have had fewer than five wrong answers; at most nine wrong answers per login |
| `MfaDeadlines.NoLockAfterDeadline` | backend/src/services/mfa.rs:44-160 | in every run, no transaction that starts 300 seconds or more after the event that created a challenge gets hold of it, for any purpose |
| `MfaDeadlines.RightAnswerInTime` | backend/src/services/mfa.rs:163-243 | less than 300 seconds after a login began, whatever others did, a right code yields its session unless somebody took the challenge or the user began another login |
| `MfaDeadlines.PasskeyInTime` | backend/src/services/mfa.rs:486-640 | the same for a passkey, counted from the exchange of the challenge |
| `MfaDeadlines.EnrolmentInTime` | backend/src/services/mfa.rs:263-363 | the same for an enrolment, through its two transactions |
| `MfaDeadlines.OneOpenChallengePerUser` | backend/src/repositories/mfa.rs:147-162 | a new login supersedes the old one: in no run has a user two open challenges |
| `MfaLogin.EachCodePaysOnce` | backend/src/services/mfa.rs:368-461 | no recovery code is spent twice and no two sessions were paid with the same code |
| `MfaLogin.DeadCodesStayDead` | backend/src/repositories/mfa.rs:300-316 | a deleted code is never spent, not even by a request that matched it before |
| `MfaLogin.RegenerationKillsSeenCodes` | backend/src/services/mfa.rs:929-965 | after a committed regeneration no code its DELETE saw is ever spent, in any continuation |
| `MfaLogin.ReplacesAllIffAlone` | backend/src/services/mfa.rs:929-965 | in every run from the initial state, a regeneration leaves exactly its ten new codes if and only if no other replacement for the user committed between its DELETE and its commit |
| `MfaLogin.OverlapKeepsFirstCodes` | backend/src/repositories/mfa.rs:261-285 | whenever two regenerations of one user have both deleted before either commits, the first one's codes are still spendable after both have committed |
| `MfaLogin.BothDelete` | backend/src/services/mfa.rs:929-965 | that overlap can be reached from every state, for every user |
| `MfaLogin.OverlapLeavesTwoSets` | backend/src/services/mfa.rs:929-965 | for every user, a run from the initial state that enrols it and regenerates twice leaves twenty spendable codes |
| `MfaRequests.Database.ChallengeForUpdate` | backend/src/repositories/mfa.rs:164-179 | finds exactly an unlocked, unconsumed challenge of the expected kind before its expiry, with attempts left; once found nobody else can lock it, and other challenges stay as lockable as they were |
| `MfaRequests.Database.RecordChallengeFailure` | backend/src/repositories/mfa.rs:224-238 | counts one attempt on this challenge only and consumes it exactly at the fifth |
| `MfaRequests.Database.ConsumeRecoveryCode` | backend/src/repositories/mfa.rs:300-316 | true exactly for an unused code of this user; afterwards it cannot be spent |
| `MfaRequests.Database.ReplaceRecoveryCodes` | backend/src/repositories/mfa.rs:261-285 | afterwards exactly the codes its DELETE did not see and ten new unused ones of the user are there |
| `MfaRequests.Database.VerifyFactor` | backend/src/services/mfa.rs:163-243 | yields a session exactly for a right answer to an unlocked, unconsumed challenge of the right kind before its expiry, and consumes it; a wrong answer counts, the fifth ends the challenge; all of it a run of the machine |
| `MfaRequests.Database.VerifyRecovery` | backend/src/services/mfa.rs:368-461 | the same for a recovery code, whatever text is presented: it must be an unused code of the challenge's own user, and is used afterwards |
| `MfaRequests.Database.SpendMatched` | backend/src/services/mfa.rs:384-461 | its transaction in whatever state it starts: a code spent or deleted since it was matched is answered as a wrong one |
| `MfaRequests.Database.VerifyEnrolment` | backend/src/services/mfa.rs:263-363 | the same for an enrolment challenge, with its rollback and second lock |
| `MfaRequests.Database.CompleteEnrolmentOf` | backend/src/services/mfa.rs:321-363 | the second transaction yields the session exactly when the challenge is then still unlocked, unconsumed and not expired |
| `MfaRequests.Database.StartPasskeyLogin` | backend/src/services/mfa.rs:486-534 | exchanges exactly a free login challenge before its expiry, consumes it, and creates a passkey challenge of the same user and login for 300 seconds |
| `MfaRequests.Database.RegenerateRecoveryCodes` | backend/src/services/mfa.rs:929-965 | uninterrupted, a run of the machine that leaves the user exactly ten new unused codes and other users' codes as they were |
| `Sessions.FirstRowsAreNewest` | backend/src/repositories/auth_sessions.rs:152-175 | whoever is kept is newer than whoever is not |
| `Sessions.LimitKeepsNewest` | backend/src/repositories/auth_sessions.rs:152-175 | enforcing the limit keeps at most that many live sessions, the newest, and touches no other user |
| `Sessions.StaleNeverAuthenticates` | backend/src/repositories/auth_sessions.rs:27-79 | a session with an outdated token version authenticates in no continuation |
| `Sessions.ChangeEndsSessions` | backend/src/services/auth.rs:370-418 | a session that exists when the password changes never authenticates afterwards |
| `Sessions.LateSessionNeverAuthenticates` | backend/src/services/auth.rs:134-207 | nor does a session created later from a user row read before the change, however the steps interleave |
| `SessionTimes.NeverAfterLifetime` | backend/src/repositories/auth_sessions.rs:27-94 | in no run does a session authenticate once its lifetime has passed since the login |
| `SessionTimes.NeverAfterIdleTime` | backend/src/repositories/auth_sessions.rs:27-94 | nor when its idle time has passed since its creation or its last request, and never again after that |
| `SessionTimes.NeverAfterRevocation` | backend/src/services/auth.rs:332-418 | nor after its logout, after revocation of all sessions of the user, or after a password change |
| `SessionTimes.NeverWhileBarred` | backend/src/repositories/auth_sessions.rs:27-94 | nor while its account is inactive, deleted or lacks a required second factor |
| `SessionTimes.AuthenticatesUntilThen` | backend/src/repositories/auth_sessions.rs:27-94 | conversely, a session created from a current row of an account that may log in authenticates until its lifetime or idle time is over, whatever happens to other users |
| `Sessions.LoginRespectsLimit` | backend/src/services/auth.rs:134-207 | after a login at most `limit` live sessions, the new one among them, all newer than those it revoked |
| `Sessions.RunsStayCapped` | backend/src/repositories/auth_sessions.rs:137-175 | no run takes a user above the limit |
| `Sessions.SessionStore.RevokeAllForUser` | backend/src/repositories/auth_sessions.rs:137-150 | revokes exactly the user's live sessions and counts them |
| `Sessions.SessionStore.CreateLoginSession` | backend/src/services/auth.rs:134-207 | the statements in order leave the new session live and the user within the limit |
| `StepUp.StepKeepsUses` | backend/src/repositories/step_up.rs:29-53 | in every interleaving an issued grant is unspent, in use by one request or used by one finished request, never two of these |
| `StepUp.StepKeepsProofs` | backend/src/services/step_up.rs:42-89 | every grant rests on its own re-authentication of the same user |
| `StepUp.RunKeepsInv` | backend/src/services/step_up.rs:91-128 | the whole invariant holds after every run |
| `StepUp.ScopeForPermits` | backend/src/handlers/users.rs:58-225 | each handler asks for the one scope whose grant permits its mutation: deletions, role changes, department changes and the others never share one |
| `StepUp.ReauthenticationTakes` | backend/src/services/mfa.rs:898-916 | a user with TOTP re-authenticates exactly with a counter above every earlier one |
| `StepUp.TotpUsersPresentCodes` | backend/src/services/mfa.rs:898-916 | in every run, once a user has TOTP every re-authentication of it comes with a code |
| `StepUp.SpendableUntilDeadline` | backend/src/services/step_up.rs:42-128 | whatever others do, a grant nobody has spent can be spent less than 300 seconds after its issue by every handler its scope permits |
| `StepUp.MutationsRestOnOwnGrants` | backend/src/handlers/users.rs:141-225 | finished mutations map injectively to grants of the same session and user whose scope permits the mutation, spent less than 300 seconds after issue; re-authentication counters of a TOTP user strictly increase |
| `StepUp.Grants.ConsumeReauthCounter` | backend/src/repositories/mfa.rs:102-121 | accepts exactly a counter above the last one, and no counter twice |
| `StepUp.Grants.IssueGrant` | backend/src/services/step_up.rs:42-89 | prune and insert are the machine's issue step, leave the grant spendable for 300 seconds and drop no other live grant |
| `StepUp.Grants.ConsumeGrant` | backend/src/repositories/step_up.rs:29-53 | succeeds exactly for an unspent, unexpired grant of this session, user and scope; afterwards nobody can spend it |
| `StepUp.Grants.Handle` | backend/src/handlers/departments.rs:32-87 | the mutation happens exactly when an unspent, unexpired grant of this session and user permits it, and the grant is spent first |
| `Delegation.StepStaysWithin` | backend/src/services/roles.rs:388-409 | one service call gives nobody a code outside what it had and what the acting user has |
| `Delegation.NoAmplification` | backend/src/services/users.rs:569-615 | if the acting users' initial codes lie in P, no run gives any user a code outside P it did not have, even when actors use what they gained meanwhile |
| `Delegation.EffectiveIff` | backend/src/repositories/permissions.rs:78-94 | a code is effective exactly through an active role of a living, active user |
| `Delegation.HandedRolesAreActive` | backend/src/services/users.rs:569-615 | whoever assigns a role, or activates a user that has it, hands out an active role all of whose codes are its own |
| `Delegation.UserCallOutcome` | backend/src/services/users.rs:107-536 | what each accepted call on users leaves: accounts and memberships, replaced and not added to |
| `Delegation.RoleCallOutcome` | backend/src/services/roles.rs:83-353 | what each accepted call on roles leaves: grants replaced, activity changed, a deleted role gone with its links |
| `Delegation.StepKeepsRoles` | backend/src/services/roles.rs:355-386 | every role keeps the reads its management permissions depend on; super_admin keeps its code, activity and permissions |
| `Delegation.RunKeepsRoles` | backend/src/services/roles.rs:269-343 | so over every run; the two dependency rules are stated on the codes themselves |
| `Delegation.Transaction.AssignPermissions` | backend/src/repositories/roles.rs:196-213 | afterwards the role has exactly the listed permissions and every other role its own |
| `Delegation.Transaction.ReplaceRoles` | backend/src/repositories/users.rs:444-461 | afterwards the user has exactly the listed roles and everyone else its own |
| `Delegation.Transaction.AssignRolePermissions` | backend/src/services/roles.rs:315-353 | succeeds exactly for an existing role other than super_admin and distinct known permissions that meet the dependency rules and are all the actor's own; then the role has exactly these |
| `Delegation.Transaction.AssignRolesMany` | backend/src/services/users.rs:471-536 | succeeds exactly for distinct living users and distinct active roles whose codes are all the actor's own; then each listed user has exactly these roles |
| `DepartmentForest.ForestIffRanked` | backend/migrations/20260808081500_add_organization_data_scopes.sql:13-27 | no department is its own ancestor if and only if a rank grows along every parent link |
| `DepartmentForest.ChainIsShort` | backend/src/repositories/departments.rs:118-140 | in a forest every ancestor chain is shorter than the table |
| `DepartmentForest.Evaluate` | backend/src/repositories/departments.rs:21-55 | the level-by-level evaluation of the recursive query ends on every forest and returns exactly the tree paths below the start rows |
| `DepartmentForest.ParentWouldCreateCycle` | backend/src/repositories/departments.rs:118-140 | true exactly when the new parent is the department or below it |
| `DepartmentForest.MoveKeepsForestIff` | backend/src/services/departments.rs:103-120 | re-parenting keeps the table a forest if and only if the new parent is outside the moved subtree |
| `DepartmentForest.AdditionKeepsForest` | backend/src/repositories/departments.rs:142-159 | adding a leaf keeps the forest |
| `DepartmentForest.RemovalKeepsForest` | backend/src/repositories/departments.rs:187-217 | removing a leaf keeps the forest |
| `Departments.FindById` | backend/src/repositories/departments.rs:58-96 | finds exactly the departments the scope describes, with the number of edges below where the scope starts |
| `Departments.StepKeepsInv` | backend/src/services/departments.rs:86-159 | every call keeps the forest, unique codes and the references of users and audit rows |
| `Departments.StepKeepsRoots` | backend/src/services/departments.rs:161-198 | no call changes the root set, a root's data or a department's organization |
| `Departments.AcceptedMove` | backend/src/services/departments.rs:215-232 | a move that changes the parent was accepted only for a visible, active parent of the same organization outside the moved subtree |
| `Departments.ChangeOutcome` | backend/src/repositories/departments.rs:161-185 | a change gives each field it mentions the value it mentions and leaves the others and all other departments |
| `Departments.CreationOutcome` | backend/src/services/departments.rs:38-84 | a new department is a leaf of the actor's organization under an active parent it sees, with a free code |
| `Departments.DeletionOutcome` | backend/src/services/departments.rs:161-198 | a deleted department had a parent, no children, no living members and no audit rows; only its departed members change |
| `Departments.RunKeepsForest` | backend/src/services/departments.rs:38-198 | every reachable table is a forest inside organizations with the original roots |
| `Departments.DepartmentService.CreateDepartment` | backend/src/services/departments.rs:38-84 | succeeds exactly under a scope that reaches below the own department, for a visible active parent and a code free in the organization; otherwise nothing changed |
| `Departments.DepartmentService.UpdateDepartment` | backend/src/services/departments.rs:86-159 | succeeds exactly for a visible non-root department, a parent that stays or is visible, active and outside the subtree, and a code free in the organization; otherwise nothing changed |
| `Departments.DepartmentService.DeleteDepartment` | backend/src/services/departments.rs:161-198 | succeeds exactly for a visible non-root department without children, living members and audit references; departed members lose their reference, a refused deletion changes nothing |
| `DepartmentListing.List` | backend/src/repositories/departments.rs:21-55 | returns the query's rows strictly ordered by tree path |
| `DepartmentListing.ListedOnce` | backend/src/repositories/departments.rs:21-96 | find_by_id succeeds exactly for the listed ids; each is listed once, with the same depth |
| `DepartmentListing.PrefixIffDescends` | backend/src/repositories/departments.rs:33-41 | one row's path extends another's exactly when its department descends from the other's |
| `DepartmentListing.ParentsComeFirst` | backend/src/repositories/departments.rs:48-49 | every listed ancestor precedes its descendants |
| `DepartmentListing.SubtreeIsBlock` | backend/src/repositories/departments.rs:48-49 | the descendants of a listed department are exactly one contiguous block that it heads |
| `DepartmentListing.SiblingsById` | backend/src/repositories/departments.rs:48-49 | children of one department are listed in the order of their ids |
| `DepartmentEditor.DescendantIds` | frontend/src/app/pages/departments/department-editor.dialog.ts:80-100 | the repeat-until-stable loop ends on every list and collects exactly the descendants-or-self within it |
| `DepartmentEditor.ParentOptions` | frontend/src/app/pages/departments/department-editor.dialog.ts:32-40 | offers exactly the listed non-descendants that are active or the current parent |
| `DepartmentEditor.LoopMatchesCycleCheck` | frontend/src/app/pages/departments/department-editor.dialog.ts:80-100 | on a true list that holds the whole subtree, the loop finds exactly what the server's cycle check rejects |
| `DepartmentEditor.OffersPassCycleCheck` | backend/src/repositories/departments.rs:118-140 | given the server's own listing, for every actor and editable department: offered if and only if the cycle check passes and the option is active or current |
| `DataScopes.GrantRefinesVisibility` | backend/src/repositories/users.rs:67-104 | a scope that may grant another shows everything the other shows, except exactly self under a department scope without a department |
| `DataScopes.GrantRefinesDepartments` | backend/src/repositories/departments.rs:58-96 | for departments without exception |
| `DataScopes.SeesUserIff` | backend/src/repositories/users.rs:67-104 | whom an actor sees, in terms of the department tree: never a deleted user, outside `all` nobody of another organization, and per scope itself, its department or what descends from it |
| `DataScopes.CanGrantIffAlwaysWider` | backend/src/access.rs:36-47 | can_grant holds if and only if in every consistent database the scope is at least as wide |
| `DataScopes.CanGrantIsTotalOrder` | backend/src/access.rs:36-47 | can_grant orders the scopes totally |
| `DataScopes.SessionScopeIsGreatest` | backend/src/repositories/auth_sessions.rs:37-47 | a session's scope may grant exactly what some active role's scope may, or self |
| `CommentLexer.CommentRanges` | codex-audit-pipeline/tools/arc-flow/src/audit.rs:437-547 | the four-state loop ends and returns the ranges of a recursive reference lexer, for every content and validated syntax, and each range is a comment |
| `CommentParse.RangesAreTheComments` | codex-audit-pipeline/tools/arc-flow/src/audit.rs:437-547 | the ranges are, in order, the comments of the one split of the content into plain bytes, literals and comments: every comment opener reached in code starts a range, and none starts inside a string literal |
| `CommentParse.SplitUnique` | codex-audit-pipeline/tools/arc-flow/src/audit.rs:437-547 | a content has only one such split |
| `CommentParse.LiteralEndsOnce` | codex-audit-pipeline/tools/arc-flow/src/audit.rs:480-494 | a literal body splits into escapes with the byte after them and bytes that begin neither token; the literal ends, in one place only, after the first closing token at such a boundary, or with the content |
| `CommentParse.WhatBegins` | codex-audit-pipeline/tools/arc-flow/src/audit.rs:446-481 | strings win over block comments, block comments over line comments, the longest token over shorter ones and the last of equals |
| `CommentParse.FlatBlockEnds` | codex-audit-pipeline/tools/arc-flow/src/audit.rs:502-543 | without nesting a block comment ends exactly after the first closing token |
| `CommentLexer.ScanCode` | codex-audit-pipeline/tools/arc-flow/src/audit.rs:437-547 | in code, the next state and offset are those of the longest matching opener |
| `CommentLexer.Longest` | codex-audit-pipeline/tools/arc-flow/src/audit.rs:437-547 | picks a matching token that no other matching token exceeds |
| `CommentLexer.CommentsOrdered` | codex-audit-pipeline/tools/arc-flow/src/audit.rs:437-547 | ranges are non-empty, in bounds, sorted and disjoint |
| `CommentLexer.CommentsAreComments` | codex-audit-pipeline/tools/arc-flow/src/audit.rs:437-547 | every range is a line comment up to its newline, a block comment that balances at its end and nowhere before, or one still open at the end of the content |
| `CommentLexer.CoveredIffInComment` | codex-audit-pipeline/tools/arc-flow/src/audit.rs:549-552 | an offset is in some range exactly when the reference lexer is inside a comment there |
| `CommentLexer.BlockEndBalances` | codex-audit-pipeline/tools/arc-flow/src/audit.rs:437-547 | a closed block comment is balanced with no balanced proper prefix; an unclosed one runs to the end and is never balanced before |
| `CommentLexer.NestedClosableIff` | codex-audit-pipeline/tools/arc-flow/src/audit.rs:975-1011 | nested comments can be closed if and only if the opening token is not a prefix of the closing one |
| `CommentLexer.PartitionPoint` | codex-audit-pipeline/tools/arc-flow/src/audit.rs:549-552 | bisection splits sorted keys exactly at the key |
| `CommentLexer.IsCommentOffset` | codex-audit-pipeline/tools/arc-flow/src/audit.rs:549-552 | one probe after the bisection decides membership in any range |
| `CommentLexer.LookupMatchesReference` | codex-audit-pipeline/tools/arc-flow/src/audit.rs:437-552 | the lookup says "comment" exactly where the reference lexer does |
| `SourceLines.LineIsMaximal` | codex-audit-pipeline/tools/arc-flow/src/audit.rs:400-418 | line number is one plus the newlines before the match, text is the maximal newline-free slice around it, column is the distance |
| `SourceLines.StartsCountNewlines` | codex-audit-pipeline/tools/arc-flow/src/audit.rs:390-398 | the i-th line start follows the i-th newline |
| `AuditPages.Query` | backend/src/repositories/audit_logs.rs:127-149 | selected rows in strictly descending (created_at, id) order, cut by offset and limit |
| `AuditPages.List` | backend/src/services/audit_logs.rs:14-54 | a page of the clamped size and a cursor exactly when more rows follow |
| `AuditPages.PageContents` | backend/src/services/audit_logs.rs:14-54 | with n the page size (20 unless asked, 1 to 100) and k the page, a page shows newest first exactly the filtered rows below the cursor of which at least (k-1)n and fewer than kn others are newer |
| `AuditPages.CursorSplits` | backend/src/repositories/audit_logs.rs:127-149 | below a row's cursor lie exactly the rows after it |
| `AuditPages.FollowAll` | backend/src/services/audit_logs.rs:14-54 | following next_cursor ends and shows exactly the filtered log in order, for every page size and starting page |
| `AuditPages.WalkContents` | backend/src/services/audit_logs.rs:42-46 | with rows recorded meanwhile, a row is shown exactly when it was in the log as the request covering its key was answered |
| `AuditPages.WalkMissesNothing` | backend/src/services/audit_logs.rs:42-46 | then too: strictly descending, none twice, none of the starting rows missing |
| `AuditPages.NewerRowsChangeNothing` | backend/src/services/audit_logs.rs:42-46 | if every row recorded meanwhile is newer, the pages show the starting log exactly |
| `AuditCursor.CursorRoundTrip` | backend/src/services/audit_logs.rs:56-76 | parsing inverts encoding for every positive id and representable time |
| `AuditCursor.EncodingInjective` | backend/src/services/audit_logs.rs:74-76 | different rows have different cursors |
| `AuditCursor.ParseIffWrites` | backend/src/services/audit_logs.rs:60-65 | the integer parser accepts exactly the in-range decimal numerals, with their value |
| `AuditCursor.ParseCursorIff` | backend/src/services/audit_logs.rs:56-72 | a text is accepted exactly when it is two in-range numerals joined by a dot, with that meaning |
| `AuditArchive.BatchMatches` | backend/src/repositories/audit_logs.rs:28-54 | a batch still in the table is deleted whole |
| `AuditArchive.StepKeepsInv` | backend/src/bin/archive_audit_logs.rs:44-58 | every step keeps: rows gone from the table are in a file no later batch can replace |
| `AuditArchive.RunLosesNothing` | backend/src/bin/archive_audit_logs.rs:40-62 | wherever jobs stop and restart, every row ever recorded is in the table or in a published file |
| `AuditArchive.SmallBatchesLoseNothing` | backend/src/bin/archive_audit_logs.rs:79-93 | with batches of at most two rows nothing is lost, however many jobs overlap and wherever they stop |
| `AuditArchive.OverlapLosesRow` | backend/src/bin/archive_audit_logs.rs:79-93 | for every batch size from three on and any three rows split by two cutoffs of one second, overlapping jobs lose the middle row |
| `AuditArchive.OverlapIsSafeIff` | backend/src/bin/archive_audit_logs.rs:40-62 | overlapping jobs lose no row in any run if and only if the batch size is at most two |
| `AuditArchive.ArchiveBatch` | backend/src/repositories/audit_logs.rs:9-26 | the expired rows with the smallest ids in id order, all of them if they fit |
| `AuditArchive.Archiver.ArchiveOnce` | backend/src/bin/archive_audit_logs.rs:44-58 | a round deletes exactly its batch, cannot mismatch, and whatever leaves the table is in a published file |
| `AuditArchive.Archiver.DeleteArchived` | backend/src/repositories/audit_logs.rs:28-54 | deletes exactly the expired rows with the ids of the batch or, on a count mismatch, none |
| `AuditArchive.Archiver.Archive` | backend/src/bin/archive_audit_logs.rs:40-62 | ends; exactly the rows older than the cutoff leave the table, each is in a published file, the batches concatenate to them in id order, and the counter is their number |
| `TemplateExpansion.ValidateTemplate` | codex-audit-pipeline/tools/arc-flow/src/config.rs:673-690 | accepts exactly NUL-free texts in which every opening brace starts an allowed placeholder |
| `TemplateExpansion.WellFormedIff` | codex-audit-pipeline/tools/arc-flow/src/config.rs:673-690 | read without a scan: a template is well formed exactly when every opening brace in it starts a placeholder with an alias or one of the four built-in names |
| `TemplateExpansion.Expand` | codex-audit-pipeline/tools/arc-flow/src/project.rs:121-134 | the two loops replace the alias names, then the built-in names, one after the other |
| `TemplateExpansion.ReplaceRenders` | codex-audit-pipeline/tools/arc-flow/src/project.rs:123-132 | replacing one name in a partly expanded template replaces exactly its placeholders |
| `TemplateExpansion.ExpansionIsSubstitution` | codex-audit-pipeline/tools/arc-flow/src/project.rs:121-134 | in any order that covers the names, expansion is one simultaneous left-to-right substitution |
| `TemplateExpansion.ExpansionCleanIff` | codex-audit-pipeline/tools/arc-flow/src/config.rs:266-278 | expansion substitutes and leaves no opening brace if and only if no used path has one |
| `TemplateExpansion.BraceInPathShowsOrder` | codex-audit-pipeline/tools/arc-flow/src/project.rs:121-134 | with a placeholder anywhere inside a path the order of the names shows in the result |

## Left out

- Password hashing, token hashing, AES, TOTP code generation and WebAuthn: the outcome of a check is a choice of the environment, and tokens stand for their hashes, which are taken to be distinct.
- HTTP routing, cookies, CSRF, OpenAPI, telemetry, metrics and configuration loading: wiring without invariants of their own.
- Validators of names, codes, colours and lengths, ILIKE filters and sort columns: each is one branch; the audit filter is an arbitrary predicate.
- Row locks other than the super_admin role row and the challenge rows are not modelled, so the interleavings proved safe include some that the database would serialize.
- Delegation, Departments, LoginThrottle: a service call is one step, although the code reads its checks outside the writing transaction; interference between a check and its write is not captured.
- SuperAdminGuard: an acting user is taken to see every other user, and its permissions are read once, when the request begins; data scopes only refuse more requests.
- NeverLosesLastIff: which users can come to grant the role is stated over runs; the tables at the start are shown to decide it in two cases (`AbleAtTheStart`), not in all.
- FloorBoundIff: exact for a lockout that divides the window; for other lockouts the condition is shown to be sufficient (`EndsFitSuffices`).
- Delegation: calls without an acting user (start-up bootstrap) skip the grant checks and are not part of the runs; the visibility of targets and data-scope grants only refuse more calls. Which data scope a session ends up with after role assignments is not modelled.
- Sessions: creating a session, enforcing the limit and pruning are one step, as in the code's transaction; two logins of one user are therefore not interleaved inside it.
- StepUp: a user who must have TOTP but has not enrolled yet is refused by the code at re-authentication and treated like a user without it here.
- Sessions: remembered-device cookies and lifetimes are parameters of the event that creates a session.
- StepUp: the module unlock that can stand in for a grant on some role changes is not part of this model.
- MfaRequests: begin_login and the registration and revocation of passkeys are not given as methods; begin_login is an event of the interleaving machine.
- AuditArchive: writing, syncing and renaming a file together with its manifest are one publish step; partially written temporary files never carry a published name.
- AuditPages: rows removed by the archiver while a client pages are not considered, and the joined user names a filter may read do not change meanwhile.
- AuditCursor: the range of representable times is a parameter, not the calendar library's constant.
- CommentLexer: contents are byte sequences; the UTF-8 validity of the original text is not needed and not modelled.
- CommentLexer.PartitionPoint: the standard library's search is modelled as bisection with the same specification.
- TemplateExpansion: resolving and canonicalizing the paths, and the rule that workflow steps may use a service's host port, are not modelled.
- The other tools of the repository (process and container handling, secret scanning, scope globs, quality scripts) and the Angular user interface apart from the descendant loop.
