# Verified models of the server's stateful managers

These Dafny modules model the stateful managers under `server/` and one string algorithm
under `scripts/`, and prove what they promise over whole runs: the service recovery
scheduler, the error recovery manager with its circuit breaker, role-based access with its
answer cache over the permission engine, refresh and revoked tokens, batched usage
counters, tenant grants, configuration reload with rollback, and the audit of dependency
edges in an npm lock file.

`dafny verify dfyconfig.toml` checks everything.

## How the models are built

Every manager has a module of specification functions on an immutable `State` (`Tokens`,
`Rbac`, ...), a module that proves properties of them, mostly over runs (`TokenRuns`,
`RbacProofs`, ...), and a class with the program's own fields and loops
(`TokenManager.Manager`, ...). Each method of a class ends in exactly the state the
specification function gives, so what is proved about runs of the functions holds of the
class. A run is any sequence of events; where the program awaits, one call is several
events and other events may come between them.

A further module of each (`TokenMeaning`, `RbacMeaning`, ...) says what the steps do in
terms of fields, literal values and calls made, without the specification functions: when
exactly a call is refused, what exactly it changes, and which of the calls made so far
decides.

- Time is a whole number of microseconds passed to each operation; it does not run
  backwards. A stretch of code without a suspension reads the clock once, except that
  `handle_error` reads it at five points: looking at the breaker, choosing a strategy (one
  reading for the whole scan of the history), starting, completing and counting.
- Outcomes of code outside (recovery functions, strategies, loading, validating and
  applying configurations, database sessions) are arguments and may be anything.
- Token signatures cannot be forged, and ids of new tokens are new.

## Where the code does less than it seems to

- A revoked token is accepted again in the last part of a second before its expiry, because
  the lifetime of its blacklist entry is cut to whole seconds
  (`TokenRuns.AcceptedAfterRevocation` says exactly when).
- `revoke_token` does not verify the signature of what it is given, and a new entry replaces
  an old one. A second revocation that names the id of a revoked token with an earlier
  expiry, or without one, makes the token acceptable again, an unused refresh token
  included (`TokenRuns.SecondRevocationReopens`; `TokenRuns.RevokedStaysOutExactly` says
  exactly when).
- A refresh token issued to the user id `""` carries no user, so that redeeming it gives an
  unused record to nobody (`TokenRuns.UnusedBoundedExactly`).
- A permission rule that expires at this very instant is honoured by the check and removed
  by cleanup (`PermissionProofs.CleanupTakesAccessExactly`), and until a cleanup an expired
  rule hides the live ones after it (`PermissionProofs.CheckMeansLiveExactly`).
- The role manager's flattened hierarchy gives SYSTEM almost everything, the permission
  manager's recursive check only ADMIN (`PermissionProofs.FlatteningAgreesExactly`).
- Revoking a role that was assigned twice takes away the first assignment too
  (`RbacProofs.RevokeRestoresQueriesExactly` says exactly when nothing is lost).
- Questions share a cache entry with others exactly if an identifier is absent, reads `None`
  or contains a colon (`RbacProofs.KeyUniqueExactly`), and may then get each other's answers
  (`RbacProofs.SharedKeyAnswersWrongly`); so do the recoveries of errors share their keys
  (`ErrorRecoveryOverlap.KeyUniqueExactly`).
- Eighteen failures in an hour may leave the circuit breaker closed
  (`ErrorRecoveryRuns.EighteenMayPass`), and overlapping calls may exceed the hourly limit
  of a strategy, by as many as were in flight with its code and strategy
  (`ErrorRecoveryOverlap.OverlappingLimit`, `ErrorRecoveryOverlap.OverlapExceedsLimit`).
- Usage is recorded for the wrong tenant or user where an id is empty, contains a colon or
  is the word `none` (`UsageCounterRuns.OneIncrementExactly`), and in a later hour where it
  waits from one hour to the next (`UsageCounterHours.HourlyExactly`).
- An extension at its capacity refuses to renew the grants it already has
  (`TenantAccessRuns.RenewalExactly`).
- One owner per service and the limit on tasks are kept exactly as long as no recovery is
  forced for a service that is being recovered (`ServiceRecoveryForced.ForcedOwnerExactly`);
  otherwise any number of tasks may work on one service, while the map that limits them
  holds one entry (`ServiceRecoveryForced.TasksOutnumberEntries`).
- A reload that cannot take a snapshot it needs goes unnoticed, and a later failure may take
  a configuration out of force that was reloaded with success
  (`HotReloadRuns.MissedSnapshotReverts`; `HotReloadRuns.AlwaysSyncedExactly` says exactly
  when the snapshots still show what is in force).
- The loop that revokes all tokens of a user passes over tokens issued meanwhile
  (`TokenRuns.SurvivorsExactly`), and gives up at a record that a cleanup has removed
  (`TokenRuns.CleanupInterruptsLoop`).

## Model

| member | source | states |
|---|---|---|
| `ServiceRecoveryRuns.SingleOwner` | server/extension_service_recovery.py:276-468 | on every interleaved run, the queued plus the running actions for a service number 1 if it is marked as being recovered and 0 otherwise; running tasks equal the entries of `_active_recoveries` and never exceed 3; queued actions have attempts left |
| `ServiceRecoveryRuns.AttemptsBounded` | server/extension_service_recovery.py:347-455 | on every run, the attempts made on a service are counted right and stay within max_attempts times (successes + 1) |
| `ServiceRecoveryRuns.BurstsBounded` | server/extension_service_recovery.py:333-354 | on every run, attempts on a service less than five minutes apart number at most max_attempts + 2, and a retry comes no sooner than the exponential backoff of the try before it |
| `ServiceRecoveryRuns.GivenUpForGood` | server/extension_service_recovery.py:333-338 | an escalated service that is not being recovered is never attempted again, on any continuation of a run |
| `ServiceRecoveryRuns.QueuePassStartsMostUrgent` | server/extension_service_recovery.py:373-396 | one pass starts exactly the first min(free slots, queue length) actions of the priority order as fresh tasks, leaves none more urgent behind, loses and repeats none, keeps arrival order within a priority, and disturbs no task already there |
| `ServiceRecoveryRuns.SweepFindsNothing` | server/extension_service_recovery.py:625-633 | the sweep over finished tasks never has anything to remove, since a task deletes its own entry |
| `ServiceRecoveryRuns.ReachableInv` | server/extension_service_recovery.py:181-468 | every state reached by any interleaving of health updates, detection, queue passes, task starts, outcomes, wake-ups and cleanups satisfies the scheduler's invariant |
| `ServiceRecoveryForced.NeverMoreThanThree` | server/extension_service_recovery.py:387-396 | on every run, however recoveries are forced in between, the map of active recoveries never holds more than three entries |
| `ServiceRecoveryForced.ForcedOwnerExactly` | server/extension_service_recovery.py:727-757 | on every run from a fresh manager with recoveries forced in between: at every moment each service has one queued or running action if it is marked and none otherwise, and the map counts the running tasks, three at most, exactly when no recovery is ever forced for a service that is marked as being recovered |
| `ServiceRecoveryForced.TasksOutnumberEntries` | server/extension_service_recovery.py:727-757 | for every n, n recoveries forced for one service, one pass over the queue and the start of its tasks leave n tasks executing and one entry in the map at most |
| `ServiceRecovery.RegisterKeepsInitial` | server/extension_service_recovery.py:149-179 | registering services in a fresh manager gives a state in which runs begin |
| `ServiceRecoveryManager.RecoveryManager.RegisterService` | server/extension_service_recovery.py:149-179 | the service gets a blank record, and a place in the order unless it has one |
| `ServiceRecoveryManager.RecoveryManager.InitializeServiceStates` | server/extension_service_recovery.py:149-179 | the extensions found and then the four core services are registered, which gives a state in which runs begin |
| `ServiceRecoveryManager.StartExactly` | server/extension_service_recovery.py:149-179 | each extension found is registered as active or not and the four core services as healthy, with nothing against them; an extension called api gives way to the core service of that name |
| `ServiceRecoveryProofs.SortCharacterised` | server/extension_service_recovery.py:379-385 | a queue is the result of the sort exactly when it is ordered by priority and has, for each priority, the same actions in the same order |
| `ServiceRecoveryManager.RecoveryManager.DetectAndQueueRecoveries` | server/extension_service_recovery.py:276-299 | the loop over services does what `DetectionExactly` describes |
| `ServiceRecoveryMeaning.DetectionExactly` | server/extension_service_recovery.py:276-354 | detection appends exactly one new action for each service that is unhealthy, unmarked, not escalated and not both at three attempts or more and attempted less than five minutes ago, in the order of registration, with the strategy, priority and number of tries its kind and failures ask for; it marks exactly these services and changes nothing else |
| `ServiceRecoveryMeaning.AlwaysOrderly` | server/extension_service_recovery.py:149-179 | every service has one place in that order in every reachable state |
| `ServiceRecoveryMeaning.OneStrategyOneUrgency` | server/extension_service_recovery.py:301-331 | kind and failures fix one strategy and one priority |
| `ServiceRecoveryMeaning.UrgencyOrder` | server/extension_service_recovery.py:379-385 | critical actions come before high ones, those before medium ones, and low ones last |
| `ServiceRecoveryMeaning.BeginExactly` | server/extension_service_recovery.py:398-411 | a task that starts adds one attempt and its date to its action and its service, and touches no other |
| `ServiceRecoveryMeaning.EffectExactly` | server/extension_service_recovery.py:543-623 | only degrading, escalating and waiting write to the service, each one field |
| `ServiceRecoveryMeaning.SuccessExactly` | server/extension_service_recovery.py:413-432 | a success unmarks the service, forgets its failures, notes the action and ends the task |
| `ServiceRecoveryMeaning.FailureExactly` | server/extension_service_recovery.py:434-468 | a failure with tries left waits 1, 2, 4, 8, 16, 32 and from then on 60 seconds; the last unmarks the service, escalates it, notes the action and ends the task |
| `ServiceRecoveryMeaning.WakeExactly` | server/extension_service_recovery.py:434-468 | after the wait the action goes to the end of the queue and the task ends |
| `ServiceRecoveryMeaning.HealthExactly` | server/extension_service_recovery.py:208-236 | a report sets the health of one service and counts its failures in a row |
| `ServiceRecoveryMeaning.HistoryExactly` | server/extension_service_recovery.py:635-646 | a cleanup keeps the actions of the last 24 hours |
| `ServiceRecoveryManager.RecoveryManager.ProcessRecoveryQueue` | server/extension_service_recovery.py:373-396 | the loop in place does what `QueuePassStartsMostUrgent` describes |
| `ServiceRecoveryManager.RecoveryManager.BeginTask` | server/extension_service_recovery.py:398-411 | starting a task counts and dates the attempt, on the action and on its service |
| `ServiceRecoveryManager.RecoveryManager.RunRecoveryFunction` | server/extension_service_recovery.py:543-623 | the effect of the built-in recovery functions on the service record: degraded, escalated, or a failure count lowered by one but not below zero |
| `ServiceRecoveryManager.RecoveryManager.HandleOutcome` | server/extension_service_recovery.py:413-468 | success or a last failure ends the task, frees its slot, notes the action and clears the mark, escalating on a last failure; any other failure sleeps for the backoff and keeps slot and mark |
| `ServiceRecoveryManager.RecoveryManager.RequeueAfterSleep` | server/extension_service_recovery.py:440-468 | after the sleep the action goes to the end of the queue and its slot is freed, in one step |
| `ServiceRecoveryManager.RecoveryManager.ReportHealth` | server/extension_service_recovery.py:208-236 | a health report counts consecutive failures and touches only the named service, if it is known |
| `ServiceRecoveryManager.RecoveryManager.CleanupRecoveryHistory` | server/extension_service_recovery.py:635-646 | keeps exactly the actions created within 24 hours, in order |
| `ServiceRecoveryManager.RecoveryManager.CleanupCompletedRecoveries` | server/extension_service_recovery.py:625-633 | drops exactly the entries whose task has finished |
| `ErrorRecoveryRuns.SelectIsFirstFit` | server/extension_error_recovery_manager.py:668-691 | the strategy chosen can handle the error, has attempts left this hour, and no earlier one in the list does; none is chosen only if none does |
| `ErrorRecoveryRuns.OpensOnlyAfterTen` | server/extension_error_recovery_manager.py:743-760 | over every sequential run, a failure that sets the breaker open is preceded by nine counted failures within the hour before it |
| `ErrorRecoveryRuns.NineteenOpen` | server/extension_error_recovery_manager.py:743-760 | without forced resets, nineteen counted failures within an hour include one that sets the breaker open, although the counter tumbles |
| `ErrorRecoveryRuns.EighteenMayPass` | server/extension_error_recovery_manager.py:548-666 | nineteen cannot be improved: a run of eighteen calls that all fail, nine when the counter's hour has just not passed and nine a microsecond later, counts eighteen failures within an hour and never sets the breaker open |
| `ErrorRecoveryRuns.QuietWhileOpen` | server/extension_error_recovery_manager.py:726-741 | calls made before the open period of five minutes is over change nothing and count nothing |
| `ErrorRecoveryMeaning.RefusedExactly` | server/extension_error_recovery_manager.py:726-741 | in any state a call is refused by the breaker exactly if it is open and was not opened five minutes ago or more, and changes nothing then; any other call finds the breaker closed, and closes it if it was open |
| `ErrorRecoveryMeaning.RefusedWithinFiveMinutesExactly` | server/extension_error_recovery_manager.py:726-760 | over every sequential run without forced resets the next call is refused exactly if some failure has set the breaker open less than five minutes before |
| `ErrorRecoveryMeaning.ResetMeans` | server/extension_error_recovery_manager.py:839-848 | after a forced reset the breaker refuses nothing |
| `ErrorRecoveryMeaning.EndExactly` | server/extension_error_recovery_manager.py:617-666 | a finished attempt leaves the table and is noted; a success closes the breaker, a failure counts from one again after an hour, and the tenth opens the breaker |
| `ErrorRecoveryMeaning.ChoiceExactly` | server/extension_error_recovery_manager.py:668-691 | the strategy chosen is the first of the list that is for the error and was tried for its code, within the hour, less often than its limit of 2, 3, 1, 1, 5, 1 or 1; none is chosen exactly if there is none |
| `ErrorRecoveryRuns.HourlyLimit` | server/extension_error_recovery_manager.py:598-691 | over every sequential run, in any sliding hour the attempts for one error code with one strategy stay within the strategy's limit, though it is checked only at selection |
| `ErrorRecoveryOverlap.OverlappingLimit` | server/extension_error_recovery_manager.py:598-636 | on every run of overlapping calls on which no call that goes on to a strategy finds more than n of its code and strategy in flight, in any sliding hour the attempts begun, finished or in flight, exceed the limit by n at most; by none if n is 0 |
| `ErrorRecoveryOverlap.OverlapExceedsLimit` | server/extension_error_recovery_manager.py:598-636 | for every n that excess is reached: n + 1 overlapping calls for one code all pass the check of a strategy that allows one attempt |
| `ErrorRecoveryOverlap.OnePerKey` | server/extension_error_recovery_manager.py:582-595 | on every run of overlapping calls no two in flight have the same key, and a call is told that its recovery is in progress exactly when the breaker lets it through and one with its key is in flight |
| `ErrorRecoveryOverlap.KeyUniqueExactly` | server/extension_error_recovery_manager.py:693-695 | an error shares its key with no error of another category, code, endpoint or operation exactly when endpoint and operation are given and do not read None, and neither they nor the code contain a colon |
| `ErrorRecoveryManager.RecoveryManager.IsCircuitBreakerOpen` | server/extension_error_recovery_manager.py:726-741 | open exactly if it was and five minutes since it opened have not passed; otherwise it is closed, and nothing else changes |
| `ErrorRecoveryManager.RecoveryManager.CountError` | server/extension_error_recovery_manager.py:743-760 | the counter tumbles after more than an hour, then counts, and opens the breaker at ten |
| `ErrorRecoveryManager.RecoveryManager.SelectRecoveryStrategy` | server/extension_error_recovery_manager.py:668-691 | the loop over strategies finds the first fit that `SelectIsFirstFit` describes |
| `ErrorRecoveryManager.RecoveryManager.BeginRecovery` | server/extension_error_recovery_manager.py:571-616 | up to the strategy: refused by an open breaker, by a recovery of the same key under way or for want of a strategy, or else noted as under way; refusals change nothing but what looking at the breaker does |
| `ErrorRecoveryManager.RecoveryManager.EndRecovery` | server/extension_error_recovery_manager.py:617-666 | whichever way the strategy ended, its attempt moves from the table in flight to the history, and the breaker is reset or the failure counted |
| `ErrorRecoveryManager.RecoveryManager.HandleOne` | server/extension_error_recovery_manager.py:548-666 | an undisturbed call is its two stretches one after the other |
| `ErrorRecoveryManager.RecoveryManager.ForceCircuitBreakerReset` | server/extension_error_recovery_manager.py:839-848 | closes the breaker and restarts the counter's hour |
| `PermissionProofs.RoleHasMeans` | server/extension_permissions.py:337-360 | for every acyclic role table the recursive check ends, and holds exactly when some role reachable through inheritance has a first matching rule that is granted and unexpired |
| `PermissionProofs.FirstMatchDecides` | server/extension_permissions.py:354-379 | a role's or a user's rules allow a query exactly when some rule applies, is granted and unexpired, and no earlier rule applies |
| `PermissionMeaning.UserCheckExactly` | server/extension_permissions.py:362-379 | a user is allowed exactly if, of the rules of that permission whose scope and target take in the query and whose tenant is absent or the one asked about, the first is granted and not past its expiry |
| `PermissionMeaning.RoleCheckExactly` | server/extension_permissions.py:419-445 | the rules of a role decide in the same way, whatever tenant they name |
| `PermissionMeaning.OtherTenantsDoNotMatter` | server/extension_permissions.py:375-376 | adding or removing a rule of another tenant, wherever it stands, changes no answer in this one |
| `PermissionMeaning.StoredExactly` | server/extension_permissions.py:447-564 | over every run the rules on record are those the calls leave: the last granted for each permission, scope and target, unless it was revoked or cleaned up since |
| `PermissionMeaning.StoredInGrantOrder` | server/extension_permissions.py:474-481 | and they stand in the order in which they were granted |
| `PermissionProofs.BuiltInAnswers` | server/extension_permissions.py:89-257 | what each built-in role permits, for every extension, category and time |
| `PermissionProofs.FlatteningAgreesExactly` | server/extension_rbac.py:71-83 | asking every role of the flattened hierarchy answers as the recursive check does exactly for roles other than SYSTEM, and for SYSTEM only about ADMIN |
| `PermissionProofs.AlwaysTidy` | server/extension_permissions.py:474-481 | over every run of grants, revocations and cleanups there is at most one rule per permission, scope and target for each user and tenant, and every stored rule grants |
| `PermissionProofs.AtMostThreeMatch` | server/extension_permissions.py:419-439 | of such rules at most three match any one query |
| `PermissionProofs.CleanedMeansLive` | server/extension_permissions.py:700-717 | right after cleanup the first-match check holds exactly when some unexpired rule matches, in whatever order rules are stored |
| `PermissionProofs.CheckMeansLiveExactly` | server/extension_permissions.py:362-379 | at any other moment the check says whether some unexpired rule matches, except exactly when the first rule that applies has expired and a later one has not; then it says no |
| `PermissionProofs.CleanupKeepsAccess` | server/extension_permissions.py:700-717 | cleanup takes away no access allowed at that instant if no rule expires at it |
| `PermissionProofs.CleanupTakesAccessExactly` | server/extension_permissions.py:441-445 | cleanup takes an access away exactly when the first matching rule expires at this instant and no matching rule lives on |
| `PermissionProofs.CleanupAtExpiry` | server/extension_permissions.py:441-445 | a concrete rule that the check still honours and cleanup has removed |
| `PermissionManager.Manager.GrantPermission` | server/extension_permissions.py:447-488 | the new rule replaces whatever rule the user has in its slot, and goes last |
| `PermissionManager.Manager.GrantTenantPermission` | server/extension_permissions.py:526-564 | the same for a tenant |
| `PermissionManager.Manager.RevokePermission` | server/extension_permissions.py:490-524 | removes the user's rules of the slot, sparing those of other tenants if a tenant is named |
| `PermissionManager.Manager.CheckUserPermissions` | server/extension_permissions.py:362-379 | the loop allows exactly if the first of the user's rules that covers the query and names no tenant or this one is granted and not past its expiry |
| `PermissionManager.Manager.CleanupExpiredPermissions` | server/extension_permissions.py:700-741 | removes exactly the rules that have expired or expire now, and users and tenants left without rules, and counts the rules removed |
| `RbacProofs.CleanupInvisible` | server/extension_rbac.py:443-469 | for every user, tenant and later time a role query is answered alike with and without cleanup, also when the user's entry is deleted |
| `RbacMeaning.AssignExactly` | server/extension_rbac.py:85-132 | an assignment takes effect exactly if the tenant is absent, empty or without a policy or its policy allows the role, and changes nothing otherwise; in effect it takes out the active ones of its role and tenant, goes last in the user's list, and leaves all other lists |
| `RbacMeaning.AssignedUntilExpiry` | server/extension_rbac.py:166-206 | after an allowed assignment the user has the role in the tenant until its expiry |
| `RbacMeaning.EveryAssignmentWasAllowed` | server/extension_rbac.py:344-350 | over every run each assignment on record was made by a call for just this user, role, tenant and expiry, when the policy in force allowed it |
| `RbacMeaning.PolicyIsLastSet` | server/extension_rbac.py:252-280 | over every run a tenant has the policy last set for it |
| `RbacMeaning.RolesExactly` | server/extension_rbac.py:166-206 | a user has the roles of active, unexpired assignments for every tenant or this one, those below them if asked for, and the tenant's default role exactly if there are none |
| `RbacMeaning.RevokeExactly` | server/extension_rbac.py:134-164 | a revocation switches off the active assignments of the role and tenant in place, and nothing else |
| `RbacMeaning.CleanupExactly` | server/extension_rbac.py:443-510 | a cleanup switches off what has expired, forgets inactive assignments made thirty days ago or more and answers fifteen minutes old or more, and nothing else |
| `RbacMeaning.AnswerIsKept` | server/extension_rbac.py:208-250 | without a fresh entry the check answers whether some role of the user lets it, and repeats that for fifteen minutes |
| `RbacProofs.RevokeUndoesAssign` | server/extension_rbac.py:85-164 | a successful assign followed by a revoke restores every role query, if the user had no active assignment of that role and tenant |
| `RbacProofs.RevokeRestoresQueriesExactly` | server/extension_rbac.py:85-206 | without that proviso: every role query of every user is restored at every later time exactly when each unexpired assignment that is replaced is outlasted by one of the role for all tenants, or else the tenant's default role steps in for it throughout |
| `RbacProofs.RevokeMayLose` | server/extension_rbac.py:115-152 | a concrete role that is lost |
| `RbacProofs.KeyInjective` | server/extension_rbac.py:218-221 | questions whose user, tenant and extension are free of colons, and whose identifiers are absent or not the word None, do not share a key with each other |
| `RbacProofs.KeyUniqueExactly` | server/extension_rbac.py:218-221 | a question has a cache key no other question has exactly when user, tenant, extension and category are all given, none reads None, and none contains a colon |
| `RbacProofs.KeysCollide` | server/extension_rbac.py:218-221 | concrete questions outside those identifiers that share a key |
| `RbacProofs.SharedKeyAnswersWrongly` | server/extension_rbac.py:218-250 | a concrete run in which a question is answered from the entry of another, and wrongly |
| `RbacProofs.AloneExactly` | server/extension_rbac.py:218-221 | a question's key is its own exactly if no other question with its key is asked in any run |
| `RbacProofs.ClearUserReaches` | server/extension_rbac.py:483-487 | clearing a user's cache removes every entry of a question about the user, whatever the identifiers look like |
| `RbacProofs.ClearTenantReaches` | server/extension_rbac.py:489-493 | the same for a tenant |
| `RbacProofs.AnswersAreRecentEvaluations` | server/extension_rbac.py:208-250 | over every run in which no other question with its key is asked, each answer to a question is the direct evaluation of that question made less than 15 minutes earlier, with no effective assign or revoke for that user and no policy change for that tenant since |
| `RbacProofs.PlainAlone` | server/extension_rbac.py:218-221 | which is so for a plain question, as in `KeyInjective`, where only plain questions are asked |
| `RbacProofs.AnswersAreCurrentUnlessLapsed` | server/extension_rbac.py:208-250 | then, with the built-in roles, each answer is what a direct evaluation would give now unless an assignment of the user expired since that evaluation |
| `RbacManager.Manager.AssignRole` | server/extension_rbac.py:85-132 | refused, without any change, exactly if the tenant has a policy and that does not allow the role; otherwise replaces active assignments of the role and tenant and clears the user's cache |
| `RbacManager.Manager.RevokeRole` | server/extension_rbac.py:134-164 | switches off every active assignment of the role and tenant and clears the user's cache; an unknown user changes nothing |
| `RbacManager.Manager.GetUserRoles` | server/extension_rbac.py:166-206 | effective roles, those below them if asked, and the tenant's default role when there are none |
| `RbacManager.Manager.CheckRolePermission` | server/extension_rbac.py:208-250 | answers from a cache entry less than 15 minutes old, or evaluates and stores the answer |
| `RbacManager.Manager.SetTenantPolicy` | server/extension_rbac.py:252-280 | replaces the policy and removes every cache entry that mentions the tenant between colons |
| `RbacManager.Manager.CleanupExpiredAssignments` | server/extension_rbac.py:443-481 | the loop switches off expired assignments and counts them, keeps inactive ones for 30 days, deletes empty users and stale cache entries |
| `TokenRuns.RedeemedOnce` | server/token_manager.py:437-493 | with refreshes interleaved at every await with issuing, revoking and cleanup, no refresh token is redeemed twice |
| `TokenMeaning.StatusExactly` | server/token_manager.py:387-435 | when a token is blacklisted, expired, invalid and valid, on its fields, the lists and its record |
| `TokenMeaning.IssueExactly` | server/token_manager.py:282-316 | an issued token is on record, unused, with user, tenant and expiry, and its payload has the whole second before that expiry |
| `TokenMeaning.RedeemExactly` | server/token_manager.py:443-489 | a refresh goes through exactly for a refresh token with a good signature, unlisted, unexpired, unused and on record; then it is used, and one for the same user and tenant, good for seven days, is on record |
| `TokenMeaning.RedeemIssues` | server/token_manager.py:443-489 | with it goes a token for the same user and tenant |
| `TokenMeaning.RevokeExactly` | server/token_manager.py:495-523 | a revocation lists the id until the last whole second before the expiry named, for a day if none is, and not at all if less than a second is left |
| `TokenMeaning.RevokeTurnExactly` | server/token_manager.py:539-543 | a turn of the loop takes the record away and lists the id for a day, or gives up without a record |
| `TokenMeaning.RevokeAllExactly` | server/token_manager.py:525-549 | undisturbed, the loop takes away exactly the records of the user and lists their ids |
| `TokenMeaning.CleanupExactly` | server/token_manager.py:590-604 | a cleanup takes exactly the records past their expiry away |
| `TokenMeaning.CallsExactly` | server/token_manager.py:437-493 | which calls of a refresh are under way after each step |
| `TokenRuns.UnusedBoundedExactly` | server/token_manager.py:437-484 | every user's unused refresh records stay within the refresh tokens issued to the user outside a refresh, on every run that issues refresh tokens only to given users, exactly when the empty id is not among these |
| `TokenRuns.UnusedBoundedFor` | server/token_manager.py:437-484 | the same for one user, named or None: the bound holds exactly if the user is named or the empty id is not among those issued to |
| `TokenRuns.NamelessUserGains` | server/token_manager.py:98-99 | a concrete run in which redeeming the token of the empty user id leaves a record of nobody |
| `TokenRuns.AcceptedAfterRevocation` | server/token_manager.py:126-150 | the exact interval in which a revoked token, of any kind, is accepted again if nothing else happens |
| `TokenRuns.GapFreeExactly` | server/token_manager.py:126-150 | there is no such instant exactly when the time to expiry at revocation is a whole number of seconds or the token is of no use when its entry ends |
| `TokenRuns.RevokedStaysOutExactly` | server/token_manager.py:387-523 | on every continuation of every run with the store, whoever revokes what: a token revoked with its own expiry is at no moment acceptable a second or more before that expiry, exactly when no later revocation names its id, while it is usable, with an expiry whose entry ends a second or more before the token |
| `TokenRuns.RevokedStaysOut` | server/token_manager.py:387-523 | so without such a revocation it is not accepted from its revocation to one second before expiry, nor from expiry on; with the blacklist in memory it never is, whatever is revoked |
| `TokenRuns.SecondRevocationReopens` | server/token_manager.py:126-140 | concrete runs in which a second revocation, with an earlier expiry or without one, makes a revoked token acceptable |
| `TokenRuns.RevokedUserStaysOut` | server/token_manager.py:525-549 | with the loop of `revoke_all_user_tokens` suspended at every turn and anything in between: a refresh token issued to the user before the call is never accepted again once the loop has passed it, or if it had no record when the call began, even by a call whose blacklist lookup came before |
| `TokenRuns.SurvivorsExactly` | server/token_manager.py:525-549 | with issuing, redeeming and single revocations in between, but no cleanup and no other such loop: the call does not give up, and the user's records are at every moment exactly those it has still to reach and those issued since it began |
| `TokenRuns.CleanupInterruptsLoop` | server/token_manager.py:525-549 | a concrete run in which a cleanup makes the call give up, and a token of the user is still accepted |
| `TokenRuns.CleanupChangesNothing` | server/token_manager.py:590-604 | in every reachable state, removing expired records changes the status of no token at any later time |
| `TokenManager.Manager.GenerateRefreshToken` | server/token_manager.py:282-316 | records the token as unused under its id and returns its payload, with the expiry in whole seconds |
| `TokenManager.Manager.LookedUpAsBlacklisted` | server/token_manager.py:158-171 | the answer of the blacklist in each of its three configurations |
| `TokenManager.Manager.BlacklistToken` | server/token_manager.py:126-156 | an entry for the whole seconds left, for 24 hours without an expiry, for ever in memory, and none if less than a second is left |
| `TokenManager.Manager.ValidateRefreshToken` | server/token_manager.py:551-569 | accepts exactly recorded, unused, unexpired ids |
| `TokenManager.Manager.JudgeToken` | server/token_manager.py:387-435 | the status of a token in the order blacklist, signature, expiry, refresh record |
| `TokenManager.Manager.RedeemRefreshToken` | server/token_manager.py:443-489 | a valid refresh token is marked used and replaced by one for the same user and tenant, in one step; anything else changes nothing |
| `TokenManager.Manager.Revoke` | server/token_manager.py:495-523 | lists the id until the expiry in the payload, for 24 hours if that is absent or 0, and reports failure without an id or a blacklist |
| `TokenManager.Manager.RevokeNextToken` | server/token_manager.py:539-543 | one turn of the loop: a record is removed and its id listed, or found missing, which changes nothing |
| `TokenManager.Manager.RevokeAllUserTokens` | server/token_manager.py:525-549 | the loop, when nothing comes between its turns, removes and lists exactly the user's refresh tokens and counts them |
| `TokenManager.Manager.CleanupExpiredRefreshTokens` | server/token_manager.py:590-604 | the loop removes exactly the records past their expiry and counts them |
| `UsageCounters.RoundTripExactly` | server/service_isolated_database.py:371-398 | for every metric, decoding an encoded key returns the triple exactly when tenant and user are absent, or non-empty, free of colons and not the word none |
| `UsageCounterMeaning.KeyText` | server/service_isolated_database.py:371-374 | the text of a key |
| `UsageCounterMeaning.IncrementExactly` | server/service_isolated_database.py:366-384 | an increment adds its amount to one slot |
| `UsageCounterMeaning.AcquireExactly` | server/service_isolated_database.py:386-393 | a flush that has its session takes the whole buffer at once and leaves it empty |
| `UsageCounterMeaning.ExecuteExactly` | server/service_isolated_database.py:394-424 | an entry becomes a row of its triple, of the hour of the write, and of its amount |
| `UsageCounterMeaning.UpsertExactly` | server/service_isolated_database.py:400-424 | an upsert adds to the first row of the same triple and hour, with both ids given, or puts a row behind the others |
| `UsageCounterMeaning.OneRowPerHour` | server/service_isolated_database.py:400-424 | over every run there is one row at most for a triple with both ids and an hour |
| `UsageCounters.SlotsAreSeparate` | server/service_isolated_database.py:371-374 | distinct such triples never share a slot of the buffer |
| `UsageCounters.EncodedIsDecodable` | server/service_isolated_database.py:395-398 | every key the service builds can be unpacked into three parts |
| `UsageCounters.DecodeInjective` | server/service_isolated_database.py:395-398 | no two keys stand for the same triple |
| `UsageCounterRuns.NothingIsLost` | server/service_isolated_database.py:366-429 | with increments and flushes interleaved at every await and flushes failing anywhere: recorded + buffered + in flight + lost with failed flushes equals what was asked for, key by key |
| `UsageCounterRuns.BatchedIsDirect` | server/service_isolated_database.py:352-429 | once the buffer is flushed, none in flight and none failed, the recorded totals are those of one direct upsert per increment |
| `UsageCounterHours.HourlyExactly` | server/service_isolated_database.py:400-424 | then, by the end of every hour, the totals recorded for a triple are those of direct upserts exactly when no net amount of it ever waited, in the buffer or in a batch, from one hour to the next |
| `UsageCounterHours.LateWrite` | server/service_isolated_database.py:400-403 | a concrete run in which an increment is recorded an hour late |
| `UsageCounterRuns.OneIncrementExactly` | server/service_isolated_database.py:366-429 | an increment, flushed then or later, is recorded under the triple of a direct upsert exactly when its triple survives the encoding |
| `UsageCounterService.UsageService.Increment` | server/service_isolated_database.py:366-384 | adds the amount to the slot of the key, and asks for a flush once 50 slots are in use |
| `UsageCounterService.UsageService.FlushBatch` | server/service_isolated_database.py:386-429 | no session: nothing happens; a failure: the batch is gone and the table unchanged; success: the buffer is empty, one upsert per entry was made in the hour of its write, and every total grew by what was buffered |
| `UsageCounterService.UsageService.WriteEntries` | server/service_isolated_database.py:394-424 | the loop makes one upsert for each entry of the batch, in any order, and gives up exactly when an upsert or a key fails |
| `TenantAccessRuns.CapacityKept` | server/extension_tenant_access.py:377-403 | after any successful grant the live tenants of the extension stay within the positive maximum in force until that policy is replaced, as grants, revocations, cleanups and expiries go on |
| `TenantAccessMeaning.SettingMeans` | server/extension_tenant_access.py:93-125 | a policy set is the extension's from then on, with visibility, level, allowed and blocked tenants and maximum as passed and an empty table of grants; all others stay as they are |
| `TenantAccessMeaning.StoredIsLastSet` | server/extension_tenant_access.py:93-125 | after any calls each name has the policy last set for it |
| `TenantAccessMeaning.GrantExactly` | server/extension_tenant_access.py:127-172 | after any calls a grant is made exactly if the policy last set neither shuts the tenant out nor finds the extension full, and then changes just that grant |
| `TenantAccessMeaning.CapacityBySetting` | server/extension_tenant_access.py:377-403 | from a call that sets a positive maximum until the next for the extension, whatever else is called, its holders never outnumber both that maximum and those there were |
| `TenantAccessMeaning.ShutGainsNothing` | server/extension_tenant_access.py:382-395 | a tenant that the policy set blocks, or that a private extension does not list, gets no grant of it until it is set again |
| `TenantAccessMeaning.TenantsOfLevel` | server/extension_tenant_access.py:321-351 | the tenants of one access level |
| `TenantAccessMeaning.RevokeExactly` | server/extension_tenant_access.py:174-202 | a revocation takes just that grant away |
| `TenantAccessMeaning.CleanupExactly` | server/extension_tenant_access.py:533-572 | a cleanup takes away exactly the grants that have expired or expire now |
| `TenantAccessRuns.NeverPastMaximum` | server/extension_tenant_access.py:321-351 | from any state, while the policy in force stays, live tenants never outnumber both its positive maximum and what there was |
| `TenantAccessRuns.GrantFits` | server/extension_tenant_access.py:397-401 | a successful grant under a limit leaves the live tenants within it |
| `TenantAccessRuns.RenewalExactly` | server/extension_tenant_access.py:377-403 | a live tenant renews its grant exactly when the policy in force admits it and has a maximum that is 0 or exceeds the number of live tenants, although a renewal does not raise that number; a refused renewal changes nothing |
| `TenantAccessRuns.FullFreezes` | server/extension_tenant_access.py:127-202 | while an extension is full, its policy is kept and no grant of it expires or is revoked, no run changes who holds it, at which level or until when |
| `TenantAccessRuns.TablesAgree` | server/extension_tenant_access.py:141-192 | over every run each policy's own table of grants is an agreeing part of the main table, and no tenant is kept with an empty table |
| `TenantAccessRuns.RevokeUndoesGrant` | server/extension_tenant_access.py:127-202 | in every reachable state, revoking restores both tables to what they were before a first grant |
| `TenantAccessRuns.CleanupTakesExactly` | server/extension_tenant_access.py:533-560 | cleanup takes no tenant away at any later time, and now exactly those whose grant expires at this instant |
| `TenantAccessManager.Manager.SetExtensionPolicy` | server/extension_tenant_access.py:93-125 | the policy passed replaces that of the extension, with an empty table of grants, and nothing else changes |
| `TenantAccessManager.Manager.GetExtensionTenants` | server/extension_tenant_access.py:321-351 | the loop returns exactly the tenants with an enabled, unexpired grant of the level asked for |
| `TenantAccessManager.Manager.ValidateTenantAccessGrant` | server/extension_tenant_access.py:377-403 | the policy in force (the extension's, or else the general one) decides by block list, privacy and capacity; empty sets and a maximum of 0 restrict nothing |
| `TenantAccessManager.Manager.GrantTenantAccess` | server/extension_tenant_access.py:127-172 | a refused grant changes nothing; an accepted one enters both tables |
| `TenantAccessManager.Manager.RevokeTenantAccess` | server/extension_tenant_access.py:174-202 | the grant leaves both tables, and so does a tenant without grants |
| `TenantAccessManager.Manager.CleanupExpiredAccess` | server/extension_tenant_access.py:533-572 | the loops remove exactly the expired grants from both tables, and tenants without grants, and count what is removed from each |
| `HotReloadRuns.AlwaysSyncedExactly` | server/extension_config_hot_reload.py:183-307 | over every run, whatever fails, the taking of snapshots included, the last snapshot of each environment shows what is in force at every moment exactly when every call is harmless: it misses the snapshot afterwards only if it put nothing new in force, and the one before only if it ends with what was in force still there |
| `HotReloadMeaning.StatusExactly` | server/extension_config_hot_reload.py:183-307 | when a call succeeds and when it is rolled back, by what happens on its way; a call that finds nothing changed succeeds |
| `HotReloadMeaning.InForceExactly` | server/extension_config_hot_reload.py:183-307 | which configuration is in force after a call, for every way it can go |
| `HotReloadMeaning.SnapshotExactly` | server/extension_config_hot_reload.py:473-495 | a snapshot goes behind those there are, of which the last ten stay |
| `HotReloadMeaning.HistoryExactly` | server/extension_config_hot_reload.py:497-507 | a call is noted with its status, twice if it ends early, and the last hundred entries stay |
| `HotReloadRuns.ReloadsAreAtomic` | server/extension_config_hot_reload.py:183-307 | over every run of harmless calls, whatever else fails on the way, rollbacks included, the configurations in force are those of a store in which a call takes effect as a whole or not at all |
| `HotReloadRuns.SnapshotsSuffice` | server/extension_config_hot_reload.py:473-495 | calls that take both their snapshots are harmless, in any state |
| `HotReloadRuns.MissedSnapshotReverts` | server/extension_config_hot_reload.py:473-495 | a concrete pair of calls: the first succeeds but leaves no snapshot, the second only fails to load, and the configuration of the first is out of force |
| `HotReloadRuns.RestoresExactly` | server/extension_config_hot_reload.py:439-471 | in any state: an unsuccessful call leaves what is in force as it was exactly when there is nothing to roll back or rolling back leads to what was in force |
| `HotReloadRuns.SuccessMeansLoaded` | server/extension_config_hot_reload.py:232-267 | after a call that reports success the loaded configuration is in force, also when it reported that nothing changed |
| `HotReloadRuns.ChangesExactly` | server/extension_config_hot_reload.py:322-355 | of two configurations with the same fields, changes are detected exactly if they differ |
| `HotReloadRuns.OnlyValidatedInForce` | server/extension_config_hot_reload.py:243-254 | over every run, what is in force for an environment was so at the start or passed validation in a call for it |
| `HotReloadRuns.AlwaysBounded` | server/extension_config_hot_reload.py:473-507 | over every run there are at most 10 snapshots for an environment and 100 events in the history, though some calls add theirs twice |
| `HotReloader.Reloader.constructor` | server/extension_config_hot_reload.py:146-163 | there is a snapshot of every configuration from the start |
| `HotReloader.Reloader.ReloadConfiguration` | server/extension_config_hot_reload.py:183-307 | state and status at the end of a call, for every way it can go |
| `HotReloader.Reloader.TakeSnapshot` | server/extension_config_hot_reload.py:473-495 | adds a snapshot and keeps the newest ten; a configuration that cannot be serialised leaves none |
| `HotReloader.Reloader.RollBack` | server/extension_config_hot_reload.py:439-471 | puts the snapshot before the last in force, even if it then reports failure; refused with fewer than two snapshots |
| `HotReloader.Reloader.ChangedFields` | server/extension_config_hot_reload.py:322-355 | the loops find exactly the fields that were changed, added or removed |
| `HotReloader.Reloader.Validate` | server/extension_config_hot_reload.py:357-381 | passes exactly without critical and error issues, and not when validating raises |
| `NodeModules.WalksAgreeExactly` | scripts/architecture/audit_copilotkit_wiring.py:349-362 | the walk over the string finds, for every set of installed packages, what the walk over package names finds, exactly when no name hides a `/node_modules/` and the directory has none past its start |
| `NodeModules.NearestFirst` | scripts/architecture/audit_copilotkit_wiring.py:349-366 | the walk over names finds the package nested deepest along the path and the root's last, and nothing exactly when it is installed nowhere along it |
| `NodeModules.Resolve` | scripts/architecture/audit_copilotkit_wiring.py:349-366 | the loop ends and finds what the specified walk finds |
| `EdgeAudit.Audit` | scripts/architecture/audit_copilotkit_wiring.py:334-377 | no violation is reported exactly when every protocol edge resolves to the required version; otherwise the violations name exactly the edges that do not, or the audit says it failed, exactly for malformed metadata |
| `EdgeAudit.AuditPackage` | scripts/architecture/audit_copilotkit_wiring.py:346-375 | the same for the edges of one package |
| `EdgeAuditMeaning.AcceptedExactly` | scripts/architecture/audit_copilotkit_wiring.py:334-377 | a lock is accepted exactly if no package garbles its dependencies and, whatever version of one of the four protocol packages some package says it depends on, the package found for it has that version |
| `EdgeAuditMeaning.PathText` | scripts/architecture/audit_copilotkit_wiring.py:349-362 | the text of a path |
| `EdgeAudit.AuditIsNearestResolution` | scripts/architecture/audit_copilotkit_wiring.py:340-377 | for locks whose paths are made of plain names, the edges accepted are those that resolve to the required version nearest package first |

## Left out

Weaker or narrower than one might wish:

- ServiceRecoveryRuns.SingleOwner: without `force_recovery`, which queues a second action for a service already being recovered (see `ServiceRecoveryForced`), and without cancellation at shutdown.
- ServiceRecoveryRuns.GivenUpForGood: attempts only; health reports go on changing the record of the service.
- ErrorRecoveryRuns.OpensOnlyAfterTen: for calls one after another; failures of overlapping calls are counted out of order.
- RbacProofs.AnswersAreRecentEvaluations: the permission engine's role table does not change in a run.
- TokenRuns.RevokedStaysOutExactly: for tokens the manager issued, with a store that answers and does not lose entries, and expiries that the program can turn into dates.
- UsageCounterRuns.BatchedIsDirect: totals over all hours; `UsageCounterHours.HourlyExactly` has the hours.
- UsageCounterService.UsageService.FlushBatch: not interleaved with others; `UsageCounterRuns.NothingIsLost` covers interleaving.
- HotReloadRuns.ReloadsAreAtomic: calls one after another, as the reload lock has them, from a reloader whose first snapshots were all taken.
- EdgeAudit.Audit: packages and edges are visited in any order, so which violations precede a failure of the audit is left open.

Not modelled:

- Aliasing: entries of lists and tables are values, updated by replacing them in the field that holds them.
- Refused and skipped paths that only log, statistics, status reports and recommendation texts.
- Service recovery: health probes themselves, the recovery functions' calls into other components, start-up and shutdown handlers, cancellation.
- Error recovery: pattern tracking, clearing the history, the strategies' own work and their replies.
- Roles: automatic assignment, delegation, listing effective permissions, the conditions stored with roles and assignments.
- Permissions: legacy permission strings, extension restrictions, delegation, rule conditions, and the combination of sources in `has_permission`.
- Tokens: signing and encoding, issue times, permissions in payloads, the fallback when the store fails, `remove_from_blacklist`.
- Usage counters: the flush timer and the pool; a commit that raises is taken to have recorded nothing; the unique constraint that the upsert names is taken to exist, which none of the repository's own schemas declares.
- Tenant access: the result cache of `check_tenant_access`, quotas, restrictions, default permissions.
- Configuration reload: file watching, debounced reloads, callbacks other than the veto, `update_config`.
- Lock audit: reading and parsing files, and all other checks of the script.
