# Verified models of the orchestrator's stores and algorithms

A Dafny model of the parts of the repository that keep state or transform data, with proofs about every
input, every run or every reachable state. It covers the consilium-loop store with its two backends, the
account store and sign-in, project scoping, iteration and execution history, workspace cost attribution, and
seven self-contained algorithms: lease delivery, layered configuration, the v2 ciphertext format and its
migration, keyset paging, pull-request clustering, price lookup and remainder counting.

Check the project with `dafny verify dfyconfig.toml`.

## How it is organised

- `Wrappers`, `Sorting`: a missing value; stable sorting, filtering and the order on strings.
- `LoopStore`: one step function for both backends, laws over runs, and `MemLoops`, the in-memory store as a
  class whose ghost history of calls ties its map to the step function.
- `TaskHistory`: tasks, iterations, executions and traces, with the class `MemHistory`.
- `LlmStats`: the per-request fold of the in-memory store and the group-by-then-fold of the Postgres store, both
  proved against one declarative table.
- `AuthModel`, `AuthStore`: accounts and sessions as values, and the heap-based store with three maps that share
  the same user objects, proved against them.
- `SignInRace`: sign-ins that interleave at every await, with each other and with any other store call.
- `ProjectScope`: the query-rewriting helpers, a table they act on, and whole-run noninterference.
- `LeasedEnv`, `ConfigMerge`, `Rekey`, `Keyset`, `PrQueue`, `Pricing`, `Remainder`: one algorithm each.

Code that updates fields, maps or buffers step by step is a class or a method with loops, proved equal to a
specification function; code made of expressions is functions. The lemmas are about those functions: the laws over
runs, and beside them, for each call, what it answers and stores, field by field, without the function's own helpers.
Automatic induction is switched off on every one-state lemma, so each inductive proof is the one that is written down.

## Where the code does not do what it says

Each of these comes with the exact condition under which the code does meet the property, and most with a witness.

- A re-drive claim at exactly the grace boundary wins in memory and loses in SQL, and for states other than
  `reviewing` and `developing` memory refuses while SQL tests `devGroupId` (`LoopStore.BackendsAgreeOnClaim`).
- In SQL an update stamped early may land late and move `updatedAt` back, and two claims then win within one grace
  period. A claim is sure to be spaced from an earlier winner if and only if the write that landed last is stamped
  no earlier than that winner (`LoopStore.SqlClaimSpacingIff`; witness `LoopStore.LateWriteBreaksSpacing`).
- The partial unique index omits `stopped`, which the terminal list contains, so the backends disagree on
  creating a loop beside a stopped one (`LoopStore.BackendsAgreeOnCreate`; witness `LoopStore.StoppedWitness`).
- The in-memory store lets a finished loop be re-opened beside a new one; the controller's develop step relies on
  the database index to refuse exactly this (`LoopStore.KeepsOneActiveIff`; witness `LoopStore.ReopenBreaksOneActive`;
  server/services/consilium/consilium-loop-controller.ts:1345-1356).
- The history store checks neither repeated seeds nor an execution's iteration nor any patch of a key field, and
  moving a trace leaves a stale index entry. Integrity survives a call if and only if the call is proper
  (`TaskHistory.StepKeepsIntegrityIff`).
- Linking an empty provider id enters the provider index for good without being a link
  (`AuthStore.MemAuthStorage.LinkOAuth`). Sign-in never does that.
- A sign-in alone never fails on uniqueness. A racing one does if and only if an event since its own provider
  look-up took the link for good or, for a new account, an event since its own email look-up took the email for
  good (`SignInRace.RegistrationLostIff`, `SignInRace.LinkingLostIff`; witness `SignInRace.FirstSignInsRace`).
- A sign-in with a second provider account and the same email takes the first account away from the user who has
  it (`SignInRace.LinkLostIff`).
- A rekey pass works on the rows of its SELECT: a row that the application rewrites before its UPDATE is set back
  (`Rekey.WriteLostIff`; witness `Rekey.WriteLostWitness`).
- The history route writes a missing `completedAt` into the cursor as the epoch. In memory, paging then repeats
  runs; in SQL, where such runs come first, it skips all the others (`Keyset.MemHistoryExactIff`,
  `Keyset.PgHistoryExactIff`; witness `Keyset.UndatedWitness`). The orchestrator dates every group it ends
  (server/services/task-orchestrator.ts:463, 527, 837, 921); an ended group without a date needs a row written
  past it.
- The comment on the price lookup promises the first entry whose name is a prefix; the code takes the longest
  (`Pricing.CommentHoldsIff`; witness `Pricing.LongestNotFirst`).
- The two summaries of a remainder differ on tiers of count zero, which a computed remainder never has
  (`Remainder.SummariesAgreeIff`; witness `Remainder.EmptyTierWitness`).

## Model

| member | source | states |
|---|---|---|
| LoopStore.ClaimSpacing | server/storage.ts:1710-1731 | Over any interleaving of creates, updates, compare-and-swaps and claims under a clock that never goes back, a later winning claim on a loop reads the clock at least its grace period after an earlier winner stamped the row; in SQL strictly more. |
| LoopStore.StampOfLastWrite | server/storage-pg.ts:968-1074 | Over any interleaving a row carries the stamp of the successful write that landed last. |
| LoopStore.SpacedIff | server/storage-pg.ts:1035-1047 | No claim on a row can win within its grace period of a time if and only if the row is stamped no earlier or its null-reference test refuses every claim. |
| LoopStore.SqlClaimSpacingIff | server/storage-pg.ts:968-1074 | Over any interleaving of all SQL calls, with clock reads and landings apart: after a claim won, the next claim is sure to be spaced from it if and only if the write that landed last is stamped no earlier than the claim (or the row refuses every claim). |
| LoopStore.PgClaimSpacing | server/storage-pg.ts:1021-1051 | Hence, with claims alone writing the row, the winners' clock readings strictly increase by more than the grace period. |
| LoopStore.LateWriteBreaksSpacing | server/storage-pg.ts:968-979 | Witness for the other direction of SqlClaimSpacingIff: an update stamped early lands late, and two claims 1 ms apart both win a grace of 100 ms. |
| LoopStore.ReviewClaimOneWinner | server/storage.ts:1733-1749 | After a winning call at time t, every review claim whose threshold is not later than t loses and changes nothing. |
| LoopStore.BackendsAgreeOnClaim | server/storage-pg.ts:1035-1047 | Exactly when the two backends decide a re-drive claim differently: at the grace boundary, and in states where only SQL tests devGroupId. |
| LoopStore.CasLogIsWalk | server/storage.ts:1692-1708 | When only compare-and-swap writes a loop's state, the log of its winners is a connected walk from its first state to its current one, on both backends. |
| LoopStore.ReentryBetweenWinners | server/storage-pg.ts:1004-1019 | Two winners from one state to other states have, between them, a winner that re-enters that state. |
| LoopStore.RaceHasOneWinner | server/storage.ts:1692-1708 | Of callers racing from one state to other states, the first wins and no other does. |
| LoopStore.KeepsOneActiveIff | server/storage.ts:1442-1450 | A call keeps one active loop per group if and only if it is not an update or compare-and-swap that writes an active row into a group with another active loop; createLoop always does. |
| LoopStore.OneActiveInEveryRun | server/storage.ts:1435-1505 | Every run without re-opening, group moves or direct state patches keeps at most one active loop per group. |
| LoopStore.ReopenBreaksOneActive | server/storage.ts:1692-1708 | Witness for KeepsOneActiveIff: four calls that all win leave a re-opened loop active beside a newer one. |
| LoopStore.IndexKeepsOneActive | shared/schema.ts:1985-1990 | With the partial unique index, every run, re-opening or not, keeps at most one indexed loop per group, and hence at most one active loop. |
| LoopStore.BackendsAgreeOnCreate | shared/schema.ts:1795-1802 | Exactly when the backends decide a create differently, because the index counts stopped loops. |
| LoopStore.StoppedWitness | shared/schema.ts:1985-1990 | Witness for BackendsAgreeOnCreate: memory accepts a loop beside a stopped one, the index refuses it. |
| LoopStore.MemLoops.CreateLoop | server/storage.ts:1442-1505 | The scan over the map throws or inserts as the step function says, and the call is appended to the history. |
| LoopStore.MemLoops.UpdateLoop | server/storage.ts:1664-1673 | Throws for an unknown id, else writes the patched row, in which every field of the patch has arrived (LoopStore.PatchArrives); the history grows by this call. |
| LoopStore.MemLoops.CasLoopState | server/storage.ts:1692-1708 | Writes only when the state is the expected one, then the next state together with every field of the extra patch (LoopStore.PatchArrives), and returns undefined otherwise; the map remains the result of the history. |
| LoopStore.MemLoops.ClaimRedriveLoop | server/storage.ts:1710-1731 | The four early returns and the stamp, equal to the step function, with clock read and stamp apart. |
| LoopStore.MemLoops.ClaimReviewRedrive | server/storage.ts:1733-1749 | The three early returns and the stamp, equal to the step function. |
| LoopStore.MemLoops.GetActiveLoopByGroup | server/storage.ts:1615-1619 | Returns an active loop of the group if and only if there is one; when the recorded calls were orderly it is the only one. |
| LoopStore.CreateArrives | server/storage.ts:1452-1505 | A create that returns stores a row whose fields are the arguments given, pending if no state was given, and changes no other row. |
| LoopStore.CreateThrowsIff | server/storage.ts:1442-1450 | A create throws, changing nothing, if and only if the group has a loop that is not finished (in SQL: or is stopped). |
| LoopStore.PatchArrives | server/storage.ts:1664-1708 | In the row an update or compare-and-swap returns, each of group, iteration and developing group is the patch's value if given and else the old one; the state is the patched or the next one; the time of creation stays; the row is stored and no other changes. |
| LoopStore.PatchRefusedIff | server/storage-pg.ts:968-1019 | Exactly when an update throws and when a compare-and-swap returns undefined or throws: an unknown id, another state, or a group whose index entry is taken. |
| LoopStore.ClaimAnswers | server/storage-pg.ts:1021-1051 | A re-drive claim wins on either backend exactly on a row in the expected state whose reference is missing and whose grace period is over, and then writes the stamp and nothing else. |
| LoopStore.ReviewClaimAnswers | server/storage.ts:1733-1749 | A review claim wins exactly on a reviewing row of the expected iteration that was stamped before the threshold, and then writes the stamp and nothing else. |
| TaskHistory.IntegrityInEveryRun | server/storage.ts:2983-2988 | Over every run, integrity ((group, number) unique, (iteration, non-null task) unique, each execution in an iteration of its group, the trace index exact) holds throughout if and only if every call is proper when made. |
| TaskHistory.StepKeepsIntegrityIff | server/storage.ts:3024-3158 | A single call keeps that integrity if and only if it is proper, for every kind of call. |
| TaskHistory.SeededAllOrNothing | server/storage.ts:3068-3100 | A seeded start adds exactly one running iteration and, for each seed, under its new id, an execution with the seed's task, name and status, the group and that iteration; or changes nothing because the number is taken. |
| TaskHistory.SeedingKeepsIntegrityIff | server/storage.ts:3068-3100 | A seeded start keeps integrity if and only if its seeds name distinct tasks. |
| TaskHistory.ExecutionKeepsIntegrityIff | server/storage.ts:3124-3135 | Creating an execution keeps integrity if and only if it targets an existing iteration of its group. |
| TaskHistory.DeleteTaskOnlyUnlinks | server/storage.ts:2218-2227 | Deleting a task keeps every execution and only forgets the task's id. |
| TaskHistory.DeleteGroupLeavesNothing | server/storage.ts:2128-2146 | Deleting a group leaves no task, iteration, execution, trace or index entry of it and keeps every other row, with its value. |
| TaskHistory.IterationPatchIff | server/storage.ts:3060-3066 | Patching an iteration keeps integrity if and only if no other row has the new number and the group stays or no execution hangs on the iteration. |
| TaskHistory.ExecutionPatchIff | server/storage.ts:3151-3157 | Patching an execution keeps integrity if and only if it then names an iteration of its group and no other row is about the same task in it. |
| TaskHistory.TracePatchIff | server/storage.ts:2274-2281 | Patching a trace keeps integrity if and only if its group stays or the index holds another trace for its old group. |
| TaskHistory.MovedTraceSurvivesDelete | server/storage.ts:2140-2145 | The stale entry of a moved trace outlives the deletion of the old group if and only if no other trace of that group is left. |
| TaskHistory.MovedTraceBreaks | server/storage.ts:2274-2281 | Witness for TracePatchIff. |
| TaskHistory.RepeatedSeedBreaks | server/storage.ts:3068-3100 | Witness for SeedingKeepsIntegrityIff: two seeds of one task. |
| TaskHistory.MisplacedExecutionBreaks | server/storage.ts:3124-3135 | Witness for ExecutionKeepsIntegrityIff: an execution of an iteration that does not exist. |
| TaskHistory.MemHistory.HasIteration | server/storage.ts:2992-2997 | The loop finds an iteration of that group and number if and only if there is one. |
| TaskHistory.MemHistory.HasExecution | server/storage.ts:2999-3004 | The loop finds an execution of that iteration and task if and only if there is one. |
| TaskHistory.MemHistory.AddIteration | server/storage.ts:3024-3031 | The new state of the six maps is the specification's step: throw and keep, or add. |
| TaskHistory.MemHistory.AddIterationWithExecutions | server/storage.ts:3068-3100 | The loop over the seeds ends in the specification's all-or-nothing step. |
| TaskHistory.MemHistory.AddExecution | server/storage.ts:3124-3135 | Throws when the (iteration, task) pair exists, else adds the row. |
| TaskHistory.MemHistory.ChangeIteration | server/storage.ts:3060-3066 | Throws for an unknown id, else patches the row. |
| TaskHistory.MemHistory.ChangeExecution | server/storage.ts:3151-3157 | Throws for an unknown id, else patches the row. |
| TaskHistory.MemHistory.AddTrace | server/storage.ts:2249-2268 | Writes the trace and its group's index entry. |
| TaskHistory.MemHistory.ChangeTrace | server/storage.ts:2274-2281 | Patches the trace and re-indexes it under its new group. |
| TaskHistory.MemHistory.RemoveTask | server/storage.ts:2218-2227 | The loop over the executions unlinks exactly those of the task. |
| TaskHistory.MemHistory.RemoveTaskGroup | server/storage.ts:2128-2146 | The cascade of loops ends in the specification's state. |
| TaskHistory.CreateArrives | server/storage.ts:3024-3135 | Exactly when a create throws; else the row stored is the one given and nothing else changes. |
| TaskHistory.IterationPatchArrives | server/storage.ts:3060-3066 | Each field of a patched iteration is the patch's value if given, else the old one; no other row changes; an unknown id throws. |
| TaskHistory.ExecutionPatchArrives | server/storage.ts:3151-3157 | The same for executions: task, task name, group, status and iteration. |
| TaskHistory.TracePatchArrives | server/storage.ts:2274-2281 | The same for traces, with the index entry of the new group set to the patched trace. |
| LlmStats.WorkspacesByPath | server/storage.ts:1153-1206 | Keeps, per path, the workspace with the lowest id. |
| LlmStats.WorkspacesByGroup | server/storage.ts:1153-1206 | Maps each group to the workspace of its newest loop that resolves to one. |
| LlmStats.OwnerUnique | server/storage.ts:1153-1206 | A group has at most one owning workspace, so attribution is a function. |
| LlmStats.MemStatsByWorkspace | server/storage.ts:1153-1206 | The per-request fold yields the declarative table: one bucket per key that occurs, holding the exact sum of its requests; LlmStats.ReportNamesWorkspace and ReportNamesNobody say which bucket a request is in. |
| LlmStats.PgStatsByWorkspace | server/storage-pg.ts:476-544 | Grouping by runId in SQL and folding the groups yields the same declarative table, for any order of the groups; LlmStats.ReportNamesWorkspace and ReportNamesNobody say which bucket a request is in. |
| LlmStats.BackendsAgree | server/storage-pg.ts:476-544 | The declarative table is unique, so both backends return the same buckets, counts, tokens and costs. |
| LlmStats.BucketsAddUp | server/storage.ts:1153-1206 | The buckets, each listed once, add up to the totals over the whole request table. |
| LlmStats.ReportNamesWorkspace | server/storage.ts:1185-1206 | In any report the workspace that owns a request's group has a bucket under its id, with its id and name; requests, input tokens, output tokens and cost are each the sum (missing = 0) over exactly the requests whose groups a workspace of that id owns. |
| LlmStats.ReportNamesNobody | server/storage-pg.ts:523-544 | A request without a runId, or whose group nobody owns, makes an unattributed bucket, whose four totals are those of exactly such requests. |
| LlmStats.ReportNoOthers | server/storage.ts:1185-1206 | A report holds no bucket that no request belongs in. |
| LlmStats.GroupOwnerIs | server/storage.ts:1164-1183 | The owner of a group is the workspace with the lowest id at the path of the group's newest loop (by creation, then id) whose path is a workspace's. |
| LlmStats.NoGroupOwner | server/storage-pg.ts:500-521 | A group none of whose loops is at a workspace's path has no owner. |
| AuthModel.StepWellFormed | server/auth/storage.ts:60-171 | Every call keeps user ids, emails and provider links unique. |
| AuthModel.DeactivateSessions | server/auth/storage.ts:207-213 | Deactivation removes exactly the user's sessions and leaves every other session as it is. |
| AuthModel.DeactivatedNeverValidates | server/auth/service.ts:63-85 | Whatever calls follow a deactivation, new sessions included, no token validates as that user again. |
| AuthModel.SignInLinks | server/auth/oauth.ts:284-351 | A sign-in that runs alone never fails on uniqueness; on success the provider account points at the session's user and the session is stored; a user is added exactly when the sign-in is not denied (AuthModel.OrgDeniedIff), both lookups missed and auto-registration is allowed. Interleaved sign-ins are the subject of SignInRace. |
| AuthModel.LinkedUnique | server/auth/storage.ts:103-106 | The linked user is the one the provider lookup finds. |
| AuthModel.SignInStable | server/auth/oauth.ts:284-351 | Repeating a successful sign-in, at any time and with new random draws, gives the same user id and adds nobody. |
| AuthModel.EmptyIdWitness | server/auth/storage.ts:150-171 | Witness for the empty provider id: once linked it refuses everybody else and still finds its first user after a real link replaced it. |
| AuthModel.OrgDeniedIff | server/auth/oauth.ts:259-288 | A sign-in is denied, leaving the store as it is, if and only if the list of GitHub organizations, for a GitHub profile, or of GitLab groups, for a GitLab one, is not empty and names none of the profile's. |
| AuthModel.SignInKnown | server/auth/oauth.ts:306-317 | With a known provider account exactly its user's name, picture and time of login change and a session is opened; or the account is disabled and nothing changes. |
| AuthModel.SignInByKnownMail | server/auth/oauth.ts:319-331 | With a known email only, exactly its user's provider account, picture and time of login change and a session is opened; or the account is disabled and nothing changes. |
| AuthModel.SignInNew | server/auth/oauth.ts:333-351 | With neither, open registration adds one active user with the profile's data, the default role and no password and opens a session; else nothing changes. |
| AuthModel.SignInValidates | server/auth/service.ts:63-85 | The token a sign-in returns validates as the user it returns, as long as nothing else happens, until it expires and never after. |
| AuthModel.ValidatesIff | server/auth/service.ts:63-85 | A token validates as a user if and only if it is genuine, its session has not expired and is the user's, and the user is stored and active. |
| AuthModel.CreatedUser | server/auth/storage.ts:60-91 | Exactly when each uniqueness error is thrown; else the stored user has the data given, active and with the user role by default. |
| AuthModel.UpdatedUser | server/auth/storage.ts:112-133 | Exactly when it throws; else each given field arrives and all others stay. |
| AuthModel.LinkedUser | server/auth/storage.ts:150-171 | Exactly when it throws; else provider and id are the new ones, the picture is replaced if given, and nothing else of the user changes. |
| SignInRace.AloneIsSequential | server/auth/oauth.ts:284-351 | A sign-in advanced from await to await with nothing in between ends as the sequential sign-in does. |
| SignInRace.RaceKeepsUnique | server/auth/oauth.ts:284-351 | Over any interleaving of sign-ins and store calls ids, emails and provider links stay unique. |
| SignInRace.TurnIsOneCall | server/auth/oauth.ts:284-351 | Each turn of a sign-in changes the store by at most one call. |
| SignInRace.TurnFailsIff | server/auth/oauth.ts:319-351 | A turn of a sign-in fails on uniqueness if and only if it is about to link or to create and the link (or the new account's email) is taken. |
| SignInRace.TurnsOnce | server/auth/oauth.ts:284-351 | A sign-in takes a turn from each phase at most once, so its look-up turns are determined. |
| SignInRace.RegistrationLostIff | server/auth/oauth.ts:290-303 | In any run, a sign-in whose look-ups missed made them in two turns of its own; its creation fails on uniqueness if and only if an event since the first took the link for good or an event since the second took the email for good. |
| SignInRace.LinkingLostIff | server/auth/oauth.ts:290-299 | In any run, a sign-in that found an active account by email made its provider look-up in a turn of its own; linking fails on uniqueness if and only if an event since that turn took the link for good. |
| SignInRace.LinkLostIff | server/auth/storage.ts:150-171 | A user who has a provider account loses it at exactly the events that give that user another free link: a linkOAuth call, or the linking turn of a sign-in with another provider account that found the user by email. |
| SignInRace.RaceAgrees | server/auth/oauth.ts:284-351 | However sign-ins with one provider account race, those that succeed are for the same user, as long as none of those events meets a user who has the account. |
| SignInRace.FirstSignInsRace | server/auth/oauth.ts:284-351 | Witness: a run in which two first sign-ins with one new account take turns from the start; the first registers, the second fails. |
| AuthStore.OAuthKeyInjective | server/auth/storage.ts:53 | The `provider:id` key tells provider and id apart. |
| AuthStore.MemAuthStorage.CoherentWellFormed | server/auth/storage.ts:51-53 | Indexes that are the inverse images of the users' current fields (up to entries of an empty id) make emails and links unique. |
| AuthStore.MemAuthStorage.CreateUser | server/auth/storage.ts:60-91 | Throws with every map and object unchanged, or adds one new object to all indexes it belongs in; the indexes stay coherent. |
| AuthStore.MemAuthStorage.UpdateUser | server/auth/storage.ts:112-133 | A used email throws and changes nothing; otherwise the shared object changes in place and its email entry moves; coherence is kept. |
| AuthStore.MemAuthStorage.LinkOAuth | server/auth/storage.ts:150-171 | The old provider entry goes, the new one comes, an entry for an empty id included; the indexes are exactly the inverse images afterwards if and only if they were and the call throws or the provider id is not empty. |
| AuthStore.MemAuthStorage.GetUserByEmail | server/auth/storage.ts:93-96 | Answers as a search over all users would. |
| AuthStore.MemAuthStorage.GetUserByOAuth | server/auth/storage.ts:103-106 | Answers as a search over all users would; for an empty id, whoever linked it first. |
| AuthStore.MemAuthStorage.DeactivateUser | server/auth/storage.ts:142-148 | The shared object turns inactive and all sessions of the user are gone; an unknown id throws and changes nothing. |
| AuthStore.MemAuthStorage.DeleteSessionsByUserId | server/auth/storage.ts:207-213 | The loop deletes exactly the sessions of the user. |
| AuthStore.AuthService.AuthenticateOAuth | server/auth/oauth.ts:284-303 | On the heap, with aliased maps, the whole sign-in equals the value-level sign-in, so its laws, from the organization restriction to the session's expiry, hold there. |
| AuthStore.AuthService.ValidateToken | server/auth/service.ts:63-85 | Equals the value-level check; for a genuine token of an expired session exactly one session with its id is deleted, otherwise the session table stays. |
| ProjectScope.FailClosed | server/db.ts:43-252 | Outside a project scope the strict helper works only for a system scope that brings its own condition, the list, catalog and insert helpers only for a system scope, unfiltered and with shared rows. |
| ProjectScope.ProjectFilterExact | server/db.ts:43-207 | A rewritten query of a project matches a row if and only if the row is its own (or shared, for the catalog helper) and meets the original condition, under three-valued logic. |
| ProjectScope.OtherProjectInvisible | server/storage-pg.ts:1408-1429 | A call of another project leaves what project P can see unchanged. |
| ProjectScope.KeptStepConsistent | server/storage-pg.ts:1408-1429 | On two tables that look alike to P, a call of P returns the same and leaves tables that look alike. |
| ProjectScope.Noninterference | server/db.ts:43-252 | In every run of disciplined calls with ids that are P's own, erasing all calls of all other projects changes no result P receives and no row P sees in the end. |
| ProjectScope.ForeignCallInvisibleIff | server/db.ts:43-252 | Any call of another project, disciplined or not, leaves what P sees as it was if and only if it deletes no shared row, changes no shared row, and turns no own row into one that P sees. |
| ProjectScope.StepKeepsUniqueIds | server/db.ts:221-252 | A call whose patch leaves ids alone keeps row ids unique. |
| ProjectScope.RunKeepsUniqueIds | server/db.ts:221-252 | Hence ids stay unique over every run of such calls. |
| ProjectScope.InsertAnswerIff | server/db.ts:221-252 | The answer to an insert of P differs from the answer on the rows P sees if and only if one of its ids is carried by a hidden row, by no visible row, and the ids are distinct. |
| ProjectScope.InsertStamps | server/db.ts:232-251 | Stamping keeps the number, order, ids and columns of the rows and sets only their project: to that of the scope, or to none in a system scope. |
| ProjectScope.InsertAnswers | server/db.ts:221-252 | An insert of P fails, changing nothing, exactly when an id is repeated or taken; else exactly the items given are appended as rows of P. |
| ProjectScope.InsertThenSelect | server/storage-pg.ts:1408-1420 | After a successful insert a query of P answers what it answered before, followed by the inserted rows that meet its condition. |
| ProjectScope.SelectAnswers | server/storage-pg.ts:1408-1415 | A query of P answers exactly the rows in the table that are P's (or shared, for the catalog helper) and meet the condition, in table order and multiplicity. |
| ProjectScope.UpdateAnswers | server/storage-pg.ts:1422-1425 | An update of P patches exactly those rows, in place, and answers them as patched. |
| ProjectScope.DeleteAnswers | server/storage-pg.ts:1427-1429 | A delete of P removes and answers exactly those rows and keeps all others in order. |
| ProjectScope.SystemAnswers | server/db.ts:54-66 | A system scope passes a condition on as it is, and refuses a strict query without one. |
| ProjectScope.NoColumnThrows | server/db.ts:43-207 | In a project scope every helper refuses a table without the column. |
| ProjectScope.ScopesNest | server/context.ts:62-92 | A block runs under its own scope, and the calls after it run under the scope from before. |
| ProjectScope.ReusedIdInterferes | server/db.ts:221-252 | Witness for InsertAnswerIff: an insert fails only because of another project's row. |
| ProjectScope.ProjectPatchInterferes | server/storage-pg.ts:1422-1425 | Witness for ForeignCallInvisibleIff: a patch that rewrites projectId. |
| ProjectScope.GlobalWriteInterferes | server/db.ts:170-207 | Witness for ForeignCallInvisibleIff: a delete through the catalog helper, which the backend uses for reading only. |
| ProjectScope.BlockErased | server/context.ts:62-64 | A block run as another project contributes no call that P sees, however deeply nested, and restores the scope around it. |
| ProjectScope.BackgroundJobInvisible | server/context.ts:62-64 | Inserting a background job of another project anywhere into a program changes no result of P. |
| LeasedEnv.DeliverLeasedEnv | server/credentials/deliver-leased-env.ts:68-140 | Throws exactly when a named secret's attempt fails, after one revoke per issued lease and one removal per directory; else leaseIds is exactly the issued leases in bound order, nothing was revoked, and env and values are exact. |
| LeasedEnv.Deliver | server/credentials/deliver-leased-env.ts:44-140 | For the whole call, whichever await fails and whatever else is outstanding: a call that throws undid exactly its own leases and directories; a call that returns undid none, lists all of them, and has every kubeconfig path it wrote in values; its env, values and directories are exactly what the delivered secrets give (LeasedEnv.DeliveryHolds). |
| LeasedEnv.OneLeasePerNamedSecret | server/credentials/deliver-leased-env.ts:79-115 | Without failure there is one lease per secret that still has a name, in bound order, malformed payloads included. |
| LeasedEnv.EverythingRedacted | server/credentials/deliver-leased-env.ts:117-129 | Every kubeconfig path and every extra value of a delivered secret is among the values to redact. |
| LeasedEnv.KubeconfigNamesLastFile | server/credentials/deliver-leased-env.ts:117-128 | KUBECONFIG names the last file written unless a later secret sets it. |
| LeasedEnv.EnvHolds | server/credentials/deliver-leased-env.ts:117-128 | A variable is set if and only if some delivered secret's shaped env has it or, for KUBECONFIG, some delivered secret writes a file. |
| LeasedEnv.EnvValue | server/credentials/deliver-leased-env.ts:117-128 | Its value is that of the last such secret, the path of the file going before the secret's own KUBECONFIG. |
| LeasedEnv.ValuesHold | server/credentials/deliver-leased-env.ts:118-129 | The values to redact are exactly the extras of delivered secrets and the paths of the files written. |
| LeasedEnv.DeliveryHolds | server/credentials/deliver-leased-env.ts:68-140 | A complete delivery holds exactly those variables, values and directories. |
| LeasedEnv.FailsIff | server/credentials/deliver-leased-env.ts:86-130 | The steps for a secret fail if and only if the lease, the reading, the directory or the file does; a malformed payload is no failure. |
| LeasedEnv.NameIsLast | server/credentials/deliver-leased-env.ts:59-66 | A credential goes by the last name listed for it. |
| LeasedEnv.RunWithSecrets | server/credentials/deliver-leased-env.ts:29-38 | A caller that revokes and cleans up afterwards undoes exactly what the call issued and made, in any case. |
| ConfigMerge.DeepMerge | server/config/loader.ts:12-37 | The loop over the keys computes the recursive merge. |
| ConfigMerge.MergeAt | server/config/loader.ts:12-37 | At every path: the upper layer's leaf; nothing if the upper layer hides the path; else the lower layer's leaf; the cases exclude each other. |
| ConfigMerge.CsvRoundTrip | server/config/loader.ts:45-59 | Joining clean items with commas and parsing the result gives the items back. |
| ConfigMerge.CsvItemsClean | server/config/loader.ts:45-59 | Every item of a parsed list is trimmed, non-empty and free of commas. |
| ConfigMerge.CsvPadded | server/config/loader.ts:52-57 | Items written with any blanks around them parse to the items. |
| ConfigMerge.ParseMeans | server/config/loader.ts:45-59 | What a variable means by kind: only "true" and "1" are true; a number is what it converts to or unset if it does not; other text is itself. |
| ConfigMerge.SetNestedAt | server/config/loader.ts:166-180 | Setting a path changes that path and what lies below it, and nothing else, when no leaf stands on the way. |
| ConfigMerge.BuildEnvOverrides | server/config/loader.ts:186-196 | The loop over the mapping table computes the specified overrides. |
| ConfigMerge.OverridesAt | server/config/loader.ts:186-196 | For every prefix-free table the overrides hold, at every path, the parse of the last mapping whose variable is set and parses, and nothing elsewhere. |
| ConfigMerge.LastSetIs | server/config/loader.ts:186-196 | The mapping that decides a path is the last one in the table that supplies it. |
| ConfigMerge.Load | server/config/loader.ts:222-239 | The three layers are merged in the order defaults, file, environment; for a prefix-free table every path holds what LayeredAt says, with the overrides of OverridesAt. |
| ConfigMerge.LayeredAt | server/config/loader.ts:227-239 | At every path the result is the environment's value, else nothing if the environment hides it, else the file's, else nothing if the file hides it, else the default; a layer never both supplies and hides. |
| Rekey.HexRoundTrip | server/crypto.ts:59-64 | Decoding the hex of any bytes gives the bytes back. |
| Rekey.V2RoundTrip | server/crypto.ts:52-80 | Over any sound cipher, decrypting the v2 text of a plaintext through its salt, nonce, tag and payload offsets gives the plaintext, for every salt and nonce. |
| Rekey.PlainCipherSound | server/crypto.ts:52-80 | Sound ciphers exist: an explicit one meets the round trip that is assumed of a cipher. |
| Rekey.LegacyReadable | scripts/rekey-v2.ts:100-124 | The migration reads old values written under the current key, and those written under the development key if the current key does not open them. |
| Rekey.V2Layout | server/crypto.ts:52-60 | A v2 text is the marker and the hex of salt, nonce, tag and payload in 32, 12, 16 and the remaining bytes, sealed under the key derived from the secret and the hex of the salt. |
| Rekey.DecryptRefuses | server/crypto.ts:62-114 | crypto.decrypt refuses every value without the marker and every one too short, and opens the others at those offsets. |
| Rekey.LegacyReads | scripts/rekey-v2.ts:70-124 | The migration opens an unmarked value at the old offsets under the current key, else under the development key, else not at all. |
| Rekey.FateIs | scripts/rekey-v2.ts:218-261 | Exactly when a row is empty, already done, rekeyed or in error, and which text a rekeyed row gets. |
| Rekey.StatsCount | scripts/rekey-v2.ts:218-261 | Each counter is the number of rows it names: all, with the marker, without it, rekeyed, in error. |
| Rekey.ProcessColumn | scripts/rekey-v2.ts:191-264 | A pass over the rows of its SELECT, with application writes between any two rows: the column ends as specified and the counters count the fates, in every mode and whichever updates fail. |
| Rekey.RowOutcome | scripts/rekey-v2.ts:218-261 | Each row ends with what the application wrote after its turn; else its new ciphertext if it was rekeyed; else what the application wrote before. |
| Rekey.QuietPass | scripts/rekey-v2.ts:218-261 | Without such writes every row gets the value its fate prescribes. |
| Rekey.WriteLostIff | scripts/rekey-v2.ts:204-261 | A live pass loses the plaintext the application stored last in a row if and only if it rekeys the row and the application wrote another plaintext between the SELECT and the row's UPDATE and nothing afterwards. |
| Rekey.WriteLostWitness | scripts/rekey-v2.ts:204-261 | Witness for WriteLostIff: a value replaced between the SELECT and the UPDATE is set back. |
| Rekey.RekeyPreserves | scripts/rekey-v2.ts:218-261 | After a live pass crypto.decrypt reads every row not left in error as its old plaintext; a row left in error is unchanged. |
| Rekey.DryRunPredicts | scripts/rekey-v2.ts:229-259 | A dry run writes nothing, meets the errors of a live pass whose updates all go through, and counts exactly the rows that pass rekeys. |
| Rekey.LiveAccountsForAll | scripts/rekey-v2.ts:229-259 | In a live pass nonV2Remaining = rekeyed + errors. |
| Rekey.VerifyGate | scripts/rekey-v2.ts:218-231 | nonV2Remaining is zero if and only if every non-empty value has the prefix. |
| Rekey.SecondPassIdle | scripts/rekey-v2.ts:191-264 | After an error-free live pass, during which the application wrote only v2 or empty values, every value is v2 or empty, and any further pass, in any mode, with any draws and row order, rekeys nothing, meets no error and changes nothing. |
| Keyset.PagingExact | server/storage.ts:193-216 | For any strict order: whatever the limits, and whatever comes and goes above the client's position, rows shown plus rows still to show are the sorted rows; the client finishes. |
| Keyset.HistoryOrder | server/storage.ts:198-203 | The order of the history is completion time, then id, both descending. |
| Keyset.MemPageHolds | server/storage.ts:204-215 | A page in memory holds at most the limit, only rows below the cursor or undated ones, and all of them if there is room. |
| Keyset.PgPageHolds | server/storage-pg.ts:1483-1505 | A page from SQL does the same without the undated rows. |
| Keyset.IterationOrder | server/storage.ts:3033-3042 | Iterations are ordered by number, descending. |
| Keyset.IterationPageHolds | server/storage.ts:3033-3042 | A page of iterations holds at most the limit and at most 100, only numbers below the cursor, and all of them if there is room. |
| Keyset.GainsAreAbove | server/storage.ts:193-216 | A table that only gains rows ahead of all existing ones changes only above every position a client can reach. |
| Keyset.GrowingPagesExact | server/storage.ts:193-216 | For any strict order: if rows only arrive ahead of all rows of the first request, following the cursors repeats and skips none of those. |
| Keyset.AnyChanges | server/storage.ts:193-216 | For any strict order and any changes between requests, anywhere in the table: the rows shown are strictly sorted, and every row present in all requests was shown or still follows the client's position. |
| Keyset.HistoryPagesExact | server/routes/activity.ts:195-250 | With every run dated, both stores, read through the route and its cursors, show every run exactly once in (completedAt, id) descending order. |
| Keyset.GrowingHistoryPages | server/routes/activity.ts:195-250 | The same for the run history on both stores, when runs that finish meanwhile are newer than all others. |
| Keyset.HistoryPagesAnyChanges | server/routes/activity.ts:195-250 | The same for the run history on both stores, with every run dated: a run that arrives below the client's position repeats and hides no other. |
| Keyset.MemHistoryExactIff | server/routes/activity.ts:240-247 | With undated runs in memory, paging is exact if and only if no running total of the limits falls behind the dated runs but not behind all runs. |
| Keyset.PgHistoryExactIff | server/storage-pg.ts:1483-1505 | With SQL it is exact if and only if every run is dated or the first page holds them all. |
| Keyset.UndatedWitness | server/routes/activity.ts:240-247 | Witness for both: two undated runs, one to a page. |
| Keyset.IterationPagesExact | server/storage.ts:3033-3042 | With numbers unique in the group, iteration pages show every iteration once, newest first, while new ones are started. |
| Keyset.GrowingIterationPages | server/storage.ts:3033-3042 | The same when iterations started meanwhile have higher numbers. |
| Keyset.IterationPagesAnyChanges | server/storage.ts:3033-3042 | The same for iteration pages under any changes. |
| PrQueue.NormalizedPath | shared/pr-queue.ts:155-157 | The key is a prefix of the path without a trailing slash, only slashes were cut off, and normalising twice changes nothing. |
| PrQueue.TrailingSlashesIgnored | shared/pr-queue.ts:155-157 | Appending slashes to a path does not change its key. |
| PrQueue.ByNewestStrictTotal | shared/pr-queue.ts:182-188 | The comparator is a strict order, total on items with different loopIds. |
| PrQueue.RecencyIs | shared/pr-queue.ts:160-164 | Recency is the time of the update, else of the creation; a present but unparseable update counts as 0 and does not fall back. |
| PrQueue.ClusterOrder | shared/pr-queue.ts:182-188 | In a cluster merged and closed items come last, more recent ones first, ties by loop id ascending. |
| PrQueue.ClusterSays | shared/pr-queue.ts:212-222 | A cluster names its first item as current and the others, in order, as superseded; its current item is open whenever any item of the repository is. |
| PrQueue.ClustersOrder | shared/pr-queue.ts:224-226 | Clusters are listed by the recency of their current items, most recent first. |
| PrQueue.ClusterPrQueue | shared/pr-queue.ts:203-227 | The insertion-ordered map and the two loops compute the specified list of clusters. |
| PrQueue.ClustersPartition | shared/pr-queue.ts:203-227 | Clusters have different keys and together hold exactly the input's items, with multiplicity. |
| PrQueue.ClusterContents | shared/pr-queue.ts:203-223 | A cluster holds exactly the items of its repository, strictly sorted. |
| PrQueue.CurrentLoop | shared/pr-queue.ts:172-220 | The current loop is unresolved whenever any item of the repository is, no item of the same standing is newer, and all others are superseded. |
| PrQueue.DuplicateIff | shared/pr-queue.ts:218 | A cluster is a duplicate if and only if two different items share its repository. |
| PrQueue.ClustersCanonical | shared/pr-queue.ts:203-227 | Permuting the queue leaves the same clusters and the same recency at every position; only clusters of equal recency may change places. |
| Pricing.LookupPricing | shared/pricing.ts:79-107 | Building the index and scanning compute the specified lookup. |
| Pricing.LookupFinds | shared/pricing.ts:93-107 | For any table the lookup finds a longest-prefix entry, and finds nothing only if no entry prices the slug. |
| Pricing.LookupIsLongestPrefix | shared/pricing.ts:93-107 | With distinct names it returns an entry if and only if that is the longest-prefix entry. |
| Pricing.OrderIrrelevant | shared/pricing.ts:98-106 | The order of the table does not matter. |
| Pricing.IndexAgreesIff | shared/pricing.ts:79-96 | The exact-match index leaves the scan's answer alone if and only if the slug is no name, or a non-empty name whose first entry is also the last. |
| Pricing.IndexAgrees | shared/pricing.ts:79-96 | With distinct non-empty names the index never changes the answer. |
| Pricing.CommentHoldsIff | shared/pricing.ts:83-107 | With distinct names the code follows its comment for a slug if and only if the entry the comment selects is the one with the longest prefix. |
| Pricing.LongestNotFirst | shared/pricing.ts:83-107 | Witness for CommentHoldsIff: a slug for which the first prefix entry is not the one returned. |
| Remainder.ComputeOpenRemainder | shared/consilium-remainder.ts:37-51 | The two loops compute, from the picked row only, nothing without open points, else their number and the tallies of their labels. |
| Remainder.LastIndex | shared/consilium-remainder.ts:41-42 | The reduction picks a row of the highest round and, among those, the last one listed. |
| Remainder.TalliesCount | shared/consilium-remainder.ts:45-49 | The tiers are exactly the labels that occur, each with its number of points. |
| Remainder.TotalIsSum | shared/consilium-remainder.ts:45-50 | The total is the sum of the tier counts. |
| Remainder.RemainderSays | shared/consilium-remainder.ts:43-50 | Nothing without open points; else their number, with one tier per label that occurs, holding the number of points under that label; the tiers add up to the total. |
| Remainder.TierOfNumber | shared/consilium-remainder.ts:65-68 | For every number n the labels Pn, pn, P n and n are tier n and -n is tier minus n; labels without a number are in the last tier. |
| Remainder.BreakdownIs | shared/loop-status.ts:91-105 | The non-P0 summary of the loop status lists exactly the tiers but P0 that count something, lower numbers first, unnumbered last, ties by label; its total is their sum; it says nothing only if there are none. |
| Remainder.RemainderBreakdownIs | shared/consilium-remainder.ts:59-75 | The summary of the remainder lists all tiers but P0 in that order with their sum, empty ones included, and says nothing when the sum is not positive. |
| Remainder.AllOpenIs | shared/loop-status.ts:71-88 | The full summary gives the stored total and lists exactly the tiers that count something in that order; it says nothing if the total is not positive or no tier counts. |
| Remainder.TierFirstStrictTotal | shared/consilium-remainder.ts:65-71 | The comparator, with Infinity - Infinity falling through to the labels, is a strict order, total on different labels. |
| Remainder.SummariesAgree | shared/loop-status.ts:91-105 | On every computed remainder, for any two orders of its entries, both summaries give the same total (all minus P0) and the same ordered breakdown, or both nothing. |
| Remainder.SummariesAgreeIff | shared/loop-status.ts:91-105 | On any remainder without negative counts they agree if and only if no tier but P0 is empty or all of those are. |
| Remainder.EmptyTierWitness | shared/loop-status.ts:91-105 | Witness for SummariesAgreeIff: one filled and one empty tier. |
| Remainder.AllOpenExtends | shared/loop-status.ts:71-88 | The full summary of a computed remainder counts every point, and without its P0 tier it is the non-P0 breakdown. |

## Left out

- Express routing, pollers, start-up wiring, the UI, Zod validation, logging, and the loop controller's choice of transitions.
- Drizzle and Postgres: a table is a row map or a list of rows, and one statement is one atomic guarded step; joins and subqueries inside conditions, `onConflict` paths and tables without `project_id` are not part of this model.
- AES-GCM, scrypt, UTF-8, JWT signatures and bcrypt: parameters of which only the round trip (or the outcome of the check) is used.
- Locale collation: `localeCompare` and SQL's text order are the code-unit order.
- Money is real numbers and token counts and timestamps are unbounded integers; IEEE rounding, the `::int` casts of the sums and very large digits in `parseInt` are not modelled.
- `login`, `register`, password checks, `hasUsers`, the OAuth state nonces, and the Postgres twin of the account store: they add only easy members.
- Plain reads and writes of models, lessons, questions, chat, MCP servers, workspaces and budgets; the other cost reports; `updateLoopArchetypeIfNotOverridden` and the per-round patches of a loop.
- `createTaskGroup` and `createTask`: steps of `TaskHistory`, without a method of the class.
- The fields of a stored user are kept in one record field of the shared object; assignments to single fields are record updates.
- SignInRace.RaceAgrees: each turn of a sign-in is one store call, as in the in-memory store; several statements of one Postgres call are not taken apart.
- Rekey.WriteLostIff: rows deleted or set to NULL during a pass are not modelled.
- ProjectScope.ForeignCallInvisibleIff: takes row ids to be unique, which ProjectScope.RunKeepsUniqueIds shows every run to keep, and patches to leave ids alone.
- LlmStats.MemStatsByWorkspace: the order of the returned buckets is not modelled, because the source promises none.
- LlmStats.PgStatsByWorkspace: takes the rows of the GROUP BY as given, in any order, because the query itself runs in Postgres.
- ConfigMerge.SetNestedAt: the cursor that walks a mutable object is a recursive function on values; aliasing between layers is not captured.
- ConfigMerge.OverridesAt: is about any prefix-free table; that the shipped table of variables is prefix-free is not checked.
- LeasedEnv.DeliverLeasedEnv: the ledgers keep the order of leases, of revocations and of directories each, but not how these events interleave.
- Keyset.MemHistoryExactIff: is about a table that does not change between requests; so is Keyset.PgHistoryExactIff, which also takes all stamps to be later than the epoch.
- Remainder.SummariesAgree: the breakdown is the list of tiers it spells out; writing it as text is not modelled, and trimming and upper-casing labels is a parameter.
- Pricing.LookupIsLongestPrefix: is about any table with distinct names; that the shipped table has them is not checked.
- Multiplying tokens by prices (`computeCostUsd`), `knownProviders`, `isPrBearingLoop` and `explainLoopState`: one-branch facts.
