# Canary Checker: verified models of its scheduling, retrying and reconciling core

Canary Checker runs health checks and keeps topologies of components. This project models the parts of it that hold
properties which branching, mutable state or arithmetic make hard, and proves those properties. `dafny verify
dfyconfig.toml` checks all of it.

**Running checks in dependency order** (`DependencySort`, `CheckRunner`). Named checks are sorted so that every check
comes after all it depends on; the queue is seeded in arbitrary order. A cycle is reported exactly when otherwise
valid input has one. A run executes every enabled, registered check once, and in the dependency branch a check sees
exactly the outputs of the named checks that have passed before it. In JUnit mode one result that holds all others is
reported.

**Retries** (`RetryPolicies`, `RetryLoop`, `KubernetesRetry`). Two levels of settings are merged and validated into a
policy; the loop runs against any clock that moves forward, and its record says what was attempted when, why it was
repeated and why it ended. A kubernetesResource check has such a loop around each embedded canary, each turn of which
has one around every check of the canary; settings alone bound the numbers of attempts, and the two nested bounds
multiply.

**Scheduling canaries** (`CronSync`, `CronRuns`, `CronSchedule`, `CronRaces`, `CronSweep`). The protocol is a state
machine over the steps of any number of threads, with the map of mutexes, the job map and the cron table as shared
state. The sweep is an object with the same fields. One uninterrupted call is proved to be what the sweep's method
does.

**Reconcilers over tables** (`CheckTable`, `DerivedCanaries`, `ComponentRows`, `ComponentTable`, `TopologyRun`,
`TopologyMirror`). A table is a map from ids to rows; which writes fail is arbitrary. The checks of a canary, the
derived canaries of an agent selector and the components of a topology all converge from any well-formed table.

**The topology tree** (`Components`, `Moves`, `ParentReferences`, `Layouts`, `Detaching`, `Scans`, `Reparenting`,
`Reattachment`, `HonouredLookups`, `TraversalExamples`, `Walks`, `Summaries`, `CountedComponents`, `RootSummaries`,
`TopologyPipeline`). Components are objects on the heap. Their lists of children are rearranged in place while they
are being traversed; the ghost *parent map* (child to parent) says what the lists hold, and every rearrangement is a
sequence of *moves* on it. A *layout*, what all lists hold and which lookups resolve to what, prescribes one
traversal, its moves and the layout that it leaves; the methods on the heap are proved to carry out just that. So
which components are scanned, which lookups are honoured, where every component ends up and whether anything is lost
are stated over the layout at the start. `TopologyPipeline` joins parents and rows: a component that is lost from the
tree loses its row.

**Optimised forms** (`Partitioner`, `Folder`). An early-exit scan against trying every window; four streamed extremes
against looking at every file.

`Common` has the shared vocabulary and the set difference that all reconcilers use. `Sequences` says what it means for
a list to be made of parts or of picked elements, and for a number to be a sum, in terms of positions.

How the model stands for the code:

- The outcome of one check attempt, clock readings, the rate limiter's answers, database failures and generated ids
  are parameters or arbitrary choices, so everything proved holds for all of them.
- Go's arbitrary map iteration order is an arbitrary choice. Durations and timestamps are integers of nanoseconds.
- A component's materialised path is the sequence of its ancestors' ids. Finding an existing component is a lookup by
  topology, parent, name and type.
- Ghost parameters (`u`, the components concerned; `pm`, the parent map; `rank`, which makes recursion end) carry no
  information that the code would need.

Where the code does not do what it or its comments promise:

- `pkg/jobs/canary/sync.go:27-30` and `:80-84` say that the lock prevents orphaned cron entries. `Unschedule` is also
  called outside the lock (`:226`). Interrupted between its load and its delete, it deletes the job that a reschedule
  has just stored, and the new entry is orphaned (`CronRaces.InterruptedUnscheduleOrphans`); the next call adds a
  second one. A run orphans nothing if and only if no such delete finds another job than the one it loaded whose entry
  is still in cron and not about to be removed by the holder of the lock (`CronRuns.OrphansExactly`). With such an
  `Unschedule` in one step the promise holds for every interleaving.
- When the scheduler rejects the new schedule of a canary that was running, the canary is left without a job
  (`CronSweep.RejectedScheduleStopsCanary`). A running canary ends without a job exactly then and when it is no longer
  wanted (`CronSweep.LeftWithoutJob`).
- A check that exists and cannot be persisted in this round is deleted with the stale ones
  (`CheckTable.FailedCheckLosesRow`). A plain row is deleted exactly if no check of its key could be persisted
  (`CheckTable.DeletedExactly`).
- A component whose parent lookup names the parent it already has is lost, because the list it was appended to is
  replaced (`Reattachment.LostBelow`). One that is moved into its own subtree is lost too. Nothing is lost if and only
  if no honoured lookup names the parent there is already and the parents that honoured lookups ask for make one tree
  (`HonouredLookups.NothingLostExactly`); when no component with a lookup that resolves hangs below another, this is a
  condition on parents and lookups alone (`HonouredLookups.FlatLookupsLoseNothing`).
- A component moved to a parent that was traversed before the one it left, or that is being gone through, is not
  traversed, so lookups below it are ignored (`TraversalExamples.LookupIgnored`, `TraversalExamples.JoinsTooLate`).
  Every lookup in the tree that resolves is honoured if and only if, whenever one component with such a lookup hangs
  below another, the upper one asks for a component that comes later than the parent it leaves in the order that the
  layout at the start prescribes (`HonouredLookups.HonouredExactly`); in particular whenever none hangs below another.
- A lookup without an external id is meant to name a component by its name, type and namespace. A slash in a name or a
  type can give different components the same key (`ParentReferences.SlashesBlur`), and an external id can read like a
  key. Apart from these cases the lookup names what it should (`ParentReferences.LookupInFields`).
- The root's direct children are counted into its summary but are never given a summary of their own
  (`RootSummaries.SummarizeRoot`).
- From a range of 100000100 minutes on, the choice of an aggregation window is not the best one unless nothing is to
  be aggregated (`Partitioner.ScanFails`, `Partitioner.BeyondTheScan`).

## Model

| member | source | states |
|---|---|---|
| DependencySort.SortByDependency | checks/runchecks.go:93-175 | Each of the four errors is reported exactly when it applies, the first offence first; a circular dependency is reported if and only if the otherwise valid input has a cycle, self-loops included; success gives a permutation with the unnamed checks first and every named check after all its dependencies, for any order of the initial queue |
| DependencySort.ValidInFields | checks/runchecks.go:106-127 | Otherwise valid input, in fields: every dependency is the name of some check, and a check without a name has none |
| DependencySort.BuildCheckMap | checks/runchecks.go:94-104 | The map files exactly the named checks, or the first name seen twice is reported |
| DependencySort.CountInDegrees | checks/runchecks.go:106-127 | Every name's degree is its number of dependency entries, repetitions counted, or the first offence in input order is reported |
| DependencySort.OffenceInFields | checks/runchecks.go:106-127 | What is reported is there: a check without a name but with dependencies, or a dependency that is not the name of any check; all checks before it are in order |
| DependencySort.SeedQueue | checks/runchecks.go:129-134 | The queue holds, once each and in any order, the names without dependencies |
| DependencySort.Release | checks/runchecks.go:155-168 | After a check is placed, every degree is again the number of unmet dependency entries and the queue holds exactly the ready checks, none twice |
| DependencySort.PlaceReady | checks/runchecks.go:141-168 | The loop ends with an empty queue, never meets a check twice, and has placed exactly the checks that can be placed, each after its dependencies |
| DependencySort.StuckSetHasCycle | checks/runchecks.go:170-172 | Names that all wait for each other contain a cycle: a path that cannot be extended without repetition closes |
| DependencySort.StuckMeansCycle | checks/runchecks.go:170-172 | When the queue is empty before all checks are placed, the dependency graph has a cycle |
| DependencySort.OrderedMeansAcyclic | checks/runchecks.go:170-174 | Input that can be ordered has no cycle, so none is reported wrongly |
| CheckRunner.RunChecks | checks/runchecks.go:230-311 | The whole run: which early exit is taken and why a sort failed; in the dependency branch exactly the enabled checks that have a checker are executed, each once, after its dependencies, and each sees exactly the first results of the named checks that passed before it, as in the end exactly those are published; without dependencies the same checks run type by type, in one environment, and nothing is published; the results are those of the executions, each at the offset that the lengths before it add up to, and the report stands for them; the skips add up |
| CheckRunner.ProcessResults | checks/runchecks.go:471-500 | The results as they are, or in JUnit mode one result with a test for each of them in order, whose counts of passed and failed tests are the numbers of results that passed and did not, and which passes exactly if all do |
| CheckRunner.RunInOrder | checks/runchecks.go:255-284 | Executes the covered checks in sorted order; when one executes, it sees exactly what has been published so far |
| CheckRunner.RunGrouped | checks/runchecks.go:286-297 | Executes, type by type in registry order, the enabled checks of each type, all in the same environment; results and skips are those of the executions |
| CheckRunner.GroupedTypeAfterType | checks/runchecks.go:286-297 | The executions are one group after the other, a group for each registered type: nothing for a disabled one, and otherwise the checks of that type picked from the input in order |
| CheckRunner.CoversRunnable | checks/runchecks.go:220-284 | What a run in dependency order executes is, for every check, as many copies as the input has if its type is registered and not disabled, and none otherwise |
| CheckRunner.GroupedIsRunnable | checks/runchecks.go:220-297 | With distinct types registered, grouping by type executes the same multiset of checks as the dependency branch |
| CheckRunner.PublishedExactly | checks/runchecks.go:281-283 | When no name is executed twice, exactly the executions of a named check whose first result passed have published that result, under the name |
| CheckRunner.SeenIsPublished | checks/runchecks.go:255-284 | What an execution sees, and what is there in the end, in terms of the executions before: a name is bound if and only if a check of that name ran and its first result passed, and it is bound to that result |
| CheckRunner.NamesStayUnique | checks/runchecks.go:93-104 | A run that covers what it should, each check once, executes no name twice if the sort accepted the names |
| CheckRunner.OrderCarriesOver | checks/runchecks.go:255-284 | Leaving out disabled and unregistered checks keeps dependencies first among the others |
| CheckRunner.HasDependencies | checks/runchecks.go:211-218 | True exactly if some check has dependencies |
| CheckRunner.ChecksOfType | checks/runchecks.go:220-228 | The checks of one type in input order |
| CheckRunner.GetCheckerForType | checks/runchecks.go:84-91 | The first checker registered for the type, if there is one |
| RetryPolicies.MergeCheckRetries | checks/retry.go:106-138 | The settings in effect are, field by field, those of the check or else those of the canary |
| RetryPolicies.MergedInFields | checks/retry.go:106-188 | What the merged policy holds, in the two levels of settings: retries, timeout, delay and interval are the check's where it has them and otherwise the canary's |
| RetryPolicies.NewRetryPolicy | checks/retry.go:140-188 | Accepts exactly the acceptable configurations; an accepted policy is sound, in particular a timeout comes with a positive interval, and stands for its configuration; a rejection names a defect that is there |
| RetryPolicies.AcceptedInFields | checks/retry.go:106-188 | Which pairs of settings are accepted, and which disable retries, in the fields of both levels |
| RetryPolicies.RetryPolicy.NextInterval | checks/retry.go:210-224 | Before the deadline a pause is positive, never longer than the interval, and ends by the deadline, shortened exactly when it would not; after it there is none; without a deadline it is the interval |
| RetryPolicies.SettingsBound | checks/retry.go:106-208 | The bound computed from two levels of settings is that of every policy they are merged into |
| RetryLoop.RunCheckWithRetries | checks/retry.go:32-80 | Ends under every clock, with at most as many attempts as the settings allow (one, maxRetries+1, or the ceiling of timeout/interval plus one, whichever is smallest). For each of seven reasons exactly what it means: a checker that retries itself, rejected settings and disabled retries are each reported if and only if they apply, the initial delay can only be broken off if there is one, and otherwise the loop ran after that delay; the results are those of the last attempt and the skips those of all. In the fields of both levels of settings: it ends for lack of budget only if no retries are asked for, or there were maxRetries+1 attempts, or the timeout is over, and it never goes on when one of these holds |
| RetryLoop.RetriesExactly | checks/retry.go:52-79 | A check that always fails, with maxRetries set, no timeout and no pause broken off, is attempted exactly maxRetries+1 times |
| RetryLoop.RetryUntilDone | checks/retry.go:52-79 | The loop: a record in which every attempt but the last failed in a retryable way with budget left and was followed by the policy's pause; it ends when the last one did not, when no budget is left, or when the context ends in a pause that there was budget for |
| RetryLoop.RunRound | checks/retry.go:57-78 | One turn, and the invariant that before the deadline every pause has been a whole interval |
| RetryLoop.ShouldRetryResults | checks/retry.go:226-244 | Retry exactly if a failure that is not invalid precedes every invalid result |
| RetryLoop.FilterRateLimited | checks/runchecks.go:429-469 | Skipped and kept add up to what was produced, order is kept, only rate-limited results are missing, and those kept become ordinary failures |
| RetryLoop.RunCheckAttempt | checks/retry.go:82-92 | The results of an attempt are what the check produced less what was skipped |
| RetryLoop.PausesWithinTimeout | checks/retry.go:197-224 | All pauses asked for add up to no more than the timeout, however much sleeps overrun |
| RetryLoop.DeadlineRespected | checks/retry.go:197-224 | Only the last attempt may start at or after the deadline, and with an exact timer no pause ends after it |
| RetryLoop.AddRetryData | checks/retry.go:262-296 | Retry data is attached and nothing else about the results changes |
| KubernetesRetry.RunEmbedded | checks/kubernetes_resource.go:169-242 | Canaries are run one after the other, each after the delay and until it passes; the outcome is that of the first that could not be templated, waited for or made to pass, and success means that every canary was run to a turn in which all of its results passed, and that the display has, for each named result of these turns, the message of the last one of its name, and nothing else |
| KubernetesRetry.RunUntilPassing | checks/kubernetes_resource.go:200-241 | A record of runs, all of the canary's checks in each unless the disabled checks could not be read: a run has failed if and only if that lookup failed or some result of some check did not pass; every run but the last failed with budget left and was followed by the policy's pause; it ends when a run passes, with a failed run when no budget is left, or when the context ends in a pause that there was budget for; what budget is, in the policy's fields |
| KubernetesRetry.TurnsExactly | checks/kubernetes_resource.go:200-241 | A canary with a check that always fails, with maxRetries set and no timeout, is run exactly maxRetries+1 times and then fails, unless a pause is broken off |
| KubernetesRetry.PassedMeansAllRan | checks/kubernetes_resource.go:200-241 | A canary that passed had a last run in which each of its checks ran with its retries and every result of each of them passed |
| KubernetesRetry.TurnsWithinTimeout | checks/kubernetes_resource.go:200-241 | The pauses between runs add up to no more than the timeout, only the last run may start at or after the deadline, and with an exact timer no pause ends after it |
| KubernetesRetry.ExecutionsMultiply | checks/kubernetes_resource.go:200-241 | Every embedded check is executed at most outer bound times inner bound often, whatever its executions over all runs add up to |
| KubernetesRetry.RunChecksNoPersistence | checks/runchecks.go:183-209 | Every check runs once with its retries under the canary's settings and its own, one after the other, and the results are those of the checks in order, each at the offset that the lengths before it add up to; it fails, without running any, exactly if the disabled checks cannot be read |
| KubernetesRetry.AddDisplay | checks/kubernetes_resource.go:169-242 | The message of the last result of each name is kept |
| KubernetesRetry.DisplayMeans | checks/kubernetes_resource.go:231-242 | Exactly the named results are displayed, each name with the message of its last one |
| CronSync.StepKeepsInv | pkg/jobs/canary/sync.go:33-47 | Every step of every thread keeps the invariant that ties locks, job map, cron table and program counters together |
| CronSync.HarmOrphans | pkg/jobs/canary/sync.go:42-47 | An Unschedule outside the lock that deletes a job whose entry is in cron, is not the one it has removed and is not about to be removed by the lock's holder, orphans that entry |
| CronSync.StepOrphansNothing | pkg/jobs/canary/sync.go:42-47 | A step of any thread, whatever the lock's holder is doing, leaves every entry known to the map or to that holder if and only if it is not such a deletion |
| CronSync.FreeLockExact | pkg/jobs/canary/sync.go:42-47 | With the lock free, the map knows every entry of the canary after a deletion outside the lock if and only if the deletion was harmless in this sense |
| CronRuns.OrphansExactly | pkg/jobs/canary/sync.go:77-190 | No moment of a run has an orphaned entry if and only if every step of the run is harmless |
| CronRuns.NeverTwoEntries | pkg/jobs/canary/sync.go:77-190 | In every interleaving of harmless steps a canary never has two cron entries, and when its lock is free the entry is the one the job map knows |
| CronRuns.CronAgreesWithMap | pkg/jobs/canary/sync.go:77-190 | With Unschedule outside the lock in one step: at most one entry always, and map and cron agree whenever the lock is free |
| CronRuns.HolderLeavesRequested | pkg/jobs/canary/sync.go:124-156 | A call that unlocks without having failed leaves the job of the requested spec in the map, or none if none is wanted, unless an Unschedule outside the lock has deleted the job since the call decided |
| CronRuns.UninterruptedIsHarmless | pkg/jobs/canary/sync.go:42-47 | If every Unschedule outside the lock is one step, all steps are harmless |
| CronSchedule.WholeCallAlone | pkg/jobs/canary/sync.go:77-190 | A call that nobody interrupts has exactly the sequential effect, and gives the lock back |
| CronSchedule.AtOnceIsUnscheduled | pkg/jobs/canary/sync.go:42-47 | The one-step Unschedule takes away the canary's job and the entry of that job, and leaves everything else, locks included |
| CronSchedule.OutsideAlone | pkg/jobs/canary/sync.go:42-47 | The steps that the code takes for it add up to the one step when nothing comes in between |
| CronRaces.LockIsNeeded | pkg/jobs/canary/sync.go:33-38 | Without the lock, or with a mutex of its own for every call instead of LoadOrStore, there is a run with two entries for one canary |
| CronRaces.InterruptedUnscheduleOrphans | pkg/jobs/canary/sync.go:42-47 | From every state in which a canary is scheduled, an interrupted Unschedule outside the lock and a reschedule leave a cron entry that the job map does not know |
| CronRaces.OrphanMakesTwo | pkg/jobs/canary/sync.go:144-146 | The next call then adds a second entry |
| CronSweep.CanaryScheduler.Unschedule | pkg/jobs/canary/sync.go:42-47 | The canary's job leaves cron and map, and nothing else changes |
| CronSweep.CanaryScheduler.NewCanaryJob | pkg/jobs/canary/sync.go:159-190 | A new entry and the job that knows it, or nothing if the scheduler rejects it |
| CronSweep.CanaryScheduler.SyncCanaryJob | pkg/jobs/canary/sync.go:77-157 | The sequential effect of a call, and exactly when it fails: for an unreadable canary, and for a new or changed spec that the scheduler rejects |
| CronSweep.CanaryScheduler.SyncCanaryJobs | pkg/jobs/canary/sync.go:192-230 | After a sweep every fetched canary runs what it asks for, what it ran before if it could not be read or asks for the same, and nothing if it asks for nothing or for a new schedule that is rejected; everything else is unscheduled, and cron and map agree |
| CronSweep.CanaryScheduler.GetAllCanaryIDsInCron | pkg/jobs/canary/sync.go:232-238 | The canaries that have entries |
| CronSweep.LeftWithoutJob | pkg/jobs/canary/sync.go:124-156 | A running canary ends without a job if and only if it is not wanted, or another spec is wanted and rejected |
| CronSweep.RejectedScheduleStopsCanary | pkg/jobs/canary/sync.go:136-156 | An input for which a rejected schedule leaves a running canary without a job |
| CronSweep.SyncedIsRight | pkg/jobs/canary/sync.go:77-157 | One call keeps cron and map in agreement, leaves the canary with the right spec and others alone |
| CronSweep.SyncedInFields | pkg/jobs/canary/sync.go:77-157 | What one call does to the two maps for each kind of request; jobs and entries of other canaries stay |
| CheckTable.Table.PersistCheck | pkg/db/canary.go:82-154 | Upsert by key: the live row of the key, which is the check's canary, type and name, or description if it has no name, is that check's; a description that serves as the name is not kept twice; the id is the one the key had, and no other row changes |
| CheckTable.Table.PersistCanaryModel | pkg/db/canary.go:487-529 | Fails, with the table unchanged, exactly if the old ids cannot be read or the spec cannot be parsed; otherwise every check that can be persisted has a live row, and of the plain rows from before exactly those stay live for which there is such a check; the canary remembers for each name the id of the last check so named |
| CheckTable.PlainKeysExactly | pkg/db/canary.go:487-528 | From any table the plain rows end up under exactly the keys that could be persisted, less those taken by transformed rows |
| CheckTable.DeletedExactly | pkg/db/canary.go:487-528 | A plain row that was there is deleted if and only if no check of its key could be persisted |
| CheckTable.FailedCheckLosesRow | pkg/db/canary.go:506-526 | An input for which a check that is in the spec loses its row because it could not be persisted |
| CheckTable.MirrorsSpec | pkg/db/canary.go:487-528 | If nothing fails, the table mirrors the spec if and only if no transformed row shares a key with it |
| CheckTable.SecondRunChangesNothing | pkg/db/canary.go:487-528 | Applying the same spec again changes nothing |
| CheckTable.IdsAreForever | pkg/db/canary.go:82-154 | Over any history of specs and failures a key never moves to another id |
| DerivedCanaries.CanaryTable.UpsertDerivedCanary | pkg/jobs/canary/agent_selector.go:94-123 | The agent's live row gets the parent's content, or a new row with the parent's name and namespace is made if there is none; no other row changes |
| DerivedCanaries.CanaryTable.DeleteDerivedCanariesNotInList | pkg/jobs/canary/agent_selector.go:125-135 | Exactly the live derived rows of other agents are deleted, all of them when no agent is kept |
| DerivedCanaries.CanaryTable.SyncAgentSelectorCanary | pkg/jobs/canary/agent_selector.go:46-92 | When a sync succeeds, what it has upserted in either case, and that nothing is deleted unless all upserts succeeded; on success which rows are pruned, in the rows' fields |
| DerivedCanaries.ValidAgentIds | pkg/jobs/canary/agent_selector.go:57-73 | The agents meant: for each entry of the selector that is an id that id, then for each agent whose name matches its id, in these orders, repetitions included |
| DerivedCanaries.OneLiveRowPerAgent | pkg/jobs/canary/agent_selector.go:46-135 | A successful sync leaves exactly one live row per agent, and none for others, if and only if there were not several for one before |
| DerivedCanaries.OtherSourcesUntouched | pkg/jobs/canary/agent_selector.go:125-135 | Rows of other sources stay as they are, in both directions |
| DerivedCanaries.LiveRowsAreCurrent | pkg/jobs/canary/agent_selector.go:100-106 | Live derived rows have the parent's current content |
| DerivedCanaries.SecondSyncChangesNothing | pkg/jobs/canary/agent_selector.go:46-135 | A second sync for the same agents changes nothing |
| ParentReferences.PopulateParentRefMap | pkg/topology/run.go:424-432 | Enters the whole tree in preorder, later components replacing earlier ones under a key |
| ParentReferences.LookupFindsLast | pkg/topology/run.go:434-443 | A lookup finds the last component in preorder that answers to its key, which is its external id if it has one |
| ParentReferences.LookupInFields | pkg/topology/utils.go:41-43 | Without an external id a lookup names the last component in preorder with its name, type and namespace, and with one the last component with that external id; the exceptions, where a slash in a part or an external id makes two keys the same, are named in full |
| ParentReferences.KeysTellApart | pkg/topology/utils.go:41-43 | Where names and types have no slash in them, two keys are equal if and only if all three parts are |
| ParentReferences.SlashesBlur | pkg/topology/utils.go:41-43 | An input for which two different components have the same key |
| Detaching.DetachResolved | pkg/topology/run.go:446-462 | The first loop: every child whose lookup resolves moves once, to what it resolves to, joins the end of that list in list order, and will not move again; the others stay in order; one that asks for its own parent is in no list afterwards |
| Layouts.DetachedInOrder | pkg/topology/run.go:446-462 | What the first loop does to the lists, by position: which children stay, which join which list at its end and in which order, and that exactly these will not move again |
| Layouts.OnlyOne | pkg/topology/run.go:445-467 | Lists and lookups prescribe a single traversal from each component: it goes on to exactly those of a list that stay, arrivals included, in the order of the list at that moment |
| Layouts.PrescribedIs | pkg/topology/run.go:445-467 | That traversal can be computed from lists and lookups, to a depth of the number of components |
| Scans.SameTraversal | pkg/topology/run.go:445-467 | Two traversals of the same lists and lookups scan the same components in the same order and make the same moves |
| Reparenting.ChangeComponentParents | pkg/topology/run.go:445-467 | Ends although lists grow; carries out the prescribed traversal with the prescribed moves, a component's own before those of its kids, and leaves the lists and lookups that this leaves; no component is scanned twice; exactly the children of scanned components whose lookup resolves are moved, once each, out of attached components; a moved child is scanned if and only if its new parent is scanned later than the one it left; the lists are as the moves say and empty lists are none |
| HonouredLookups.ScannedExactly | pkg/topology/run.go:445-467 | A component of the tree is scanned if and only if each lookup that resolves, from it upwards, names a component that comes later in the prescribed order than the parent of the one that has it |
| HonouredLookups.HonouredExactly | pkg/topology/run.go:445-467 | All lookups in the tree that resolve are honoured if and only if all that others hang below go ahead in the order prescribed by lists and lookups |
| HonouredLookups.FlatLookupsHonoured | pkg/topology/run.go:445-467 | When no component with such a lookup hangs below another, all are honoured, whatever the order |
| HonouredLookups.EndsUp | pkg/topology/run.go:445-467 | The parents that all components end up with, from parents, lists and lookups at the start |
| HonouredLookups.NothingLostExactly | pkg/topology/run.go:445-467 | All moves are proper, and so nothing is lost, if and only if no honoured lookup asks for the parent there is and the parents that honoured lookups ask for make one tree |
| HonouredLookups.AllHonouredLoseNothing | pkg/topology/run.go:445-467 | If upper lookups go ahead, the same in terms of parents and lookups alone |
| HonouredLookups.FlatLookupsLoseNothing | pkg/topology/run.go:445-467 | If no component with a lookup hangs below another, the same without regard to any order |
| TraversalExamples.LookupIgnored | pkg/topology/run.go:445-467 | An input for which a lookup is ignored below a component that joins a parent scanned before |
| TraversalExamples.JoinsTooLate | pkg/topology/run.go:445-467 | An input for which a component joins the list that is being gone through, is not scanned, and a lookup below it is ignored |
| TraversalExamples.JoinsInTime | pkg/topology/run.go:445-467 | An input with nested lookups that are all honoured, the lowest one after its parent has moved twice |
| Scans.MovesCompose | pkg/topology/run.go:445-467 | Two traversals of disjoint parts together move exactly what a traversal of both parts would |
| Scans.ScanIsLegal | pkg/topology/run.go:445-467 | Each move takes the child from the parent it has at that moment, which is attached to the root |
| Moves.Conserved | pkg/topology/run.go:445-467 | A sequence of moves leaves every component attached to the root if and only if each went to a new parent that was not inside the child's subtree at that moment |
| Moves.ImproperDetaches | pkg/topology/run.go:457-462 | A move to the current parent, or into the child's own subtree, detaches the child |
| Moves.NothingReattachedEver | pkg/topology/run.go:445-467 | What has been detached never comes back |
| Moves.MovedOnce | pkg/topology/run.go:456-457 | A component that is moved once ends up under its new parent, or under none if that is its old one |
| Reattachment.UpdateParents | pkg/topology/run.go:424-467 | Indexing and traversing together, from one tree: lookups name components by name, type and namespace or by external id; the scanned components, the moves, the final parents and the final lists are those prescribed by lists and lookups, and the result is one tree again exactly when all moves were proper, which is exactly when the honoured lookups ask for a tree |
| Reattachment.Settled | pkg/topology/run.go:445-467 | Every child of a scanned component whose lookup resolves ends up under what it resolves to, unless it was there already, and then under none |
| Reattachment.Unmoved | pkg/topology/run.go:445-467 | All other components stay where they are |
| Reattachment.LostBelow | pkg/topology/run.go:457-462 | With a component that asks for its current parent everything below it is lost |
| Reattachment.OrderedLookupsAreProper | pkg/topology/run.go:445-467 | A condition on the lookups alone: if parents and targets together admit an order and nobody asks for its current parent, every move is proper in whatever order the traversal makes them |
| Reattachment.AttachedPartIsTree | pkg/topology/run.go:681-684 | What still hangs below the root is one tree in any case |
| Walks.Walk | pkg/system_api.go:110-120 | The listing is the preorder of the forest |
| Walks.ListsSubtrees | pkg/system_api.go:110-120 | A component is listed exactly if it hangs below one of the components listed from |
| Walks.ListsOnce | pkg/system_api.go:110-120 | Nothing is listed twice |
| Walks.WholeTree | pkg/system_api.go:110-120 | The listing of a tree has every component exactly once, the root first |
| Walks.ParentFirst | pkg/system_api.go:110-120 | A component is listed before its children |
| Walks.SiblingsInOrder | pkg/system_api.go:110-120 | Everything in the tree of an earlier member of a list comes before everything in the tree of a later one |
| Summaries.Summarize | pkg/system_api.go:395-428 | The counts are the component's own contribution plus its children's reports; afterwards everything below it, and nothing else, remembers its own report, whatever was remembered before |
| Summaries.SummarizeList | pkg/system_api.go:430-436 | The sum over a list; what hangs below its members remembers its report, the members do not |
| Summaries.PlanExists | pkg/system_api.go:395-428 | The reports are the sums of all contributions listed below each component |
| Summaries.ReportsAreCounts | pkg/system_api.go:395-428 | The report of a component is the sum of the counts of its tree |
| CountedComponents.ContributionsCount | pkg/system_api.go:395-428 | These counts are numbers of components and of checks, in their fields: healthy ones are those without children or list of checks whose status is healthy, plus the checks that passed of components with a list of checks and no children; unhealthy, warning and info alike |
| RootSummaries.SummarizeRoot | pkg/topology/run.go:708-729 | The root gets the counts of the whole tree, as numbers of components and checks, and the status that follows from these; what is two levels or more below remembers the counts of its own tree; direct children keep the summary they had |
| RootSummaries.EverythingCountedOnce | pkg/system_api.go:395-436 | The counts of a tree are the contributions of all its components, each taken once |
| RootSummaries.StatusOfTree | pkg/system_api.go:438-450 | Unhealthy, warning, healthy and info, each in both directions, in terms of the statuses of the leaves and the checks in the tree |
| RootSummaries.TreeCountsAre | pkg/system_api.go:395-436 | Each count of a tree is the number of its components and checks that count for it |
| ComponentRows.PathIsAncestry | pkg/db/topology.go:114-123 | In a well-formed table the path of a row names exactly the rows reached from it by going up to parents, all in its topology |
| ComponentRows.PathInOrder | pkg/db/topology.go:114-123 | The path names ancestors in order, each at its depth |
| ComponentRows.CascadeTakesSubtrees | pkg/db/topology.go:188-226 | Deleting by id and then by path removes exactly the named rows and all their descendants |
| ComponentTable.Table.FindExisting | pkg/system_api.go:177-210 | The row, live or not, with the component's topology, parent, name and type |
| ComponentTable.Table.SaveRow | pkg/db/topology.go:82-111 | The component takes over the id of the row with its key, which is updated and revived, or gets a new row; it fails exactly when refused or when a new row's given id is taken; the table stays well-formed and no other row changes |
| ComponentTable.Table.PersistComponent | pkg/db/topology.go:75-132 | Parents before children: every component of the tree gets a live row below its parent's row, the ids returned are those of these rows, other rows stay, and on failure nothing but saved rows has changed; it succeeds whenever nothing is refused and no component comes with an id of its own |
| ComponentTable.Table.DeleteComponentsWithIDs | pkg/db/topology.go:188-208 | The rows named are gone, no row is gone that is neither named nor below a named one, and with the cascade complete all of these are |
| ComponentTable.Table.DeleteComponentsWithIDsInBatches | pkg/db/topology.go:211-219 | The same for all batches together; when a batch fails, for a prefix of the ids |
| TopologyRun.GetActiveComponentsIDsOfTopology | pkg/db/topology.go:253-258 | The ids of the live rows of the topology |
| TopologyRun.PersistResults | pkg/topology/run.go:555-568 | All results are saved in the topology, up to the first failure |
| TopologyRun.OnlyStaleGone | pkg/topology/run.go:575-580 | No part of the deletion or its cascade reaches a saved row or another topology, because saved rows contain the parents of all saved rows |
| TopologyRun.DeleteStale | pkg/topology/run.go:570-580 | Afterwards exactly the saved rows are live in the topology, or all rows that were, when deletion is skipped |
| TopologyRun.Run | pkg/topology/run.go:542-580 | From any well-formed table: on success the live rows of the topology are exactly those saved in this run, or those and the earlier ones after a lookup error; in every case rows keep their identity, other topologies are untouched as far as rows are looked up by topology (the fallback queries that leave it out are not modelled) and the table stays well-formed; without faults the run completes |
| TopologyPipeline.GiveParents | pkg/topology/run.go:681-684 | What is left attached, determined by lists and lookups, is one tree, and it is everything if and only if the honoured lookups ask for a tree |
| TopologyPipeline.RunTopology | pkg/topology/run.go:505-598 | From the tree and its lookups, which name components by name, type and namespace or by external id, to the rows: exactly the components that are still attached under the parents determined by lists and lookups have live rows in the end, linked as these parents say, and that is all of them if and only if the honoured lookups ask for a tree |
| TopologyMirror.ChainDeterminesRow | pkg/db/topology.go:75-132 | Within a topology a chain of names and types belongs to one row only |
| TopologyMirror.LiveRowsSpellTheTrees | pkg/topology/run.go:542-580 | After a completed run a chain of names and types is that of a live row if and only if it is that of a component |
| TopologyMirror.RunsAgree | pkg/topology/run.go:542-580 | Runs with the same trees leave the same chains live whatever was there before, and a later one finds the same ids |
| TopologyMirror.IdsOutliveRuns | pkg/topology/run.go:542-580 | With any runs for any topologies in between, the same tree keeps the same ids |
| Folder.FolderCheck.Append | checks/folder_check.go:51-66 | The four extremes stay those of all files so far, the first of equal ones, and the files are kept in order |
| Folder.TestDecidesPerFile | checks/folder_check.go:73-147 | Which verdict the extremes give, in terms of every single file, in both directions for each of the five outcomes |
| Folder.VerdictsOnWhole | checks/folder_check.go:73-147 | The verdicts on counts, capacity and settings in terms of the folder and the test, each in both directions |
| Folder.GetFolderContents | checks/folder.go:185-206 | The listing filtered, in order: which entries stay, by kind, age, size, name and time |
| Folder.GenericFolderCheck | checks/folder.go:142-181 | Files are the filtered listing, the extremes are theirs; when nothing is listed the directory itself stands in for oldest and newest |
| Folder.CheckLocalFolder | checks/folder.go:120-140 | A local folder passes exactly when the counts are within bounds, every listed file is, and no capacity is asked for; one that does not exist counts as one without files; a listing error is reported exactly if the filter, the listing, or the look at a folder without matching files fails |
| Partitioner.GetBestPartitioner | pkg/api/api.go:77-109 | The greedy choice is the best one if and only if the range is within the scan or not aggregating is at least as good as the coarsest window |
| Partitioner.NoLaterImprovement | pkg/api/api.go:22-33 | Once a window is no closer than the one before, no coarser one is |
| Partitioner.StoppedAtBest | pkg/api/api.go:82-96 | Where the scan stops, the first best window has been found |
| Partitioner.LocallyBest | pkg/api/api.go:82-96 | A window that is closer than the one before and no less close than the one after is the best of all |
| Partitioner.BeyondTheScan | pkg/api/api.go:82-108 | What happens beyond the initial delta, and when that is still right |
| Partitioner.ScanLimit | pkg/api/api.go:82-96 | The range at which the initial delta cuts in |
| Partitioner.ScanFails | pkg/api/api.go:82-108 | An input for which the choice is not the best |
| Partitioner.ExpectedForDays | pkg/api/api_test.go:11-39 | The choice expected for eight days of a check run every half a minute |
| Partitioner.ExpectedHourly | pkg/api/api_test.go:11-39 | The choices expected for six and for twelve days of a check run every hour |
| Common.SetDifference | pkg/utils/utils.go:57-69 | The elements of the first list that are not in the second, in order and with repetitions |
| Sequences.DifferencePicked | pkg/utils/utils.go:57-69 | By position: which elements of the first list stay |

## Left out

- Concrete checkers, templates, expressions, transformations and result parsing: libraries and the network decide them; one attempt is an arbitrary list of results.
- Nil entries in a list of results, which the filter of rate-limited results passes on: TransformResults, which fills the list, never leaves one in it.
- The rate limiter's token bucket: it answers arbitrarily.
- SQL and gorm mechanics, query caches and text matching with LIKE: tables are maps of rows, and paths are sequences of ids, so one id being part of another's text does not arise.
- ComponentTable.Table.FindExisting: models the lookup by topology, parent, name and type only, not the fallback queries that leave the topology out when the component has no id.
- Components that carry a deletion time of their own, and the columns of a component other than its key, path and liveness.
- Incidents and insights in summaries: filled in elsewhere.
- The exit for a single virtual component, groups by tag, properties and labels of a topology, and pushing it elsewhere.
- TriggerAt, RunNow, the property that disables all checks, and the persisting of webhook checks, in the scheduling of canaries.
- CheckTable.Table.PersistCanaryModel: starts when the canary's own row has been upserted; that upsert, its errors and the flag for changes are not modelled.
- CheckRunner.RunChecks: in JUnit mode the combined result has a test with verdict and detail for each result, but not the names, durations and labels of tests.
- Parsing of folder filters: the parsed filter is given.
- Rounding when a duration is converted to hours through a float: whole hours are taken exactly.
- Saturation of time differences at the limits of 64 bits.
- HAR, artifacts, metrics and job history: bookkeeping around what is modelled.
