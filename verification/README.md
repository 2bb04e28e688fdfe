# Verified model of the workflow scheduler, the artifact catalog and their helpers

This project models the parts of the repository whose correctness is decided by
its own algorithms and protocols, and proves what they promise:

- **Workflow graphs** (`CycleCheck`, `Phases`, `Exclusive`, `RunningOrder`,
  `Names`, `Expansion`, `Filter` over `Digraph`): forEach expansion, the
  level-by-level sort, splitting for mutual exclusion, the two cycle checks, and
  filtering.
- **Running workflows** (`ActionContext`, `Scheduler`, `SchedulerResults`,
  `SchedulerEnds`, `SchedulerOutcomes`, `WorkflowRuns`, `ForEachRun`,
  `ForEachOutcomes`, `Retry`, `Memo`): the goroutines, semaphores and barriers of
  the executor as small-step machines. Providers, conditions, inputs and clocks
  are choices of event; a cancellation may happen at any point.
- **The LRU cache with expiry** (`LruCache`, `LruCacheClass`, `LruRecency`,
  `LruHistory`, `LruInterleaving`, `LruLosses`): the object, its refinement of a
  recency-ordered sequence, and what is left of that when lock sections of
  different callers interleave.
- **The local catalog** (`LocalTag`, `RemoteReference`, `OciContent`,
  `CatalogStore`, `ArtifactBuilders`, `CatalogOrder`, `CatalogListed`,
  `CatalogSearch`, `CatalogAnswers`, `Archive`, `ArchiveAnswers`,
  `CatalogChanges`, `LocalCatalog`, `CatalogRuns`, `CatalogListedRuns`,
  `CatalogFetch`): a content-addressed store of blobs, manifests and image indexes
  in the shapes of the "Image Manifest" and "Image Index" sections of the OCI
  Image Format Specification, with storing, deleting, pruning, saving, loading and
  fetching.
- **Lookup** (`Semver`, `ArtifactLookup`, `ArtifactAnswers`): which version a
  query gets, locally and from a registry.
- **Handler resolution** (`HandlerRegistry`, `HandlerCalls`, `HandlerAnswers`):
  demand-driven, de-duplicated resolution of auth handlers by any number of
  callers.
- **Author functions** (`AuthorFuncs`): the cycle check over template bodies and
  why it makes evaluation terminate.

Algorithms that change state step by step are methods and classes proved against
specification functions; protocols are transition relations with invariants over
all runs. A digest is modelled by the content it is computed from, so digests
are injective. Where the code and its comments disagree, the model follows the
code:

- the cycle `findCycle` reports repeats its last name (`CycleCheck.FindCycle`);
- a forEach over an empty array takes its transitive ordering with it
  (`Expansion.EmptyArrayLosesOrder`); `Expansion.OrderingExactly` says exactly
  which order is kept, and `Expansion.NonEmptyKeepsOrder` that all of it is when
  no array is empty;
- only direct dependencies that failed or timed out cause a skip, and on
  cancellation only the phase at hand is marked;
- the forEach loop goes on spawning after marking the remaining iterations
  (`ForEachRun.StoredStays`, `ForEachRun.LateIterations`);
- the fallback of the handler registry can be called more than once per name, in
  exactly the runs `HandlerCalls.AtMostOnceExactly` describes
  (`HandlerCalls.InvokedTwice`);
- a Get that found an entry expired can remove the entry set in the meantime:
  `LruLosses.FinishLosesExactly` and `LruLosses.LiveLostExactly` say exactly when
  a live key is lost (`LruInterleaving.OvertakenLosesKey` and
  `LruLosses.InPlaceLosesKey` are runs). The bijection of map and list breaks in
  fewer runs (`LruInterleaving.StrongExactly`);
- Prune follows a layer as a layer even when it is a manifest, so it can leave a
  listed, untagged manifest incomplete
  (`CatalogListedRuns.LayerManifestLosesLayers`); `CatalogListed.PruneCompleteExactly`
  says exactly when it does not;
- layers are pushed in the order given, so a manifest given before its part is
  listed before it is complete (`CatalogOrder.ManifestBeforePart`);
  `CatalogListed.InterruptedExactly` says exactly when that cannot happen;
- a call argument may refer to one iteration of a forEach action and then orders
  its action after that iteration only (`Expansion.OneIterationOnly`,
  `Expansion.OrderingExactly`), although phases keep it behind all of them
  (`Expansion.NonEmptyKeepsOrder`);
- without jitter, retry delays shrink when the initial delay is negative
  (`Retry.DelaysNeverShrink`).

## Model

| member | source | states |
|---|---|---|
| CycleCheck.FindCycle | pkg/action/validation.go:942-986 | nothing is reported exactly when the dependency relation has no cycle, whatever the map order; what is reported is a simple cycle of real edges with its last name written twice |
| CycleCheck.CycleFinder.Dfs | pkg/action/validation.go:950-974 | the depth-first visit: it terminates, and either leaves its invariant (stack, colours, parent links, finished names in topological order) or has recorded a real cycle |
| CycleCheck.CycleFinder.Reconstruct | pkg/action/validation.go:954-961 | walking the parent links back from the top of the stack yields a simple cycle, duplicated at the end |
| CycleCheck.StackCycle | pkg/action/validation.go:954-961 | the names above the repeated one on the search stack form a simple cycle; dropping the duplicate gives it |
| CycleCheck.SimpleCycleCyclic | pkg/action/validation.go:942-986 | a reported cycle, duplicate dropped, is a closed walk of the relation |
| Phases.ComputeExecutionPhases | pkg/action/graph.go:656-721 | succeeds exactly when the in-section relation is acyclic, and then returns the phases by longest dependency chain |
| Phases.PhasesUnique | pkg/action/graph.go:656-721 | two results for one section hold the same names in every phase: the outcome does not depend on map order |
| Phases.DependencyLater | pkg/action/graph.go:656-721 | along any dependency chain the depending action sits in a strictly later phase |
| Phases.BuildInDegrees | pkg/action/graph.go:664-682 | the counters are the numbers of in-section dependency occurrences and the dependents lists mirror the relation, duplicates included |
| Phases.RemovePhase | pkg/action/graph.go:706-717 | removing a phase leaves the counters exact for the names that remain |
| Phases.NextPhase | pkg/action/graph.go:688-717 | one round: the names with no live dependency are exactly those of the next level; when there are none the section is cyclic |
| Phases.CyclicNeverDrains | pkg/action/graph.go:697-700 | in a cyclic section some names remain after any number of rounds |
| Phases.RunBothChecks | pkg/action/graph.go:656-721 | run on the same dependencies, the depth-first check reports no cycle exactly when the level-by-level sort succeeds |
| Exclusive.BuildConflicts | pkg/action/graph.go:534-557 | the conflict map is the symmetric closure, within the phase, of the exclusive lists |
| Exclusive.ColorPhase | pkg/action/graph.go:571-597 | every action gets the smallest colour no coloured neighbour has; no two neighbours share one |
| Exclusive.SplitPhase | pkg/action/graph.go:526-608 | the sub-phases hold each action of the phase exactly once, none is empty, none holds two conflicting actions, and there is at most one more than the largest number of conflicts of one action |
| Exclusive.SplitPhases | pkg/action/graph.go:512-521 | the groups of each phase, phase after phase: sorted, conflict free, no action lost or repeated; an action is in the first group of its phase where no smaller name conflicts with it |
| Exclusive.ComputeOrder | pkg/action/graph.go:107-170 | sorting, then splitting: every group is sorted, conflict free and from one level of the dependency relation, levels in order; within a level an action is in the first group that holds no smaller name in conflict with it, so every dependency is in a strictly earlier group; it fails exactly for cyclic sections |
| RunningOrder.OrderUnique | pkg/action/graph.go:107-170 | that determines the running order: two orders of one section are equal |
| RunningOrder.FewGroupsAt | pkg/action/graph.go:526-608 | the groups that come from one level number at most one more than some action of the level has conflicts inside it |
| RunningOrder.QuietLevelShares | pkg/action/graph.go:565-567 | two actions of one level share a group when nothing in that level conflicts |
| RunningOrder.NoExclusionsLevels | pkg/action/graph.go:512-521 | without exclusions the running order is exactly the levels, one group each |
| Names.IsForEachIteration | pkg/action/foreach.go:329-359 | holds exactly for a non-empty base followed by one bracketed run of digits |
| Names.ParseIterationName | pkg/action/foreach.go:364-388 | returns the base and the value of the digits exactly for such names |
| Names.ParseCreated | pkg/action/foreach.go:323-388 | parsing a created name gives back its base and index, exactly when the base is non-empty and the index not negative |
| Names.IterationNamesDistinct | pkg/action/foreach.go:323-326 | different (base, index) pairs never give the same iteration name, for bases without brackets |
| Expansion.ExpandNames | pkg/action/graph.go:189-236 | the expanded names are exactly the instances of the section, each with its base; an array that cannot be evaluated or an instance that cannot be built stops it |
| Expansion.BuildInstances | pkg/action/graph.go:206-234 | an action is expanded exactly when its array can be evaluated and the inputs of every instance can be built |
| Expansion.ComputeExpanded | pkg/action/graph.go:419-507 | dependencies and exclusions of an instance are the instances of what its action names, sorted; references outside the section are kept apart |
| Expansion.ExpandSection | pkg/action/graph.go:174-262 | the whole expansion of a section, or the error |
| Expansion.BaseUnique | pkg/action/validation.go:226-266 | with valid action names no expanded name belongs to two actions |
| Expansion.InstancesDistinct | pkg/action/graph.go:206-226 | the instances of one action have distinct names |
| Expansion.InstancesExactly | pkg/action/graph.go:206-226 | an action with an array of n items stands for n instances, named by it and the indices 0 to n - 1 in brackets; one without for itself |
| Expansion.CrossRefsExactly | pkg/action/graph.go:419-485 | the references kept apart are exactly those to names that are neither actions of the section nor instances |
| Expansion.EdgeLift | pkg/action/graph.go:419-485 | one instance depends on another exactly when its action refers to the other's whole action or to that instance alone; always along an edge between their actions, and exactly along those where every reference names a whole action |
| Expansion.LevelKept | pkg/action/graph.go:419-485 | an instance has the level its action has among the actions that are expanded to something, whether references name actions or single iterations |
| Expansion.OrderingExactly | pkg/action/graph.go:419-485 | one instance depends transitively on another exactly when a chain of surviving actions leads to an action that refers to the other's whole action or to that instance |
| Expansion.OrderingKept | pkg/action/graph.go:419-485 | a transitive dependency between instances is one between their actions through surviving actions, and conversely where every reference names a whole action |
| Expansion.OneIterationOnly | pkg/action/graph.go:472-478 | a concrete section where a call argument refers to one iteration: the action depends on that iteration and not on the next |
| Expansion.NonEmptyKeepsLevels | pkg/action/graph.go:174-262 | with no empty forEach array the level in the expanded graph is the level in the original one |
| Expansion.NonEmptyKeepsOrder | pkg/action/graph.go:174-262 | then every instance of a transitively depending action is in a strictly later phase than every instance of what it depends on, even if the reference is to one iteration |
| Expansion.EmptyArrayLosesOrder | pkg/action/graph.go:206-226 | a concrete section where an empty array in the middle makes an action lose its transitive ordering |
| Expansion.ExclusionKept | pkg/action/graph.go:489-507 | instances conflict exactly when their actions do, for exclusions that name actions, as validation demands |
| Expansion.CyclesKept | pkg/action/graph.go:656-721 | the expanded section is cyclic exactly when the surviving part of the original is |
| Expansion.BuildSection | pkg/action/graph.go:124-158 | expansion, sort and split of one section: the order is that of `Exclusive.ComputeOrder` on the expanded section; fails exactly on arrays or inputs that cannot be built and on cycles among the surviving actions |
| Expansion.BuildGraph | pkg/action/graph.go:107-170 | both sections expanded and ordered, each in the one order `RunningOrder.OrderUnique` speaks of; succeeds exactly when all arrays and inputs of both can be built and neither is cyclic after expansion |
| Filter.Collector.Collect | pkg/action/filter.go:40-54 | the recursive closure adds exactly what the name reaches and keeps the marked set closed |
| Filter.CollectAll | pkg/action/filter.go:98-116 | the marked names are exactly those reachable by dependsOn from the roots |
| Filter.FilterWorkflowActions | pkg/action/filter.go:20-129 | the kept actions are exactly the ones reachable from the resolved targets, or from the non-explicit actions when none are given; an unknown target is reported |
| Filter.BuildAliasMap | pkg/action/filter.go:72-78 | an alias maps to an action that declares it |
| Filter.AllNeeded | pkg/action/filter.go:29-38 | returning early when nothing is explicit is the same as filtering |
| Filter.KeptLevel | pkg/action/filter.go:98-128 | every kept action keeps its phase index |
| Filter.FilterIdempotent | pkg/action/filter.go:20-129 | filtering a filtered workflow by the same targets changes nothing |
| ActionContext.Context.MarkAllSkipped | pkg/action/executor.go:451-461 | marking the later phases changes their actions and no others |
| ActionContext.Context.MarkAllCancelled | pkg/action/executor.go:396-404 | marking a phase cancelled changes its actions and no others |
| Scheduler.StepInv | pkg/action/executor.go:394-467 | every enabled event of every goroutine, and a cancellation at any point, keeps the invariant of the run |
| Scheduler.RunInv | pkg/action/executor.go:309-639 | the invariant holds after any run |
| SchedulerEnds.EnterOutcome | pkg/action/executor.go:540-622 | entering a phase marks as dependency-failed exactly the actions one of whose direct dependencies failed or timed out, spawns exactly the others and changes no other result |
| SchedulerEnds.JoinOutcome | pkg/action/executor.go:411-463 | joining a phase changes nothing and goes on when its failed actions all continue; otherwise it leaves the section with exactly the later actions marked, as dependency-failed |
| SchedulerResults.StartsAfterDependencies | pkg/action/executor.go:540-639 | in every interleaving an action is only spawned, and runs, with each effective dependency Succeeded or Skipped |
| SchedulerResults.NeverRunTogether | pkg/action/graph.go:526-608 | two distinct actions that exclude each other never hold the semaphore together |
| SchedulerResults.ConcurrencyBounded | pkg/action/executor.go:579-586 | at most maxConcurrency actions run at once when it is set |
| SchedulerResults.AcquiresExactly | pkg/action/executor.go:579-586 | and a waiting action gets the semaphore exactly while fewer than maxConcurrency hold it, at any time when no limit is set |
| SchedulerResults.RestIsFinal | pkg/action/executor.go:642-946 | a result that is not Running is changed by no event |
| SchedulerResults.OneResult | pkg/action/executor.go:642-946 | over a whole run every action reaches at most one final result |
| SchedulerResults.PassedExactly | pkg/action/executor.go:417-463 | a joined phase is passed exactly when each failed action in it continues; the second look at the policies agrees with the first |
| SchedulerResults.CancelMarksOnePhase | pkg/action/executor.go:395-405 | cancellation between phases marks the phase at hand and leaves later ones without a result |
| SchedulerResults.FinishedRun | pkg/action/executor.go:1073-1088 | at the end of an uncancelled run every action has a final result (`SchedulerOutcomes.OutcomeExactly` says which); each section was passed or stopped at its first phase with a failure that does not continue, all later actions being skipped; the status is succeeded exactly when nothing failed or timed out, failed exactly when the main section stopped |
| SchedulerOutcomes.OutcomeExactly | pkg/action/executor.go:640-946 | over every run, whatever else happens in it: an action ends succeeded exactly if its provider succeeded in the run, failed with a text exactly if its provider failed or its preparation stopped with that text, timed out exactly if its provider did, and skipped by its condition or as up to date exactly if it was found so |
| SchedulerOutcomes.DependencySkipExactly | pkg/action/executor.go:417-463 | it ends dependency-failed exactly if a phase was entered after one of its direct dependencies had failed or timed out, or an earlier phase of its section was joined with a failure that does not continue |
| SchedulerOutcomes.CancelledExactly | pkg/action/executor.go:395-405 | it ends cancelled exactly if it gave up waiting for the semaphore or its phase was to be entered after a cancellation that reaches its section |
| SchedulerOutcomes.DetachedExactly | pkg/action/executor.go:347-361 | the finally section runs under its own context exactly if the run was cancelled before that section began |
| SchedulerOutcomes.FinallyAfterCancel | pkg/action/executor.go:347-361 | a run cancelled before its finally section, or never, brings every finally action to a final result of its own |
| SchedulerOutcomes.StatusExactly | pkg/action/executor.go:1073-1088 | the final status: cancelled exactly if the run was cancelled at any time, whatever failed; otherwise succeeded exactly if every action succeeded or was skipped, and failed exactly if a failure in the main section does not continue |
| SchedulerResults.FinallyAlwaysRuns | pkg/action/executor.go:347-361 | a run that ends uncancelled, or whose finally section runs under its own context, has a final result for every finally action, whatever happened in the main section |
| SchedulerResults.Progress | pkg/action/executor.go:394-639 | until the run is over some event other than a cancellation is possible: no deadlock |
| SchedulerResults.EveryEventCounts | pkg/action/executor.go:394-639 | every event but a cancellation lowers the lexicographic measure of stages, phases and steps left |
| SchedulerEnds.Completes | pkg/action/executor.go:309-639 | from wherever a run stands, further events other than a cancellation bring it to its end |
| SchedulerEnds.RunEnds | pkg/action/executor.go:395-405 | however a run ends, cancelled at any point or not, no result is Running, and the actions of a section with results are those of its phases up to some point: the last phase, or one marked cancelled as it was to be entered |
| SchedulerEnds.AnythingMayHappen | pkg/action/executor.go:640-946 | the rest is up to the surroundings: a run not done can be cancelled at any time, a waiting action in a cancelled stage can give up, one that holds the semaphore can start, be skipped or fail, one that was started can succeed, fail with any text or time out |
| SchedulerResults.GraphIsValidPlan | pkg/action/graph.go:107-170 | what graph building returns for a workflow with valid and distinct action names is a plan the scheduler theorems apply to |
| WorkflowRuns.StartsAfterInstances | pkg/action/executor.go:540-639 | from the workflow to its run: over the graph built from its sections, in every run, an instance of an action is spawned only when every instance its action refers to, as a whole or singly, has succeeded or been skipped |
| WorkflowRuns.ExcludingInstancesApart | pkg/action/graph.go:526-608 | and distinct instances of actions that exclude each other never run at the same time |
| WorkflowRuns.FinallyAfterMain | pkg/action/executor.go:309-361 | and while an instance of a finally action is spawned no main one is, and no main result is open |
| ForEachRun.NextInv | pkg/action/foreach.go:119-263 | every event of the spawning loop and of the goroutines keeps the invariant |
| ForEachRun.ReachableInv | pkg/action/foreach.go:146-229 | in every interleaving the holders of the semaphore stay within the limit, at most one abort error is sent, and every stored result is its own iteration's |
| ForEachRun.StoredStays | pkg/action/foreach.go:160-228 | a result a goroutine stored is never overwritten, although the loop goes on spawning after marking the rest |
| ForEachRun.LateIterations | pkg/action/foreach.go:266-313 | once the context has ended, an iteration without an outcome ends cancelled or, under a deadline, timed out |
| ForEachRun.SerialFailsOnce | pkg/action/foreach.go:216-227 | with one slot and onError fail at most one iteration fails |
| ForEachRun.OverResults | pkg/action/foreach.go:231-253 | at the end every index holds one terminal result with that index (`ForEachOutcomes.OutcomeExactly` says which); the context ended exactly if the caller's did or a failure aborted the run; the first error carries the text of the first failure by index |
| ForEachOutcomes.OutcomeExactly | pkg/action/foreach.go:266-313 | over every run to its end: iteration i has succeeded exactly if it came back without error in a live context, failed with a text exactly if it came back with that error in one, timed out exactly if it came back after the deadline, and is cancelled exactly if it came back after a cancellation or gave up waiting |
| ForEachOutcomes.ContextExactly | pkg/action/foreach.go:152-227 | the iterations' context is live until the caller's ends or a failure aborts the run; the first of these decides for good whether it is past its deadline or cancelled |
| ForEachOutcomes.AcquiresExactly | pkg/action/foreach.go:146-187 | a waiting iteration gets the semaphore exactly while fewer than the limit hold it, at any time without a limit |
| ForEachOutcomes.AnythingMayHappen | pkg/action/foreach.go:160-228 | the caller's context can end in either way at any time, a waiting iteration can give up once the iterations' context has ended, an executing one can come back without error or with any |
| ForEachRun.CountsAddUp | pkg/action/foreach.go:235-253 | succeeded, failed and cancelled iterations add up to the total |
| ForEachRun.Summarise | pkg/action/foreach.go:235-262 | the counts; the first error is the earliest failure by index that has a text; it is returned exactly under onError fail |
| ForEachRun.Progress | pkg/action/foreach.go:160-232 | until the run is over an event other than the caller's cancellation is possible |
| ForEachRun.EveryEventCounts | pkg/action/foreach.go:160-232 | every event uses up some of a bounded amount of work |
| Retry.ExecuteWithRetry | pkg/action/retry.go:197-253 | the calls and waits made, in order, for the number of attempts returned; every earlier attempt failed, was not the last one allowed (one without a configuration or with fewer than one) and met the retry condition; the outcome says why it stopped |
| Retry.AttemptsAreCalls | pkg/action/retry.go:194-253 | the returned number is the number of calls |
| Retry.DelaysNeverShrink | pkg/action/retry.go:45-95 | delays never decrease, exactly when the backoff is fixed or the initial delay is not negative |
| Retry.WaitsAreCapped | pkg/action/retry.go:92-95 | the total wait is at most the cap times the number of retries |
| Retry.ExponentialWaits | pkg/action/retry.go:76-85 | exponential waits sum to at most initial*(2^(attempts-1)-1) |
| Retry.ExponentialExact | pkg/action/retry.go:76-85 | and to exactly that while the cap is not reached |
| Retry.FixedWaits | pkg/action/retry.go:67-95 | each fixed wait is the initial delay, one second by default, cut at the cap, five minutes by default |
| Retry.LinearExact | pkg/action/retry.go:72-95 | linear waits sum to the initial delay times the triangular number of the retries while the cap is not reached |
| Memo.OncePerKey | pkg/call/memo.go:31-44 | in every interleaving each key is computed at most once and all callers of a key get the same answer, errors included |
| Memo.AnswerIsResult | pkg/call/memo.go:40-43 | and what a caller gets is what the function came back with for the caller's own key, in that very run |
| Memo.AnythingMayHappen | pkg/call/memo.go:31-44 | anybody can ask for any key at any time, and a computation can come back with any value or error |
| Memo.AnswerStays | pkg/call/memo.go:31-44 | a later attempt with a key gets the answer it has |
| Memo.WaitsForSomebody | pkg/call/memo.go:40-42 | a caller that has to wait waits for the one that computes its own key |
| LruCache.RemoveEntryExact | pkg/cache/ttlcache.go:200-205 | removing a stale element keeps map and list in bijection exactly when the key is gone or still maps to that element |
| LruCache.SetKeeps | pkg/cache/ttlcache.go:103-127 | Set keeps the weak and the strong invariant, eviction included |
| LruCache.EvictKeeps | pkg/cache/ttlcache.go:207-215 | evicting the last element of a list one too long restores the bound |
| LruCache.CleanKeysKeeps | pkg/cache/ttlcache.go:166-183 | dropping the expired entries of any set of keys keeps both invariants |
| LruCacheClass.LRUWithTTL.constructor | pkg/cache/ttlcache.go:54-64 | an empty cache; sizes that are not positive mean 1024 |
| LruCacheClass.LRUWithTTL.Get | pkg/cache/ttlcache.go:68-100 | the whole new state and the answer: missing, expired and removed, or promoted |
| LruCacheClass.LRUWithTTL.Set | pkg/cache/ttlcache.go:103-127 | the whole new state |
| LruCacheClass.LRUWithTTL.Delete | pkg/cache/ttlcache.go:130-139 | the whole new state |
| LruCacheClass.LRUWithTTL.Cleanup | pkg/cache/ttlcache.go:166-183 | whatever order the map is walked in, exactly the expired entries go |
| LruCacheClass.LRUWithTTL.EvictOldest | pkg/cache/ttlcache.go:207-215 | the whole new state |
| LruRecency.GetRefines | pkg/cache/ttlcache.go:68-100 | Get is the simple cache's Get: same answer, same recency order |
| LruRecency.SetRefines | pkg/cache/ttlcache.go:103-127 | Set is the simple cache's Set: to the front, cut at size |
| LruRecency.DeleteRefines | pkg/cache/ttlcache.go:130-139 | Delete removes the key from the recency order |
| LruRecency.CleanupRefines | pkg/cache/ttlcache.go:166-183 | cleanup removes the expired entries from the recency order |
| LruHistory.HistoryRefines | pkg/cache/ttlcache.go:68-215 | over every history of calls the cache is the recency-ordered sequence, with map and list in bijection and length within size |
| LruHistory.GetReturnsLastSet | pkg/cache/ttlcache.go:68-100 | what Get returns was stored last under the key and is not expired |
| LruHistory.EvictedOnlyWhenFull | pkg/cache/ttlcache.go:207-215 | an unexpired key is answered unless size distinct other keys were touched since it was last set or asked for |
| LruInterleaving.WeakAlways | pkg/cache/ttlcache.go:68-205 | with lock sections in any order every map value is a listed element carrying its key, and the length stays within size |
| LruInterleaving.StrongExactly | pkg/cache/ttlcache.go:200-205 | map and list stay in bijection all along a run exactly when no removal meets an element of its key other than the one it holds |
| LruInterleaving.AnswersAreCurrent | pkg/cache/ttlcache.go:68-100 | even then an answered Get returns the value last set when it looked, unexpired at that time |
| LruInterleaving.OvertakenLosesKey | pkg/cache/ttlcache.go:89-94 | a concrete run in which a freshly set key is lost and its element left on the list |
| LruLosses.FinishLosesExactly | pkg/cache/ttlcache.go:89-94 | finishing a Get takes some live key away exactly when it removes and the key it holds is live by then |
| LruLosses.HeldExactly | pkg/cache/ttlcache.go:68-215 | after any run of lock sections a key holds the entry last stored under it, unless a removal, an eviction, a Delete or a cleanup of its expired entry dropped it since |
| LruLosses.LiveLostExactly | pkg/cache/ttlcache.go:68-215 | a key whose last stored entry is unexpired is answered, except exactly after an eviction of it or a removal of it by a Get that had found an entry of it expired |
| LruLosses.InPlaceLosesKey | pkg/cache/ttlcache.go:107-114 | a concrete run in which a key refreshed in place is lost although map and list agree throughout |
| HandlerRegistry.NextInv | pkg/auth/registry.go:143-211 | every step of every caller, and any registration in between, keeps the invariant |
| HandlerRegistry.AtMostOneInFlight | pkg/auth/registry.go:161-211 | at most one fallback call per name is in flight |
| HandlerRegistry.NoLostWakeUp | pkg/auth/registry.go:167-191 | a waiter's channel is closed, or its maker closes it within four steps of its own |
| HandlerCalls.NeverOverwrites | pkg/auth/registry.go:201-208 | over any run that does not unregister or disable a name, its registered handler stays the same |
| HandlerCalls.RegisteredBySomebody | pkg/auth/registry.go:204-208 | a name found registered was registered by hand or stored by a resolution |
| HandlerAnswers.AnswerSettled | pkg/auth/registry.go:149-211 | over every run, what a caller is answered was settled by one of its own events since it asked: the handler registered when it looked, what its own fallback call gave, what was registered when it looked again, or nothing if its context ended or there is no fallback |
| HandlerAnswers.RegisteredExactly | pkg/auth/registry.go:201-208 | the handler under a name is the one provided last, by hand or by a caller that stored what its call gave when the name had none |
| HandlerAnswers.GotFromFallback | pkg/auth/registry.go:149-211 | what a caller is about to store is what its own fallback call came back with |
| HandlerAnswers.AnythingMayHappen | pkg/auth/registry.go:60-211 | any name can be asked for at any time, a waiting caller's context can end, a fallback call can come back with any handler or none, names can be registered, unregistered and disabled |
| HandlerCalls.RepeatHasCause | pkg/auth/registry.go:143-167 | a second call for a name follows a failed call, an unregistration of the name, or finds the name registered already: its lookup missed it and nobody is resolving it any more |
| HandlerCalls.AtMostOnceExactly | pkg/auth/registry.go:14-19 | in any run the documented "at most once per name" fails exactly when some call follows a failed one, or the unregistration of a resolved handler, or was overtaken by the resolution it missed |
| HandlerCalls.InvokedTwice | pkg/auth/registry.go:143-167 | a concrete run that invokes the fallback twice for one name though no call fails and nothing is unregistered |
| AuthorFuncs.DetectCycle | pkg/authorfuncs/validate.go:197-236 | nothing is reported exactly when the reference graph is acyclic; a report is a closed walk of real references that repeats only its first name |
| AuthorFuncs.CycleDetector.Visit | pkg/authorfuncs/validate.go:207-226 | the coloured visit terminates, and keeps its invariant or has found a cycle |
| AuthorFuncs.CyclePath | pkg/authorfuncs/validate.go:239-249 | the path printed starts where the name first occurs on the stack and ends with it |
| AuthorFuncs.FilterAuthorRefs | pkg/authorfuncs/validate.go:178-191 | the sorted calls that name declared functions, self-references included |
| AuthorFuncs.EvaluationTerminates | pkg/authorfuncs/authorfuncs.go:159-189 | in an acyclic library every call ends with no more nested calls than there are functions |
| AuthorFuncs.DeeperCall | pkg/authorfuncs/authorfuncs.go:159-189 | the result does not depend on the depth allowed |
| AuthorFuncs.ChainNeedsAll | pkg/authorfuncs/authorfuncs.go:159-189 | the bound is tight: a chain of functions needs as many nested calls as it has functions |
| AuthorFuncs.ValidateParams | pkg/authorfuncs/validate.go:122-165 | no problem is reported exactly for distinct, well-formed parameters with the required ones first |
| AuthorFuncs.BindArgs | pkg/authorfuncs/authorfuncs.go:194-218 | binding succeeds exactly when there are not too many arguments, no required one is missing and all coerce; parameter i then holds the coerced argument i or, where there is none, its coerced default; the error is that of the first parameter at fault |
| AuthorFuncs.CallExactly | pkg/authorfuncs/authorfuncs.go:159-189 | a call of a declared function answers an outcome exactly if its body, run on its arguments, ends with it after the answers to the calls it makes, each a call of its own; an undeclared one fails |
| AuthorFuncs.RequiredFirst | pkg/authorfuncs/validate.go:147-156 | with required parameters first, a call supplies all of them exactly when it has at least that many arguments |
| LocalTag.KindPlural | pkg/catalog/catalog.go:128-161 | the plural of a valid kind maps back to it, and only such plurals map to a kind |
| LocalTag.TagInjective | pkg/catalog/local_tag.go:70-86 | artifacts differing in kind, name, version or origin never share a tag |
| LocalTag.WriteRefSameTag | pkg/catalog/local_tag.go:29-34 | making the origin explicit changes neither the tag nor anything else, leaves remote references alone and completes the identity |
| RemoteReference.ParseRemoteReference | pkg/catalog/reference.go:217-278 | the loop over the path segments finds the first kind plural with a name after it, else takes the last segment as the name |
| RemoteReference.ParseInvertsPrint | pkg/catalog/reference.go:217-336 | parsing a printed reference gives it back exactly when no repository segment is a kind plural, for parts without separators |
| RemoteReference.RemoteTagParses | pkg/catalog/local_tag.go:70-86 | the local tag of a pulled artifact, read as a remote reference, gives registry, repository, kind, name and version, exactly when no repository segment is a kind plural; the colon of a port is no tag |
| RemoteReference.BuiltTagParses | pkg/catalog/local_tag.go:70-86 | the local tag of a built artifact reads as its kind, name and version without an origin |
| OciContent.FoundIsClosure | pkg/catalog/local.go:1534-1584 | marking finds the whole closure when nothing is missing |
| OciContent.FoundBelowClosure | pkg/catalog/local.go:1534-1584 | marking never marks anything outside the closure |
| OciContent.ExportIsClosure | pkg/catalog/local.go:1366-1412 | the export walk visits the same blobs as the marking walk, for properly typed descriptors |
| CatalogStore.PruneExact | pkg/catalog/local.go:1136-1245 | Prune keeps the tags, and of the blobs exactly those some tag reaches |
| CatalogStore.PruneTwice | pkg/catalog/local.go:1136-1245 | a second Prune changes nothing |
| CatalogStore.PublishKeeps | pkg/catalog/local.go:212-335 | publishing a root after all it reaches keeps the store valid and adds exactly that |
| CatalogStore.OthersKept | pkg/catalog/local.go:212-335 | a publication leaves every other tag's root and blobs as they were |
| CatalogStore.OthersKeptByDelete | pkg/catalog/local.go:830-849 | so does a deletion |
| CatalogStore.TaggedKeptByPrune | pkg/catalog/local.go:1136-1245 | Prune leaves every tag's root and blobs as they were |
| ArtifactBuilders.StorePublishable | pkg/catalog/local.go:249-318 | Store and StoreDedup push the manifest last, after everything it reaches |
| ArtifactBuilders.MultiPublishable | pkg/catalog/local_multiplatform.go:60-142 | StoreMultiPlatform pushes the index last, after every platform's blobs and manifest |
| ArtifactBuilders.PushesPublishable | pkg/catalog/index_builder.go:188-234 | whatever a manifest or index builder is given, its root is pushed last, after all it reaches |
| ArtifactBuilders.BuilderPublishable | pkg/catalog/manifest_builder.go:289-326 | a manifest builder pushes the manifest last, after its layers and config |
| CatalogOrder.StoreChildrenFirst | pkg/catalog/local.go:249-318 | in what Store and StoreDedup push, every manifest comes after everything it reaches, exactly when that holds of content, config and layers |
| CatalogOrder.ExtrasChildrenFirst | pkg/catalog/local.go:915-931 | and so exactly when the layers given are in order after the write's own parts |
| CatalogOrder.FreeInOrder | pkg/catalog/local.go:915-931 | layers that are not of a manifest or index type, or reference nothing, are in order anywhere |
| CatalogOrder.MultiChildrenFirst | pkg/catalog/local_multiplatform.go:60-142 | every platform manifest comes after its parts and the index after all of them |
| CatalogOrder.BuilderInOrder | pkg/catalog/manifest_builder.go:289-326 | a manifest builder's pushes are in order, after whatever is pushed before, exactly when its layers are |
| CatalogOrder.PushesChildrenFirst | pkg/catalog/index_builder.go:188-234 | in what either builder pushes, every manifest and index comes after all it reaches, exactly when each manifest builder's layers are in order after what is pushed before them |
| CatalogOrder.ManifestBeforePart | pkg/catalog/manifest_builder.go:289-326 | a builder given a manifest before its part does not push children first; given them the other way round it does |
| CatalogListed.InterruptedExactly | pkg/catalog/local.go:895-910 | wherever a write is interrupted every listed manifest is complete, exactly when each push that lists something finds everything it reaches stored |
| CatalogListed.EveryPrefixComplete | pkg/catalog/local.go:895-910 | wherever a write that pushes children first is interrupted, the store is valid and every listed manifest is complete |
| CatalogListed.PublishExactly | pkg/catalog/local.go:212-335 | a publication leaves every listed manifest complete exactly when what its pushes list is stored in the end |
| CatalogListed.PruneCompleteExactly | pkg/catalog/local.go:1136-1245 | Prune leaves every listed manifest complete exactly when whatever a listed manifest reached by some tag reaches is itself reached by some tag |
| CatalogListed.PruneOrderly | pkg/catalog/local.go:1136-1245 | so it does in particular when no tagged manifest holds a manifest as a part |
| ArtifactBuilders.EntriesShape | pkg/catalog/index_builder.go:114-162 | one index entry per platform, in chain order |
| ArtifactBuilders.PipelineOwnsIdentity | pkg/catalog/manifest_builder.go:194-201 | no metadata and no transformer changes the identity a blob carries or puts provenance into it; under every other key the blob carries what the transformer made of the metadata |
| LocalCatalog.Catalog.PushBlob | pkg/catalog/local.go:895-910 | the whole new store: a blob already there is left alone |
| LocalCatalog.Catalog.StoreContent | pkg/catalog/local.go:212-335 | without force, a write of a complete reference is refused exactly when its tag is taken, and any refusal changes nothing; otherwise exactly the artifact's blobs are added and the tag holds the new root |
| LocalCatalog.Catalog.StoreDedup | pkg/catalog/local.go:1594-1713 | the same for deduplicated layers |
| LocalCatalog.Catalog.StoreMultiPlatform | pkg/catalog/local_multiplatform.go:26-158 | the same for an image index; an invalid platform stops it at the first one, with the earlier platforms' binaries stored and untagged |
| LocalCatalog.Catalog.StoreInternalWith | pkg/catalog/local.go:1925-1957 | the same for builders, with the order of its error checks |
| CatalogSearch.ScanIsSearch | pkg/catalog/local.go:738-781 | a lookup over any listing of the tags considers exactly the tags whose annotations a search matches |
| CatalogSearch.LocatedMatches | pkg/catalog/local.go:853-886 | a complete reference designates its own tag or nothing, any other one the single tag whose annotations match it |
| CatalogAnswers.FitsRefExactly | pkg/catalog/local.go:738-781 | a lookup matches a tag exactly when the annotations its artifact is stored with agree with the reference: name, kind, version, digest and origin |
| CatalogAnswers.ExistsExactly | pkg/catalog/local.go:797-825 | a complete reference of explicit origin exists exactly if its own tag does; any other one exactly if some stored artifact's annotations agree with it |
| CatalogAnswers.RefusedExactly | pkg/catalog/local.go:212-226 | when a write is refused, and with which error: never with force; by its tag if its reference is complete; else by what the stored annotations say |
| CatalogAnswers.LocatedExactly | pkg/catalog/local.go:853-886 | what Delete finds, in every case, and that several agreeing artifacts are ambiguous |
| CatalogAnswers.InternalErrorExactly | pkg/catalog/local.go:1925-1957 | what a build is refused for, in order: its reference, a taken tag, what the builder finds |
| CatalogAnswers.StoreLayout | pkg/catalog/local.go:229-318 | the layers a Store writes: the content under its kind's media type, the bundle if there is one, the given layers that are not empty; and the identity in its configuration |
| CatalogAnswers.DedupLayout | pkg/catalog/local.go:1618-1650 | the layers a deduplicated Store writes: first the solution, then the bundle manifest, the small files, every file in order, the given layers; and the identity in configuration and tag |
| CatalogAnswers.NonEmptyExactly | pkg/catalog/local.go:915-931 | of the layers given exactly those that are not empty are kept, in their order |
| CatalogAnswers.StoreAnnotationsExactly | pkg/catalog/local.go:229-318 | what a Store's tag says, key by key: the reference and the time replace what the caller gave, an origin is added only where the caller gave none |
| CatalogAnswers.BuildAnnotationsExactly | pkg/catalog/artifact_annotations.go:65-78 | what a build's tag says, key by key: the identity, the canonical source exactly if the reference is remote, and of what the caller said whatever is not empty |
| CatalogAnswers.BuilderLayout | pkg/catalog/manifest_builder.go:289-326 | a manifest is built exactly for a valid reference and some layers; it has those layers, in order, and the builder's identity in its configuration |
| LocalCatalog.Catalog.SearchLocked | pkg/catalog/local.go:738-781 | the scan over all tags finds exactly those whose stored annotations match the query |
| LocalCatalog.Catalog.Delete | pkg/catalog/local.go:830-886 | removes exactly one tag, the reference's own or the single one whose stored annotations agree with it, or nothing, with the error of the location; no blob and no listed manifest goes |
| LocalCatalog.Catalog.MarkReferencedBlobs | pkg/catalog/local.go:1534-1584 | adds exactly what can be found from the descriptor |
| LocalCatalog.Catalog.Prune | pkg/catalog/local.go:1136-1245 | the loops compute the pruned store and report what was removed |
| LocalCatalog.Catalog.CollectBlobsForExport | pkg/catalog/local.go:1366-1412 | collects exactly the exported closure |
| LocalCatalog.Catalog.Save | pkg/catalog/local.go:1261-1362 | resolves name and version to a stored artifact, and the tar written reads back as that artifact's archive |
| LocalCatalog.Catalog.ReadArchive | pkg/catalog/oci_tar.go:102-149 | the reader's loop: a later file of one name wins |
| LocalCatalog.Catalog.Load | pkg/catalog/local.go:1428-1530 | without force it is refused exactly when the tag of the reference announced is taken; each refusal leaves the tags alone; success adds the archive's blobs and tags the first manifest of its index, and the catalog is then valid exactly when that manifest is complete; an archive without a version is stored before its nil version is met |
| Archive.ResolvedIsLatest | pkg/catalog/local.go:1261-1300 | what Save resolves to is stored and matches; without a version it is of highest precedence among the eligible solutions of that name |
| ArchiveAnswers.ResolvedExactly | pkg/catalog/local.go:1261-1300 | which solution Save takes, in every case: what is no version is refused; nothing is found exactly if no stored annotations agree with name and version, and the answer is ambiguous exactly if those that agree come from different origins; what is taken agrees, and without a version nothing that may be saved is above it |
| Archive.LoadExact | pkg/catalog/local.go:1485-1508 | loading keeps the catalog valid exactly when everything the artifact reaches is there |
| Archive.SaveLoad | pkg/catalog/local.go:1261-1530 | saving and loading into an empty catalog gives the same reference, the same root digest and exactly the closure's blobs, unchanged |
| Archive.SaveLoadSave | pkg/catalog/local.go:1261-1530 | saving what was loaded gives the same archive |
| Archive.ProvenanceReadsBack | pkg/catalog/artifact_annotations.go:65-78 | annotations stamped for a reference read back as that reference, and so as its tag |
| CatalogRuns.ChangesPublishable | pkg/catalog/local.go:212-335 | every operation that tags an artifact has pushed all of it first |
| CatalogRuns.SavedIsSound | pkg/catalog/local.go:1261-1530 | the archives Save writes are complete, as the runs below ask of the archives they load |
| CatalogRuns.RunKeeps | pkg/catalog/local.go:1136-1245 | any sequence of stores in all four ways, deletions, prunes and loads of complete archives keeps the store valid |
| CatalogListedRuns.ChangesChildrenFirst | pkg/catalog/local.go:212-335 | each way of writing pushes children first exactly when the layers given to it are in order; StoreMultiPlatform always, also when it stops |
| CatalogListedRuns.InterruptedWrite | pkg/catalog/local.go:895-910 | wherever a write is interrupted the store is valid and the tags are unchanged; every listed manifest is complete throughout exactly when each push finds what it lists ready, for which layers in order suffice |
| CatalogListedRuns.PerformListedExactly | pkg/catalog/local.go:1136-1245 | an operation leaves every listed manifest complete exactly when what a write lists is stored in the end, and a Prune spares what listed manifests reach |
| CatalogListedRuns.RunListedExactly | pkg/catalog/local.go:1136-1245 | over any sequence of operations every listed manifest is complete after each of them, exactly when each operation meets that condition where it happens |
| CatalogListedRuns.OrderedRunComplete | pkg/catalog/local.go:212-335 | without a Prune it suffices that the layers given are in order |
| CatalogListedRuns.LayerManifestLosesLayers | pkg/catalog/local.go:1534-1584 | for any two identities: build one, build the other with its manifest as a layer, delete the first, prune; everything listed is complete up to the Prune and not after it |
| CatalogListedRuns.RunOrderly | pkg/catalog/local.go:1136-1245 | with the Prune it suffices that no layer or archive given holds a manifest as a part |
| CatalogRuns.EverythingReachableIsStored | pkg/catalog/local.go:1534-1584 | after any operations on an empty catalog every tag resolves and everything it reaches is stored under its digest |
| CatalogRuns.UntouchedStays | pkg/catalog/local.go:830-849 | an artifact whose tag is not itself written or removed keeps its root and all its blobs over any run |
| CatalogRuns.OtherIdentityUntouched | pkg/catalog/local_tag.go:24-34 | writing one identity, in any of the four ways, never replaces the artifact of another |
| CatalogFetch.StoreThenFetch | pkg/catalog/local.go:338-368 | Fetch returns the content that was stored, and so does FetchByPlatform for every platform |
| CatalogFetch.StoredSolutionComesBack | pkg/catalog/local.go:229-318 | a stored solution gives back its content and its bundle; its tag carries its identity and an origin, its manifest no provenance |
| CatalogFetch.MatchPlatform | pkg/catalog/multiplatform.go:54-85 | the first entry for a well-formed platform |
| CatalogFetch.MultiThenFetch | pkg/catalog/local_multiplatform.go:163-246 | FetchByPlatform returns the first binary stored for the platform; its manifest carries the identity, the platform and that one layer |
| CatalogFetch.ManifestThenFetch | pkg/catalog/manifest_builder.go:289-326 | what a manifest builder stored is fetched, for every platform: its first layer, under a manifest with all its layers and its identity |
| CatalogFetch.IndexBuiltThenFetch | pkg/catalog/index_builder.go:114-234 | what an index builder stored for a platform is fetched: the first layer of the first manifest given for it, which carries the index's identity and that platform whatever its own builder said |
| CatalogFetch.StoredStaysFetchable | pkg/catalog/local_multiplatform.go:163-246 | and goes on returning it over any run that does not touch the tag |
| Semver.Precedence | pkg/catalog/artifact_query.go:13-27 | precedence of semantic versions (item 11 of Semantic Versioning 2.0.0) is a total order up to build metadata |
| ArtifactAnswers.PrecedenceRules | pkg/catalog/artifact_query.go:13-27 | the rules of that item, one by one: major, minor and patch numerically; a pre-release below its release; identifiers compared from the left, numbers numerically and below words, a longer list above its prefix |
| ArtifactLookup.NewerIsOrder | pkg/catalog/artifact_query.go:15-27 | the comparator, with missing versions last, is the strict weak order sorting needs |
| ArtifactLookup.SortByVersionDescSorts | pkg/catalog/artifact_query.go:15-27 | there is a sort by it |
| ArtifactLookup.CheckAmbiguity | pkg/catalog/artifact_query.go:31-50 | finds nothing exactly when all matches share one origin |
| ArtifactLookup.LatestCandidates | pkg/catalog/catalog.go:82-96 | the stable matches, or all when none is stable or pre-releases are wanted |
| ArtifactLookup.FindLocked | pkg/catalog/local.go:662-711 | the loop computes the lookup `ArtifactAnswers.FindExactly` characterises, with its order of checks |
| ArtifactAnswers.FitsMatches | pkg/catalog/artifact_query.go:205-318 | an artifact matches a query exactly when name and kind are those asked for, an exact version has the same precedence, a constraint holds, the digest is the one given, and the origin is the one selected |
| ArtifactAnswers.FindExactly | pkg/catalog/local.go:662-711 | the answer in every case, on the fields: malformed queries are refused; nothing is found exactly if nothing fits; a strict lookup succeeds exactly if one artifact fits, one with a source exactly if any does, one without exactly if all that fit share an origin; what is found fits, and nothing that may answer is above it |
| ArtifactLookup.LatestIsHighest | pkg/catalog/local.go:662-711 | a lookup for the latest version succeeds exactly when something matches and, with no source selector, all matches share an origin; it then returns a highest eligible one whatever the listing order and the sort's ties |
| ArtifactLookup.LocalSuccessOneOrigin | pkg/catalog/local.go:699-711 | any success without a source selector implies one origin |
| ArtifactLookup.CollectCandidates | pkg/catalog/remote_find.go:85-102 | the accepted versions, narrowed and sorted |
| ArtifactLookup.FindRemote | pkg/catalog/remote_find.go:34-67 | the first candidate whose resolution fails or has the digest asked for; sources not served never match |
| ArtifactAnswers.RemoteExactly | pkg/catalog/remote_find.go:34-122 | the answer of a served lookup: what some version that may be resolved resolves to, every one above it having another digest than the one asked for; or nothing found, all having another |
| ArtifactLookup.RemoteLatestIsHighest | pkg/catalog/remote_find.go:85-122 | for an open version it resolves a highest eligible version and nothing else |
| ArtifactLookup.LocalAndRemoteAgree | pkg/catalog/remote_find.go:85-122 | local and remote lookup of the latest version agree up to build metadata |

## Left out

- Providers, CEL, Go templates, JSON Schema, fingerprints: their outcomes are choices of event or given functions; the libraries are not part of this model.
- Scanning expressions and templates for `__actions` references: the references of an action are given as lists.
- Filter.FilterWorkflowActions: like the code it follows `dependsOn` only, so the phase statement `Filter.KeptLevel` is about workflows whose effective dependencies are `dependsOn`.
- Names.ParseIterationName: the index is a mathematical integer, where the code's wraps for very long digit strings.
- Nil action, parameter and function definitions: the maps and lists of the model hold values.
- Scheduler.RunInv: continue policies are fixed per action, where the code may evaluate an expression over the error; a policy that changes its answer between its two evaluations is not modelled. Recorded attempts and streamed output are not part of the machine.
- Scheduler.StepInv: errors recorded for failed actions are assumed to have a text; the code treats an empty text as no failure in its second look at the policies.
- Reuse of one executor for several runs without a reset, grace periods, progress callbacks and telemetry.
- ForEachRun.LateIterations: the two looks at the context in one iteration are one step; a context that ends between them acts as if it had ended just before or just after.
- Retry: integer overflow of delays, floating-point rounding of the exponential factor and jitter; delays are whole numbers.
- Retry.ExecuteWithRetry: a wait cut short by cancellation is not in the trace, so the bounds on waiting are about waits that were waited out.
- LruCache: list elements are numbers in allocation order instead of heap objects; the branches for elements of a foreign type cannot happen and are left out. Times are given to each call.
- HandlerRegistry: a fallback that asks for its own name waits for itself; that recursion is not modelled, nor is what a fallback registers apart from registrations as such.
- AuthorFuncs: the rendering of one template is taken to make finitely many calls; fingerprints, compilation errors of bodies and reserved names are left out.
- CatalogStore: the OCI store of the oras library is modelled by what it does to blobs, tags and the listed manifests; file and network errors, reloading of `index.json` and other processes are left out. Sizes and byte counts are left out, so nothing is said about the reclaimed bytes, which the code counts twice for orphan manifests.
- OciContent: a blob is modelled by what its bytes decode to; bytes that decode both as a layer and as a manifest are one or the other.
- ArtifactBuilders: builders are values; their setter methods, which only fill fields, and layers read from another store through an opener are left out.
- LocalCatalog.Catalog.StoreContent: the time is given. The source writes into the caller's annotation map; the model returns annotations in the descriptor instead.
- LocalCatalog.Catalog.Delete: that several tags match is one error; the list of candidates in its text is not modelled.
- LocalCatalog.Catalog.Load: blobs of an archive are stored in no fixed order, so of an archive some of whose data does not match its digest it is only said that the tags and the validity stay; which of its blobs were stored before the refusal is left open.
- CatalogRuns.RunKeeps: archives that are loaded are complete, as `CatalogRuns.SavedIsSound` shows of those Save writes; `Archive.LoadExact` says that others break validity. References that are stored have a version, which the code dereferences.
- Archive.SaveLoad: parsing of version texts and constraints and the text of a digest are given functions; the tar and JSON encodings are entries and values.
- RemoteReference.ParseInvertsPrint: references whose parts hold separators or surrounding white space are excluded, as the printed form cannot tell them apart.
- ArtifactLookup: a version constraint is the test it stands for; parsing of versions and constraints is not modelled. The sort is any function that sorts.
- Copying artifacts verbatim between stores, rebuilding pulled artifacts, the automatic caching of remote artifacts, remote registries, credentials and enumeration.
- Rendering, API server, middleware, profiles, login, pagination, index comparison and allowlists: thin wrappers or easy members.
