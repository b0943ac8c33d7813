# Home Assistant core, verified

A Dafny 4.11 model of the parts of Home Assistant core whose correctness is a matter of
algorithms and protocols rather than of I/O, with proofs of what they promise.

- **Start-up.** The dependency search of the loader (`Loader`, `SearchOrder`), the shared
  integration cache that many calls fill at once (`Fetch`, `FetchRuns`, `FetchAnswers`,
  `FetchCache`), the worklists of the bootstrap (`Bootstrap`), the requirements manager, as a
  recursion of one task and as a protocol of many (`Requirements`, `RequirementsTasks`,
  `RequirementsResults`), and the setup protocol, in which the tasks of all domains wait for each
  other's futures (`Setup`, `SetupRuns`, `SetupOutcomes`, `SetupProgress`, `SetupTermination`,
  `SetupDeadlocks`, `SetupTasks`).
- **Stores whose indexes, time stamps and timers must agree with something simpler.** The state
  machine and the events it fires (`StateHistory`, `StateMachines`), the auth store with its
  migrations and the expiry timer of refresh tokens (`Dicts`, `AuthModel`, `AuthRoundTrip`,
  `AuthMigration`, `AuthLoaded`, `AuthTokens`, `AuthStores`, `AuthManagers`), the flow manager (`Indexes`,
  `Flows`), the life of a config entry and the two indexes over entries (`EntryLifecycle`,
  `ConfigEntries`, `EntryItems`), and the collections that share an id manager
  (`CollectionIds`, `CollectionChanges`, `Collections`).
- **Pure meaning.** The condition tree (`Conditions`) and the merge of packages into the
  configuration (`Packages`, `PackageMerge`). `Graphs`, `Sets` and `Options` are shared.

## How it is modelled

The integrations that can be found are a fixed finite map from domains to manifests
(`Loader.Repository`). An `await` that can really suspend ends a step; what runs between two of
them is one atomic step. So a protocol is a state, a set of steps with their guards, and a
function that applies a step; a run is any sequence of enabled steps, and with it any
interleaving of tasks. Beside each such state machine but `RequirementsTasks` stands a class with
the fields that the source has, whose methods are the stretches of code between suspensions and
are proved to be exactly those steps. Futures are pending or done, fresh ids are new to the tables
they go into, and the clock never runs backwards.

Where the code does something other than its comments, documentation or callers suggest, the
code is kept and the exact condition is proved:

- The setup protocol can deadlock. With domains announced at any time, as the code allows, it
  can if and only if some integration that resolves names an after-dependency that is not a
  dependency (`SetupDeadlocks.DeadlockIffAfterDependency`): a domain that is announced again, or
  after its set-up is over, gets a future that nobody completes. With only fresh domains
  announced it can if and only if dependencies and after-dependencies of the domains that
  resolve form a cycle (`SetupDeadlocks.FreshDeadlockIffCycle`), which the dependency check does
  not rule out. A future announced for a domain that is not being set up can be completed if and
  only if its set-up was not tried before (`SetupDeadlocks.AnnouncedCompletesIffNotTried`).
- Concurrent calls of the requirements manager can wait for each other forever if and only if
  what integrations need, other than themselves, forms a cycle of integrations whose own
  requirements can be installed (`RequirementsTasks.DeadlockIffCycle`). A call that succeeds has
  installed everything that the domain transitively needs if and only if all of that has a
  manifest and can be installed (`Requirements.RequirementsManager.Get`); a failed call can leave
  an integration in the cache of which this is not true (`Requirements.FailedCallLeavesGap`).
- A caller of `resolve_dependencies` gets a wrong verdict if and only if the domain resolves and
  another caller is still in the search (`Loader.ResolvableIntegration.BeginResolving`).
- Whether a single domain passes the dependency check can depend on the order in which manifests
  come back (`Loader.VerdictOfRootAloneDependsOnOrder`). It passes in every order if and only if
  it and all its transitive dependencies are free of defects
  (`Loader.EveryOrderResolvesIffSane`, `Loader.AllResolveIffSane`), and in a given order if and
  only if no first walk from it ends at a flaw (`SearchOrder.ResolvesIffFirstWalksFlawless`).
- A call of `async_get_integrations` that lists an uncached domain twice waits for itself
  forever, and only such a call does (`FetchRuns.SelfWaitIffRepeated`). A waiter gets a pending
  future as its answer if and only if the domain is being loaded again
  (`FetchRuns.UnfinishedIffRequestedAgain`), which happens (`FetchRuns.UnfinishedOccurs`).
- An unload of a config entry is safe to request if and only if no other one is under way, or
  the entry is not loaded and waits for no retry
  (`EntryLifecycle.UnloadRequestSafeIffHarmless`): otherwise two set-ups can end up in flight. A
  failed migration and a failed unload are kept from then on under the same condition
  (`EntryLifecycle.FinalKeptIffHarmless`). An entry is stuck in progress for good if and only if
  no set-up is in flight any more (`EntryLifecycle.InProgressForGoodIffNoneInFlight`), which a
  set-up whose clean-up raises brings about (`EntryLifecycle.CrashIsReachable`).
- The index over unique ids loses an entry that is added before the one it replaces is removed
  (`EntryItems.ReplacementIsLost`). An added entry keeps the indexes exact if and only if its
  unique id is not taken in its domain (`EntryItems.IndexExact`).
- The comment that a client name can have only one long-lived token holds if and only if the name
  is not empty (`AuthManagers.SecondRequestRefusedIffNamed`).
- Expired tokens are removed by their id, at the first user that has one of this id. That removes
  exactly the expired tokens if and only if no live token shares its id with an expired one of a
  later user (`AuthTokens.RevokeExpiredExactIff`, `AuthTokens.AlwaysExactIffOrdered`); otherwise
  an expired one stays, in whose place a live one is lost (`AuthManagers.LiveTokenLost`). Loaded
  token ids are distinct across users if and only if the data give none to two of them
  (`AuthStores.LoadedDistinctIffOwnersAgree`).
- Loading a collection from storage, and finishing an update of an item that was deleted
  meanwhile, do not look for clashes of ids: the collections stay disjoint if and only if no
  other collection uses a stored id, or that of the item
  (`Collections.StorageCollection.AsyncLoad`, `Collections.StorageCollection.UpdateReturned`).
- The merge of packages can stay silent about a clash that it met
  (`PackageMerge.ClashUnreported`); it does if and only if every clash is off the spine of the
  package, the path of last non-empty dictionaries (`PackageMerge.SilentIffNoClashOnSpine`).

## Model

| member | source | states |
|---|---|---|
| Loader.SearchSound | homeassistant/loader.py:1582-1623 | A search that succeeds returns exactly the domains reachable along dependencies; all have a manifest, none lies on a dependency cycle, and no transitive dependency names the root as an after-dependency |
| Loader.SearchFailureIsReal | homeassistant/loader.py:1582-1623 | A search that fails points at a reachable domain without manifest, or at a real cycle through dependencies closed by a dependency or after-dependency |
| Loader.SaneResolves | homeassistant/loader.py:1582-1623 | A domain below which nothing is missing, cyclic or names what depends on it as an after-dependency passes the search |
| Loader.AllResolveIffSane | homeassistant/loader.py:1582-1623 | A domain and all its transitive dependencies pass if and only if the domain is free of these defects; the condition mentions neither order nor memo |
| Loader.VerdictIgnoresOrder | homeassistant/loader.py:1595-1597 | Reordering the manifests' dependency lists does not change whether a domain and all its dependencies pass |
| Loader.VerdictOfRootAloneDependsOnOrder | homeassistant/loader.py:1606-1611 | Two repositories that differ only in the order of one list give the root different verdicts, because a memoised domain is not walked again |
| Loader.EveryOrderResolvesIffSane | homeassistant/loader.py:1582-1623 | The root itself passes the search in every order of its manifests if and only if it is free of defects |
| SearchOrder.ResolvesIffFirstWalksFlawless | homeassistant/loader.py:1582-1623 | For manifests in a given order: a domain passes if and only if no walk along dependencies that takes the first turn towards its end everywhere ends at a domain with a dependency that is missing, lies on the walk, or names a domain of the walk as an after-dependency |
| SearchOrder.FailureIsAtFirstWalk | homeassistant/loader.py:1598-1617 | What a failed search raises is the error at such a flaw: a missing manifest before a conflict with the domains on the walk, and that before a dependency on the walk |
| SearchOrder.ResolvedHasNoDirectConflict | homeassistant/loader.py:1603-1611 | A search that succeeds has tested every dependency, also one it has walked before: none below the root names its dependent as an after-dependency |
| Loader.DependencySearch.ComponentDependencies | homeassistant/loader.py:1582-1623 | The recursion over the `loading` and `loaded` sets computes the search exactly, raises what it raises, restores `loading` and terminates |
| Loader.ResolvableIntegration.ResolveDependencies | homeassistant/loader.py:911-940 | Memoises the verdict of the search, which a `ValueError` leaves at the preliminary false; after success `all_dependencies` is exactly what is reachable along at least one dependency; the answer is wrong if and only if the domain resolves and another caller is in the search |
| Loader.ResolvableIntegration.BeginResolving | homeassistant/loader.py:913-916 | A caller either starts the search or gets the stored verdict, which is wrong if and only if it is the preliminary one of a domain that resolves |
| Loader.ResolvableIntegration.EndResolving | homeassistant/loader.py:917-940 | After the search the stored verdict is right, whatever was raised |
| Loader.AllDependenciesExact | homeassistant/loader.py:936-940 | The loaded set without the root is the set of transitive dependencies, cycles excluded |
| FetchRuns.ReturnedCallIsComplete | homeassistant/loader.py:1327-1397 | In every interleaving a call that has returned has an answer for exactly the domains asked for, and every integration among them is the cached one |
| FetchRuns.StepKeepsFutures | homeassistant/loader.py:1346-1397 | Futures are never forgotten or reopened, and each is completed only by a step of the call that made it |
| FetchRuns.CachedIntegrationNeverChanges | homeassistant/loader.py:1338-1397 | In every run a cached integration stays the same |
| FetchRuns.UnfinishedIffRequestedAgain | homeassistant/loader.py:1348-1358 | A waiter that wakes up gets a pending future as its answer if and only if the domain is being loaded again; that future was made after the awaited one |
| FetchRuns.UnfinishedOccurs | homeassistant/loader.py:1348-1358 | For every plain domain a run leads to a waiter that gets a pending future |
| FetchAnswers.EnterAnswers | homeassistant/loader.py:1334-1346 | A new call answers exactly the cached domains, with the cached integration, and the invalid ones, with the error; needs exactly those that are neither; awaits those that are loading; and returns at once if and only if all are answered |
| FetchAnswers.AtHandIsAnswered | homeassistant/loader.py:1338-1344 | In every run a domain that is cached when a call asks for it is answered with the cached integration, for good |
| FetchAnswers.NeededIsAnswered | homeassistant/loader.py:1363-1397 | When a call has returned, a domain it had to load is answered with the custom integration if there is one, else with the one that was read, and is missing if and only if neither was there |
| FetchAnswers.WaitedIsAnswered | homeassistant/loader.py:1348-1358 | A domain that another call was loading is answered with what was in the cache when the call woke up: missing if and only if it was not there |
| FetchAnswers.AnswerIsFinal | homeassistant/loader.py:1327-1397 | An answer never changes again |
| FetchAnswers.WakeAnswers | homeassistant/loader.py:1348-1361 | All awaited domains are read again, and the call goes on to the custom integrations if it needs any |
| FetchAnswers.CustomFound | homeassistant/loader.py:1367-1374 | A needed domain that is a custom integration is answered, cached and completed |
| FetchAnswers.CustomMissed | homeassistant/loader.py:1367-1382 | Any other stays needed, pending and in the cache as a future, and sends the call on to the root |
| FetchAnswers.RootAnswers | homeassistant/loader.py:1384-1397 | Then every needed domain is answered and completed: found and cached if it was read, else missing and out of the cache |
| FetchRuns.SelfWaitIffRepeated | homeassistant/loader.py:1338-1349 | A new call waits for its own future if and only if it lists a plain uncached domain twice |
| FetchRuns.SelfWaitIsForever | homeassistant/loader.py:1348-1349 | In every run that follows such a call is still waiting for itself |
| FetchRuns.CleanRunWaitsEarlier | homeassistant/loader.py:1348-1349 | In runs without such calls every call waits only for calls that classified their domains strictly earlier |
| FetchRuns.CleanRunsNeverBlock | homeassistant/loader.py:1327-1397 | So there is no wait cycle: while a call is active, some call can take a step |
| Fetch.StepInv | homeassistant/loader.py:1327-1397 | Every step keeps the invariant that ties cache, futures and the local tables of all suspended calls together |
| Fetch.EnteredInv | homeassistant/loader.py:1338-1346 | The classification loop needs exactly the plain uncached domains, waits exactly for domains loading elsewhere or listed twice, and registers one future per needed domain |
| FetchCache.IntegrationCache.AsyncGetIntegrations | homeassistant/loader.py:1327-1346 | The loop over the requested domains is the entering step |
| FetchCache.IntegrationCache.FuturesDone | homeassistant/loader.py:1348-1361 | The loop that reads the cache again is the waking step |
| FetchCache.IntegrationCache.CustomComponentsLoaded | homeassistant/loader.py:1363-1374 | The loops over custom integrations store, answer and complete exactly the needed domains found there, and keep the rest needed |
| FetchCache.IntegrationCache.RootComponentsLoaded | homeassistant/loader.py:1376-1397 | The loop over the remaining domains caches what was found, drops and reports what was not, and completes every future |
| Bootstrap.ResolveDomainsToSetup | homeassistant/bootstrap.py:736-846 | The worklist terminates for all manifests; it raises if and only if a reachable integration does not resolve; otherwise the result is the least closed set of domains, and the cache holds exactly what is reachable along dependencies and after-dependencies |
| Bootstrap.RoundAdvances | homeassistant/bootstrap.py:778-846 | Every round keeps the invariant and decreases the lexicographic measure |
| Bootstrap.RunRound | homeassistant/bootstrap.py:779-846 | What one round reads, caches, requests and adds |
| Bootstrap.FinishedWork | homeassistant/bootstrap.py:778-846 | When nothing is left to do, the domains are exactly those reachable from the configured ones |
| Bootstrap.PromoteStageOne | homeassistant/bootstrap.py:914-932 | Stage one is closed under `all_dependencies` and holds only domains reachable from stage one integrations that are to be set up |
| Bootstrap.Partition | homeassistant/bootstrap.py:910-938 | The pre-stage groups, stage one and stage two cover the domains, and stage two has nothing that an earlier stage sets up |
| Bootstrap.SetUpStages | homeassistant/bootstrap.py:910-938 | No stage one domain depends, directly or not, on a domain outside stage one, and stage one is exactly what its original members reach |
| Requirements.RequirementsManager.Get | homeassistant/requirements.py:138-251 | A call always returns and never awaits a future held by its own call stack; it succeeds for every domain all of whose transitive needs have a manifest and can be installed, missing after-dependencies of custom integrations aside, and exactly for these a success means that they are installed; a success from a complete cache implies it; an uninstallable need to check fails it, a missing one too unless it is excused; what a failed call caches needs only domains cached or visited |
| Requirements.RequirementsManager.ServableIffNeeds | homeassistant/requirements.py:188-251 | A domain can be served if and only if its own requirements can be installed and all it needs can be served, or is a missing after-dependency of a custom integration |
| Requirements.NeedsExactly | homeassistant/requirements.py:199-226 | What an integration needs: dependencies, after-dependencies, and the integrations of the discovery protocols in its manifest |
| Requirements.FailedCallLeavesGap | homeassistant/requirements.py:171-186 | Two integrations that name each other as after-dependencies: after a failed call for one the other is cached although what it needs is not installed |
| Requirements.RequirementsManager.GetWithRequirements | homeassistant/requirements.py:138-186 | The recursion terminates even when dependencies and after-dependencies form cycles, leaves exactly the futures of its callers pending, and caches what it finished |
| Requirements.RequirementsManager.ProcessIntegration | homeassistant/requirements.py:188-251 | Own requirements first, then dependencies, after-dependencies and discovery integrations; when all that is needed can be installed, nothing is raised and all of it is cached |
| Requirements.RequirementsManager.CheckNeeds | homeassistant/requirements.py:230-251 | Every domain to check is visited even if one fails; an error is raised if one cannot be installed or has no plain name; nothing is raised if all can be served or are missing after-dependencies of a custom integration; any other missing domain is not passed over |
| Requirements.RequirementsManager.ProcessRequirements | homeassistant/requirements.py:253-318 | What is installed and what is remembered as failed afterwards; success means that all requirements that are not skipped are installed; one that has failed before is not tried again |
| RequirementsTasks.StepInv | homeassistant/requirements.py:138-251 | Every step of every task keeps the invariant over cache, futures and call stacks: each pending future is in the cache and held by one call of its task |
| RequirementsTasks.DeadlockIffCycle | homeassistant/requirements.py:158-186 | Calls of different tasks can wait for each other forever if and only if what integrations need, other than themselves, forms a cycle of integrations whose own requirements can be installed |
| RequirementsTasks.DeadlockLastsForever | homeassistant/requirements.py:163-170 | No run releases such tasks |
| RequirementsTasks.NoCycleNeverBlocks | homeassistant/requirements.py:138-251 | Without such a cycle some task can go on as long as any is not finished |
| RequirementsResults.ServableIsServed | homeassistant/requirements.py:138-251 | In every interleaving a call for a domain whose needs have manifests and can be installed succeeds and leaves it cached, one for a domain without a manifest does not, and only integrations with installed requirements are cached |
| RequirementsResults.InstalledGoesOn | homeassistant/requirements.py:188-227 | A call whose own requirements cannot be installed ends with an error; any other checks what it needs, but for what was visited or is cached |
| RequirementsResults.WokenResult | homeassistant/requirements.py:161-171 | A call that has waited returns what is in the cache, or reports the domain as missing |
| RequirementsResults.ExceptionsAreCollected | homeassistant/requirements.py:234-248 | A call collects the exceptions of nested calls, except for missing after-dependencies of a custom integration, and goes on |
| RequirementsResults.CallEnds | homeassistant/requirements.py:173-186 | It ends with an error if any was raised, else with the first missing domain, else well; its future is done, and its integration stays in the cache only if it ends well |
| Setup.StepInv | homeassistant/setup.py:141-253 | Every step of every task keeps the invariant over components, futures, tasks and waits |
| SetupRuns.LoadedIsClosedAndOrdered | homeassistant/setup.py:256-460 | In every run a setup body starts at most once per domain, the loaded components are closed under dependencies, and they were added in a topological order |
| SetupRuns.StepKeepsDone | homeassistant/setup.py:162-187 | A step completes only pending futures, loaded stays loaded and failed stays failed |
| SetupRuns.AnswerIsFinal | homeassistant/setup.py:146-187 | Once a call would be answered without waiting, by success, failure or an exception, every later call in every continuation gets that answer |
| SetupRuns.OneSetupFuturePerDomain | homeassistant/setup.py:157-161 | In every run at most one setup future is made for a domain |
| SetupRuns.WaitCycleNeedsTwoAfterEdges | homeassistant/setup.py:190-253 | Every cycle of waits in a reachable state uses at least two after-dependency waits, except that of a domain which lists itself |
| SetupOutcomes.WakeFailsIffDependencyMissing | homeassistant/setup.py:238-253 | A domain that has waited fails if and only if a dependency is not loaded, whatever became of its after-dependencies; otherwise its requirements come next |
| SetupOutcomes.TaskEndsIff | homeassistant/setup.py:256-460 | Which steps end a task, and with which result |
| SetupOutcomes.EndsTask | homeassistant/setup.py:162-187 | The result goes into both futures of the domain, for everybody who waits |
| SetupOutcomes.FailureHasCause | homeassistant/setup.py:256-460 | In every run a domain that has failed had a step of its own fail or raise, or has a failed dependency |
| SetupOutcomes.LoadedWentThroughAll | homeassistant/setup.py:256-460 | In every run a domain is loaded if and only if its setup function has returned true, which starts exactly when it is imported; by then its dependencies have resolved, and its requirements were installed, by itself or for a platform |
| SetupOutcomes.FetchedGoesOn | homeassistant/setup.py:529-549 | A domain whose requirements are installed already is imported next, any other collects all its dependencies |
| SetupOutcomes.CollectAwaits | homeassistant/setup.py:213-236 | Exactly the announced, unloaded after-dependencies that are not awaited as dependencies are awaited; with nothing to await the requirements come next |
| SetupOutcomes.AfterDependencyComesFirst | homeassistant/setup.py:213-241 | In every run an awaited after-dependency holds the domain up until its future is done, unless an exception ends the wait |
| SetupProgress.StuckMeansAfterDependencies | homeassistant/setup.py:190-253 | When tasks are left and none can move, a domain waits for an after-dependency nobody sets up, for itself, or on a cycle with two different after-dependency waits |
| SetupProgress.FewAfterWaitsProgress | homeassistant/setup.py:213-236 | With at most one after-dependency wait, on another domain that is being set up, some task can always move |
| SetupProgress.DeadlockIsPermanent | homeassistant/setup.py:162-187 | A set of tasks that wait for each other or for abandoned futures, and for nothing that could raise, is not released by any step |
| SetupProgress.DeadlockLastsForever | homeassistant/setup.py:162-187 | It is not released by any run either |
| SetupTermination.InternalRunsAreFinite | homeassistant/setup.py:256-460 | Without new calls the length of every run is bounded by the work left in its first state |
| SetupDeadlocks.DeadlockIffAfterDependency | homeassistant/setup.py:121-253 | With domains announced at any time a deadlock can be reached if and only if a domain that resolves names an after-dependency that is not a dependency |
| SetupDeadlocks.FreshDeadlockIffCycle | homeassistant/setup.py:121-253 | With only domains announced that are not announced, registered or loaded, a deadlock can be reached if and only if dependencies and after-dependencies of the domains that resolve form a cycle |
| SetupDeadlocks.MutualAfterDependenciesDeadlock | homeassistant/setup.py:213-236 | The instance of two integrations that name each other as after-dependencies: they pass the check and can deadlock, also when announced only once |
| SetupDeadlocks.AnnouncingFailedDomainDeadlocks | homeassistant/setup.py:121-131 | The instance of a single after-dependency: it can deadlock, but not with fresh announcements |
| SetupDeadlocks.AnnouncedCompletesIffNotTried | homeassistant/setup.py:121-187 | The future announced for a domain that is not being set up is completed in some run if and only if the domain is neither loaded nor has failed before |
| SetupTasks.SetupData.AsyncSetDomainsToBeLoaded | homeassistant/setup.py:121-131 | Each announced domain gets a new future, also one that is loaded or has failed |
| SetupTasks.SetupData.AsyncSetupComponent | homeassistant/setup.py:141-161 | The answer at hand, the future to wait for, or a new task with its future |
| SetupTasks.SetupData.Finish | homeassistant/setup.py:162-187 | Completes both futures of the domain with the result or the exception, and drops what the source drops |
| SetupTasks.SetupData.CollectDependency | homeassistant/setup.py:202-211 | A dependency that is not loaded is waited for, after starting its task if it has none |
| SetupTasks.SetupData.CollectAfterDependencies | homeassistant/setup.py:213-225 | Exactly the after-dependencies that are announced, not loaded and not waited for already are awaited |
| SetupTasks.SetupData.DependenciesDone | homeassistant/setup.py:238-253 | When nothing awaited has raised, a failed dependency fails the domain, a failed after-dependency does not |
| SetupTasks.SetupData.AwaitedFutureRaises | homeassistant/setup.py:238-241 | An exception in any awaited future, also that of an after-dependency, ends the domain's set-up without waiting for the others |
| SetupTasks.SetupData.ExceptionLeaves | homeassistant/setup.py:167-187 | An exception that leaves the set-up of a domain goes into both its futures, also after the domain was added to the components |
| SetupTasks.SetupData.SetupReturned | homeassistant/setup.py:437-439 | The domain counts as loaded from the moment its setup has returned true |
| StateMachines.StateMachine.AsyncSet | homeassistant/core.py:2085-2182 | What is stored, fired and recorded for every combination of new, changed, unchanged, forced and invalid states; which of the three time stamps move; keeps the invariant that replaying all events from the empty map gives the states, that each event names the state stored just before it, that the domain index is the exact partition, and that all time stamps are right |
| StateMachines.StateMachine.AsyncRemove | homeassistant/core.py:2011-2034 | Removes the state and the reservation under the lower-case id, fires one event, and keeps the same invariant |
| StateMachines.StateMachine.AsyncReserve | homeassistant/core.py:2059-2082 | Refused exactly when the id is not available; afterwards it is not, in any spelling, and nothing else has changed |
| StateMachines.StateMachine.AsyncEntityIds | homeassistant/core.py:1923-1939 | Without a filter, for one domain and for several domains every stored id is listed as often as a scan over states and filter meets it |
| StateMachines.StateMachine.Get | homeassistant/core.py:1984-1991 | A stored state is found under every spelling of its id |
| StateMachines.DomainIsFirstPart | homeassistant/core.py:189-194 | The domain of an id is the text before its first dot, or all of it |
| StateMachines.MatchesIffWellSpelled | homeassistant/core.py:197-215 | The ids that match the pattern are those of small letters, digits, one dot, and underscores between two letters or digits, with the dot between two of them as well |
| StateMachines.LowerExact | homeassistant/core.py:1989-1991 | Exactly the capital letters change, to the small ones |
| StateMachines.StreamAppend | homeassistant/core.py:2140-2182 | One more event that names the stored state keeps the stream replayable and chained |
| StateMachines.IndexPut | homeassistant/core.py:1874-1877 | Storing a state keeps the index the exact partition by domain |
| StateMachines.IndexDrop | homeassistant/core.py:1879-1883 | Deleting a state keeps the index the exact partition by domain |
| StateMachines.StateMachine.TimesOrdered | homeassistant/core.py:1655-1663 | For every stored state last_changed <= last_updated <= last_reported |
| StateHistory.TimesAreOrdered | homeassistant/core.py:2110-2182 | Over any history with a clock that does not run backwards, the times of the last change, update and report are in order |
| StateHistory.NextIsStamped | homeassistant/core.py:2110-2182 | The record stored by a set carries the times of the last value change or forced set, of the last value or attribute change or forced set, and of the last set since creation |
| AuthRoundTrip.LoadAfterSave | homeassistant/auth/auth_store.py:280-563 | Loading what was saved gives the store back, except that missing expiries of normal tokens are filled in and dangling credential links are dropped |
| AuthRoundTrip.RoundTripIffSettled | homeassistant/auth/auth_store.py:280-563 | A store survives saving and loading unchanged if and only if its normal tokens carry an expiry and its token credentials still exist |
| AuthMigration.LoadedIsSettled | homeassistant/auth/auth_store.py:280-483 | Whatever loads is keyed by id, has the three system groups, keeps its references inside the store, and every normal token carries an expiry |
| AuthMigration.LoadIsNormaliser | homeassistant/auth/auth_store.py:280-563 | For all data that loads, saving and loading again, at any time, gives the same store and the same data |
| AuthMigration.CredentialsLoad | homeassistant/auth/auth_store.py:409-418 | Every stored credential ends up with its user, and none is lost afterwards |
| AuthLoaded.LoadedExactly | homeassistant/auth/auth_store.py:280-483 | Every user, group, credential and token of the loaded store, field by field, in terms of the last stored item of its id, with all that is filled in for old data; and that nothing else is loaded |
| AuthLoaded.WhoMigrates | homeassistant/auth/auth_store.py:360-371 | Everybody but system users becomes an administrator if and only if no groups are stored, and the members of a group do if and only if it is the last of nothing but groups without a policy |
| AuthLoaded.OldUsersBecomeAdministrators | homeassistant/auth/auth_store.py:384-396 | From data without groups every user but those of the system is loaded as an administrator, and nobody leaves a group |
| AuthLoaded.LoadRaisesIff | homeassistant/auth/auth_store.py:384-477 | Data are refused if and only if a user is in a group that is neither stored nor moved, a credential or token belongs to nobody, or a token has an unknown type |
| AuthStores.AuthStore.AsyncLoad | homeassistant/auth/auth_store.py:280-483 | The loading loops compute the specified load; a failed load changes nothing but the loaded flag; a successful one leaves a settled store, with token ids distinct across users if and only if the data give none to two of them |
| AuthStores.AuthStore.LoadGroups | homeassistant/auth/auth_store.py:317-358 | The loop over groups, with the system groups and the group without policy |
| AuthStores.AuthStore.LoadUsers | homeassistant/auth/auth_store.py:384-407 | The loop over users, with both migrations to the admin group; an unknown group raises |
| AuthStores.AuthStore.LoadTokens | homeassistant/auth/auth_store.py:420-477 | The loop over refresh tokens, with what is skipped, filled in and raised |
| AuthStores.AuthStore.RemoveRefreshToken | homeassistant/auth/auth_store.py:227-232 | The first user that has a token of this id loses it; no user has one afterwards if and only if at most one had |
| AuthStores.AuthStore.LogRefreshTokenUsage | homeassistant/auth/auth_store.py:268-278 | Using a token moves its expiry on if it has one that is not zero |
| AuthStores.UsedExact | homeassistant/auth/auth_store.py:268-278 | Only the last use and the expiry of the token change; the expiry moves to ninety days from now unless there is none or it is zero |
| AuthTokens.WithTokenExact | homeassistant/auth/auth_store.py:192-225 | A token takes the place of one with the same id; all other tokens, users and fields stay |
| AuthStores.LoadedDistinctIffOwnersAgree | homeassistant/auth/auth_store.py:420-477 | The token ids of a loaded store are distinct across users if and only if the data give no token id to two users |
| AuthTokens.RemovesOwnTokenIffFirst | homeassistant/auth/auth_store.py:227-232 | A token is the one that its id removes if and only if no earlier user has one of the same id |
| AuthTokens.RevokeExpiredExactIff | homeassistant/auth/__init__.py:521-527 | Removing the ids of the expired tokens removes exactly the expired tokens of every user if and only if no live token shares its id with an expired one of a later user; otherwise an expired token stays |
| AuthTokens.AlwaysExactIffOrdered | homeassistant/auth/__init__.py:521-527 | It does so at all times if and only if of users that share a token id the earlier one's token expires first; distinct ids are enough |
| AuthManagers.LiveTokenLost | homeassistant/auth/__init__.py:521-527 | Of two users with the same token id, in a store that can be saved and loaded, a live token of the first is removed and the expired one of the second stays |
| AuthManagers.AuthManager.RemoveExpiredRefreshTokens | homeassistant/auth/__init__.py:521-543 | After the timer has fired exactly the expired tokens are gone, and the new timer is in the future, if and only if no live token shares its id with an expired one of a later user |
| AuthManagers.AuthManager.TrackNextExpiration | homeassistant/auth/__init__.py:530-543 | The timer is the minimum of all expiries and ninety days from now |
| AuthManagers.AuthManager.AsyncCreateRefreshToken | homeassistant/auth/__init__.py:433-503 | Which request is refused why, in order, and exactly which are granted; a granted one adds one token, as requested, and the pending timer still covers all expiries |
| AuthManagers.RefusedIffNotAllowed | homeassistant/auth/__init__.py:443-489 | Exactly who may have a token of which kind |
| AuthManagers.AuthManager.LogUsage | homeassistant/auth/__init__.py:572-579 | Using a token keeps the timer no later than every expiry |
| AuthManagers.AuthManager.AsyncRemoveRefreshToken | homeassistant/auth/__init__.py:512-514 | Removing a token by its id keeps the timer no later than every expiry, token ids distinct if they were, and stored names unique if they were |
| AuthManagers.NewTokenFits | homeassistant/auth/__init__.py:448-494 | A token that passes the checks keeps token ids distinct, the expiries of normal tokens set, and at most one long-lived token per user and stored client name |
| AuthManagers.SecondRequestRefusedIffNamed | homeassistant/auth/__init__.py:478-494 | Asking for the same token a second time is refused if and only if it is a long-lived one under a name other than the empty one |
| Flows.FlowManager.AddFlowProgress | homeassistant/data_entry_flow.py:458-466 | Both indexes stay exactly what a scan of the flows in progress gives, without empty buckets |
| Flows.FlowManager.RemoveFlowProgress | homeassistant/data_entry_flow.py:469-493 | A flow in progress is removed from all tables without a failing lookup; any other id is unknown and changes nothing; no flow is ever removed twice |
| Flows.FlowManager.AsyncInit | homeassistant/data_entry_flow.py:323-348 | A new flow is in progress, or removed again when its first step does not exist |
| Flows.FlowManager.AsyncConfigure | homeassistant/data_entry_flow.py:362-411 | Which step runs next, and every way in which none does: an unknown flow, one that was not shown yet, invalid input, a missing step |
| Flows.FlowManager.StepReturned | homeassistant/data_entry_flow.py:495-559 | What a step's result does to the flow and the tables, also after the flow was aborted meanwhile |
| Flows.FlowManager.FinishReturned | homeassistant/data_entry_flow.py:561-571 | A finished flow is removed; of an aborted one the second removal fails and changes nothing |
| Flows.FlowManager.AsyncProgressByHandler | homeassistant/data_entry_flow.py:306-321 | Lookup by handler and context equals a scan of all flows |
| Flows.FlowManager.AsyncHasMatchingFlow | homeassistant/data_entry_flow.py:239-255 | The match is found if and only if a scan finds one |
| Flows.FlowManager.AsyncProgressByInitDataType | homeassistant/data_entry_flow.py:289-303 | Lookup by the type of the initial data equals a scan of all flows |
| Indexes.ExactIffLookups | homeassistant/data_entry_flow.py:458-482 | An index is exact if and only if every lookup equals a scan and no bucket is empty |
| Indexes.RemoveExact | homeassistant/data_entry_flow.py:469-482 | Removing a listed item never fails and leaves the exact index of the others |
| EntryLifecycle.SerialisedRunsAreSafe | homeassistant/config_entries.py:491-775 | In every run in which unloads do not overlap, at most one set-up is in flight, an armed retry means the retry state, and a non-zero try count means waiting or setting up |
| EntryLifecycle.ReloadsAreSafe | homeassistant/config_entries.py:1756-1771 | As long as all unloads are part of reloads, the reload lock keeps them apart, so every state of every run is safe |
| EntryLifecycle.FinalStays | homeassistant/config_entries.py:1731-1744 | In such runs a failed migration and a failed unload are never left |
| EntryLifecycle.StateTellsLastResult | homeassistant/config_entries.py:574-681 | In every run in which unloads do not overlap the state tells how the last set-up has ended |
| EntryLifecycle.InProgressForGoodIffNoneInFlight | homeassistant/config_entries.py:574-602 | An entry in progress stays so in every run in which unloads do not overlap if and only if no set-up is in flight any more |
| EntryLifecycle.CrashIsReachable | homeassistant/config_entries.py:574-602 | A new entry whose first set-up raises while it cleans up gets there |
| EntryLifecycle.UnloadRequestSafeIffHarmless | homeassistant/config_entries.py:1731-1744 | Requesting an unload in any recoverable state is safe if and only if no other unload is under way, or the entry is not loaded and waits for no retry |
| EntryLifecycle.FinalKeptIffHarmless | homeassistant/config_entries.py:751-775 | After such a request a failed migration, and likewise a failed unload, is never left if and only if the same holds |
| EntryLifecycle.TriesCountNotReady | homeassistant/config_entries.py:805-816 | In every run the try count is the number of not-ready results in a row |
| EntryLifecycle.RetryWait | homeassistant/config_entries.py:603-644 | The k-th not-ready result in a row waits five seconds doubled k - 1 times, at most four times, plus jitter, never more than 80.5 seconds |
| ConfigEntries.ConfigEntry.SetupReturned | homeassistant/config_entries.py:513-681 | What every result of a set-up does to state, tries and retry |
| ConfigEntries.ConfigEntry.AsyncSetupAgain | homeassistant/config_entries.py:683-698 | The retry clears its handle first, and does nothing else while stopping |
| ConfigEntries.ConfigEntry.ManagerSetup | homeassistant/config_entries.py:1700-1729 | Set-up is allowed exactly for an entry that is not loaded |
| ConfigEntries.ConfigEntry.ManagerUnload | homeassistant/config_entries.py:1731-1744 | Unload is allowed exactly for recoverable states |
| ConfigEntries.ConfigEntry.ComponentFetched | homeassistant/config_entries.py:738-757 | The state is looked at again after the component was fetched |
| ConfigEntries.ConfigEntry.UnloadEntryReturned | homeassistant/config_entries.py:759-775 | What each result of the integration's unload does to the entry |
| EntryItems.ApplyExact | homeassistant/config_entries.py:1421-1488 | On exact indexes an operation raises only for an unknown id, and keeps them exact if and only if the unique ids it leaves are distinct in each domain |
| EntryItems.IndexExact | homeassistant/config_entries.py:1432-1457 | Adding an entry keeps the indexes exact if and only if its unique id is not taken in its domain |
| EntryItems.RunsAreExact | homeassistant/config_entries.py:1421-1488 | While unique ids are distinct, every sequence of set, delete and update keeps both indexes equal to a scan, without empty buckets |
| EntryItems.RunsAreInOrder | homeassistant/config_entries.py:1421-1488 | In such runs the entries of each domain are listed in the order in which they were last added or changed |
| EntryItems.ReplacementIsLost | homeassistant/config_entries.py:1340-1343 | Adding a replacement with the same unique id before removing the old entry makes the new one impossible to look up or remove; trying to remove it takes it out of the index over domains |
| EntryItems.ConfigEntryItems.SetItem | homeassistant/config_entries.py:1421-1430 | Setting an entry, also over an existing one, is the specified operation, with what it leaves behind when it raises; exact indexes stay exact if and only if unique ids are still distinct |
| EntryItems.ConfigEntryItems.DeleteItem | homeassistant/config_entries.py:1459-1477 | Deleting is the specified operation, also on indexes that are not exact; in exact ones it finds the entry, and leaves them exact |
| EntryItems.ConfigEntryItems.UpdateEntryUniqueId | homeassistant/config_entries.py:1479-1488 | Changing a unique id is the specified operation, also on indexes that are not exact; exact ones stay exact if and only if unique ids are still distinct |
| CollectionIds.ProposalsInjective | homeassistant/helpers/collection.py:103-109 | Different attempts propose different ids |
| CollectionIds.DigitsDenote | homeassistant/helpers/collection.py:106-109 | The numeral behind a proposal denotes the attempt, without leading zeros |
| Collections.IdManager.GenerateId | homeassistant/helpers/collection.py:97-111 | Terminates, since the used ids run out, with the first proposal that no registered collection uses |
| CollectionChanges.LoadedExact | homeassistant/helpers/collection.py:203-222 | An id is loaded if and only if an item has it and it was there before or no other collection uses it; the first such item counts |
| Collections.YamlCollection.AsyncLoad | homeassistant/helpers/collection.py:203-230 | Replaying the change set on the old data gives exactly the new data, each id is mentioned at most once and with the right kind of change, and the collections' ids stay disjoint |
| Collections.StorageCollection.AsyncLoad | homeassistant/helpers/collection.py:267-280 | The collections stay disjoint if and only if no other collection uses a stored id |
| Collections.StorageCollection.AsyncCreateItem | homeassistant/helpers/collection.py:310-318 | A new item gets an id that no collection uses, so disjoint collections stay disjoint |
| Collections.StorageCollection.UpdateReturned | homeassistant/helpers/collection.py:328-338 | The updated item is put back even if it was deleted meanwhile; the collections stay disjoint if and only if nobody has taken its id |
| Collections.StorageCollection.AsyncDeleteItem | homeassistant/helpers/collection.py:341-349 | Deletes exactly the item, or reports it as not found |
| Conditions.Check | homeassistant/helpers/condition.py:208-341 | The short-circuiting checkers compute the meaning of the tree, errors included |
| Conditions.ErrorsAreExact | homeassistant/helpers/condition.py:258-279 | An error that surfaces lists exactly the children that raised, each once and in order |
| Conditions.CombinationIsLogic | homeassistant/helpers/condition.py:251-341 | The verdict of a combination is a truth table over the set of its children's verdicts, so errors surface only when no child decides |
| Conditions.OrderDoesNotMatter | homeassistant/helpers/condition.py:251-341 | Reordering the children keeps the verdict |
| Conditions.NotIsAndOfNots | homeassistant/helpers/condition.py:313-341 | `not` of several conditions is the `and` of `not` of each |
| Conditions.NotIsNegatedOr | homeassistant/helpers/condition.py:282-341 | `not` is the negation of `or`, errors included |
| Conditions.PruningKeepsVerdict | homeassistant/helpers/condition.py:225-234 | Deleting disabled conditions below the root, at any depth, keeps the verdict |
| Conditions.DefiniteVerdictIgnoresErrors | homeassistant/helpers/condition.py:251-341 | A verdict that is not an error stays the same whatever the conditions that raised had answered |
| Conditions.ExtractEntities | homeassistant/helpers/condition.py:1065-1089 | The worklist finds exactly the entities that a leaf at some place in the tree names |
| Packages.RecursiveMerge | homeassistant/config.py:1029-1048 | The recursive loop computes the merge that the lemmas below are about |
| PackageMerge.KeyWise | homeassistant/config.py:1029-1048 | Every key ends up as before or merged with the package's value, and all keys of the package are merged unless a clash of this level ends the merge |
| PackageMerge.ReportIsReal | homeassistant/config.py:1032-1048 | A key is reported only for a package scalar that meets something that is set, somewhere in the tree |
| PackageMerge.StopIsReported | homeassistant/config.py:1044-1046 | A scalar clash of the outermost level is always reported |
| PackageMerge.RaisesIffBreaks | homeassistant/config.py:1029-1048 | The merge raises if and only if a dictionary of the package that holds more than empty ones meets something that is no dictionary, and no scalar ends the merge on the way |
| PackageMerge.ListsConcatenate | homeassistant/config.py:1039-1042 | A list of the package comes after the list, the single value or the nothing of the configuration, without what is falsy |
| PackageMerge.RemoveFalsyExact | homeassistant/config.py:1039-1042 | Exactly nulls, falsy scalars and empty lists and dictionaries are removed |
| PackageMerge.LastNestedIsReported | homeassistant/config.py:1033-1037 | Without one the report is that of the last dictionary merged below; what earlier ones reported is forgotten |
| PackageMerge.SilentIffNoClashOnSpine | homeassistant/config.py:1029-1048 | For every package that merges, nothing is reported if and only if no clash is reached through the last non-empty dictionary of every level |
| PackageMerge.SilentIffNoClash | homeassistant/config.py:1029-1048 | So when no dictionary of the package has two non-empty dictionaries, nothing is reported if and only if there is no clash |
| PackageMerge.ClashUnreported | homeassistant/config.py:1037-1037 | With two of them a clash in the first can go unreported |
| PackageMerge.ScalarsAndKeysKept | homeassistant/config.py:1029-1048 | While lists of the package only meet lists, a scalar that is set keeps its value and no key disappears, also when the merge ends early |
| PackageMerge.NoConflictMerges | homeassistant/config.py:1029-1048 | Trees that conflict nowhere merge without an exception and without a report |
| PackageMerge.LeavesUnite | homeassistant/config.py:1029-1048 | The leaves of the result are then the union of the leaves of both |
| PackageMerge.OrderDoesNotMatter | homeassistant/config.py:1029-1048 | Two packages that conflict neither with the configuration nor with each other give the same leaves in either order |

## Left out

- Module import, executors, pip, file and manifest reading, YAML parsing and delayed saving are parameters of the steps, or any outcome is allowed.
- Logging, notifications, translations, repair issues, condition traces and set-up timing have no effect on what is proved.
- Cancellation, timeouts and the stages of a shutdown: tasks always run on.
- The setup protocol takes the return of a component's setup function, of its import and of the installation of its requirements as single steps; `async_prepare_setup_platform` enters only through the platforms whose dependencies are set up already.
- Setup.StepInv: covers the value state machine; the methods of `SetupTasks.SetupData` are the same steps on the object, but one eager start of a dependency's task is a step of its own there too, not a nested call.
- FetchRuns.ReturnedCallIsComplete: a waiter whose domain was missing and was requested again gets the new pending future as its answer, which the answer type names `Unfinished`.
- Requirements.RequirementsManager.Get: is about one task; `RequirementsTasks` has the waits between tasks, but not what a call finds installed when others run beside it.
- RequirementsTasks.DeadlockIffCycle: takes the installation of an integration's own requirements, with the pip lock and the retries of pip, as one step that always ends; the object with these fields is modelled for one task only, in `Requirements`.
- SetupDeadlocks.AnnouncedCompletesIffNotTried: is about one announcement in any state; the stages of `Bootstrap.SetUpStages` are not run against the setup protocol, so which domains of a later stage hang is not stated for a whole bootstrap.
- Bootstrap.ResolveDomainsToSetup: leaves out the requirements and translations that are collected on the way, and takes one call of the loader as a lookup in the repository.
- The contexts and event ids of states, the write to the recorder, and the attributes of events other than ids and states; entity ids are lower-cased in ASCII only, and only ASCII digits count as digits.
- AuthMigration.LoadIsNormaliser: dates are whole numbers or unreadable; that `isoformat` and `parse_datetime` are inverse, and that `total_seconds` of an access token expiration is exact, is taken for granted.
- Permission lookups, passwords, multi-factor modules, login providers, revoke callbacks and JWT encoding.
- AuthManagers.AuthManager.LogUsage: a token object that was removed from the store and is still used by a caller changes no stored token, and is not modelled.
- AuthManagers.AuthManager.AsyncCreateRefreshToken: compares token types by value where the source compares the normal type by identity.
- Flows.FlowManager.AsyncConfigure: takes from the schema of the input only whether it passes; the check that external and progress steps only go to their own kind and the loop over finished progress steps are left out; a flow's handler and initial data do not change after it was created.
- Flows.FlowManager.StepReturned: leaves out previews and progress tasks.
- SetupTasks.SetupData.CollectDependency: starts the dependency's task and leaves its first stretch of code to a step of its own, where the source runs it at once as an eager task.
- EntryLifecycle.SerialisedRunsAreSafe: is about set-up by the entry's own domain with the integration cached and the component loaded; forwarded set-ups, ignored entries and entries being removed are left out.
- EntryItems.ApplyExact: entries stand in the indexes by their id instead of by reference, and unique ids are strings; the guard for unhashable ones is left out.
- Collections.IdManager.GenerateId: takes the slug of the suggestion as given.
- Collections.YamlCollection.AsyncLoad: does not model the listeners, only what they are told.
- Conditions.Check: leaf conditions are arbitrary outcomes that depend on nothing but the leaf; templates as conditions, triggers and the enabling of conditions by templates are left out.
- Packages.RecursiveMerge: returns the new configuration instead of changing nested dictionaries in place; what an exception leaves behind of a half-merged configuration is not modelled.
- Area, category, device and entity registries, the websocket interfaces, and the parts of the stores that are simple lookups.
