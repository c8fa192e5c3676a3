# DataPress: a verified model

DataPress serves datasets over HTTP. Some are files, others are SQL queries over other datasets,
materialised and refreshed on a schedule or when something upstream publishes. This project models
the parts that decide whether what it serves is right, and proves what they guarantee for every
input, every run and every interleaving.

| part | modules |
|---|---|
| configuration and its dependency graph: build order, cycle finder, name casing | `Config`, `Listings`, `Digraph`, `DependencyGraph`, `DependencyCasing` |
| cascade refresh: publish channel, debounce map, requests, builds, as a transition system over a clock | `Cascade`, `CascadeEngine`, `CascadeSetup`, `CascadeReports` |
| its runs: nothing lost, debounce, termination, coming to rest | `CascadeRuns`, `CascadePotential`, `CascadeSafety`, `CascadeDebounce`, `CascadeTermination`, `CascadeSettles` |
| the wave of one outside publish: how often, after whom, and on time | `CascadePaths`, `CascadeWaves`, `CascadeRefreshes`, `CascadePrompt` |
| diamonds on time, and what clearing buys | `CascadeDiamond`, `CascadeDiamondBuilds`, `CascadeDiamondRuns`, `CascadeDiamondLaws`, `CascadeClearing` |
| scheduled refresh: heap, backoff, jitter | `Scheduler` |
| dataset registry and startup | `Registry`, `Startup` |
| connection pool under all interleavings | `Pool` |
| generation storage, its identifiers and its collection | `Generations`, `GenerationIds`, `Ulid` |
| structured queries: column filters, planning, relational meaning, pages | `Schema`, `Query`, `QueryMeaning`, `QueryExec`, `QueryResults`, `Pages` |
| text forms: digits, dates, durations | `Text`, `Radix`, `Calendar`, `Durations` |
| Arrow IPC chunk writer | `ChunkWriter` |

Code that updates things in place is imperative here too (the cascade engine, the scheduler's heap,
the registry, generation storage, the chunk writer, the depth-first search and Kahn's loop, the date
and identifier loops), each proved against a specification function or predicate. The theorems are
about those specifications. `dafny verify dfyconfig.toml` verifies everything.

Clocks, random draws, random bytes and the engine's answers to a build are parameters: the results
hold for all of them. `QueryExec.Engine` stands for what the SQL engine does to values (test,
aggregate, order); noninterference holds for every such engine.

Where code and documentation disagree, the model follows the code:

- `docs/src/configuration/materialized.md:349-357` promises that a dataset is not refreshed before all
  its dependencies of the same wave published, and that a diamond refreshes its tip exactly once per
  settled wave. The engine only debounces, and clears what a publish already covers. When each promise
  holds is told exactly: for any graph by its paths, when the scheduler may lag
  (`CascadeRefreshes.RefreshedOnceExactly`) or builds may fail (`CascadePrompt.WaitsExactly`); for
  diamonds whose components are all prompt by their windows and timeouts (`CascadeDiamondLaws.DiamondRefreshedOnceExactly`,
  `CascadeDiamondLaws.DiamondWaitsExactly`). A refresh is a publish; requests are counted apart, since a
  failed build is requested and refreshes nothing.
- Validation accepts dependency names in any case (`crates/core/src/config.rs:2266`), the graph matches
  them exactly (`crates/core/src/config.rs:2426`); see `DependencyCasing`.
- A projection filter that hides every column leaves the default projection empty, which means all
  columns (`crates/core/src/models.rs:43`, `crates/core/src/models.rs:415-421`); see
  `QueryExec.IndependentExactly`.
- A reload whose build is cut off leaves the dataset marked as building
  (`crates/duckdb/src/db.rs:235`); `Registry.PublishedExactly` says exactly when.
- Minutes, hours and days of a duration are 64-bit products too (`crates/core/src/config.rs:55-57`); see
  `Durations.ParsedExactly`.
- The page offset is a 64-bit product that wraps in release builds (`crates/core/src/models.rs:362`); see
  `Pages.WrappedPageExactly`.

## Model

| member | source | states |
|---|---|---|
| `DependencyGraph.NameToIdxIsLast` | crates/core/src/config.rs:2409-2415 | The name lookup resolves exactly the dataset names, each to the last dataset that bears it. |
| `DependencyGraph.EdgeMeansListed` | crates/core/src/config.rs:2421-2433 | An edge exists exactly when a query lists, by exact name, the dataset that name resolves to; other sources contribute none. |
| `DependencyGraph.BuildAdjacency` | crates/core/src/config.rs:2417-2433 | The loop's counters are the numbers of resolved mentions and its lists hold every dependent once per mention, repeats included. |
| `DependencyGraph.AddDataset` | crates/core/src/config.rs:2421-2433 | Only a query raises its counter and enters the lists; one dataset's pass extends both by exactly its edges. |
| `DependencyGraph.AddEdges` | crates/core/src/config.rs:2425-2432 | One dataset's mentions raise its own counter only and append it to each mentioned dependency, once per mention. |
| `DependencyGraph.Release` | crates/core/src/config.rs:2439-2444 | Releasing a node decrements its dependents without underflow and keeps: counters equal the dependencies not yet emitted, and queued plus emitted nodes are exactly those at zero, once each. |
| `DependencyGraph.Drain` | crates/core/src/config.rs:2435-2445 | Kahn's loop ends with a duplicate-free, dependencies-first listing such that every node left over depends on another one left over. |
| `DependencyGraph.TopologicalOrder` | crates/core/src/config.rs:2405-2457 | Succeeds if and only if the graph has no closed walk; then the order is a permutation with every dependency first; otherwise the error lists an actual cycle. |
| `DependencyGraph.CycleReportIsDeclared` | crates/core/src/config.rs:2447-2454 | A reported cycle is closed, has at least one step, and each name is a declared dependency of the one before. |
| `DependencyGraph.CycleSearch.Dfs` | crates/core/src/config.rs:2360-2394 | The recursive search terminates; it returns a closed walk, or leaves the stack as it was with the node and everything below it finished. |
| `DependencyGraph.CycleSearch.Visit` | crates/core/src/config.rs:2373-2388 | The node sought on the stack is there whenever it is marked, so the position lookup never fails and cuts out a closed walk. |
| `DependencyGraph.FindCyclePath` | crates/core/src/config.rs:2326-2358 | Whenever the graph is cyclic the result is a cycle of it; the fallback listing is reached on acyclic graphs only. |
| `DependencyGraph.QueryNamesExactly` | crates/core/src/config.rs:2352-2357 | The fallback listing names exactly the query datasets, in order. |
| `DependencyGraph.CloseCycle` | crates/core/src/config.rs:2347-2349 | The closing step appends the first name, giving the names along a closed walk. |
| `Digraph.RankedIsAcyclic` | crates/core/src/config.rs:2405-2457 | Any listing of the non-leaf nodes with successors first rules out every closed walk; both algorithms' success cases rest on it. |
| `Digraph.ClosedSetIsCyclic` | crates/core/src/config.rs:2447-2454 | A non-empty set without a sink contains a closed walk, which is why what Kahn leaves over always yields a cycle. |
| `DependencyCasing.GraphIsCompleteExactly` | crates/core/src/config.rs:2264-2272 | Validation compares names ignoring case, the graph exactly, and names that differ in case alone may coexist: the graph has every validated dependency if and only if each is listed in a dataset's own spelling and datasets that differ in case alone are listed together. |
| `DependencyCasing.MiscasedCycleIsMissed` | crates/core/src/config.rs:2421-2433 | A concrete pair of queries depending on each other in the wrong case passes the name validation and the cycle check. |
| `DependencyCasing.TwinIsMissed` | crates/core/src/config.rs:2052-2058 | A concrete accepted configuration with two files that differ in case alone: a query depends on both as validated, and has an edge to one. |
| `Cascade.ArmEntry` | crates/core/src/refresh.rs:349-361 | A publish re-arms exactly the listed dependents, stamped with the current instant, and leaves every other entry alone. |
| `CascadeSafety.ClockStep` | crates/core/src/refresh.rs:332-333 | Build start, send time, receipt and the clock stay ordered across every step. |
| `CascadeSafety.ChannelsStep` | crates/core/src/refresh.rs:307-388 | Each step conserves both channels. |
| `CascadeSafety.ChannelsExactAlways` | crates/core/src/refresh.rs:307-388 | In every run the publishes sent are those received then those queued, and the requests emitted are those served, in service and queued, in order. |
| `CascadeSafety.NothingLostStep` | crates/core/src/refresh.rs:332-384 | Every step keeps: each trigger ever received is pending under its own or a later trigger, or answered. |
| `CascadeSafety.NoTriggerLost` | crates/core/src/refresh.rs:332-384 | The same over every run from any state that has it. |
| `CascadeSafety.NoTriggerLostFromStart` | crates/core/src/backend.rs:46-61 | From a fresh engine, a publish that a step of the run reports and that triggers a dataset is, once received, still pending for it, or followed by a request, or by a publish of the dataset that a step reports with a build start no earlier than the receipt. |
| `CascadeReports.SentIsReported` | crates/core/src/backend.rs:59-60 | In every run exactly the publishes that its steps report are sent, in order, each with the dataset and the build start of the step and the time of the step; the dataset of a finished build is that of the first request not yet served. |
| `CascadeReports.BuildStartsAreReal` | crates/duckdb/src/db.rs:231-292 | A build that publishes reports a start between its own begin and its end, an outside publish one that is not in the future. |
| `CascadeReports.ReloadClearsExactly` | crates/core/src/refresh.rs:332-341 | An outside publish of a dataset clears its entry if and only if its build began no earlier than the last trigger; otherwise the entry stays unchanged. |
| `CascadeDebounce.SpacedStep` | crates/core/src/refresh.rs:341-384 | Each step keeps: the pending entry fires one window after the latest trigger, and no request lies within a window of an earlier trigger or request. |
| `CascadeDebounce.DebounceSpacing` | crates/core/src/refresh.rs:313-386 | In every run a request is emitted only when no trigger was received in the preceding window, and requests for one dependent are at least a window apart. |
| `CascadeDebounce.OneRequestPerBurst` | crates/core/src/refresh.rs:351-355 | In every run requests for a dependent never outnumber the bursts of its triggers (runs of triggers closer together than the window). |
| `CascadeDebounce.DebounceFromStart` | crates/core/src/refresh.rs:307-388 | Both debounce results for every run of a freshly started engine. |
| `CascadeDebounce.RequestsCarryTimeout` | crates/core/src/refresh.rs:372-380 | In every run each request carries the timeout its dependent was given in the graph. |
| `CascadeTermination.StepSpends` | crates/core/src/refresh.rs:307-388 | A receive, fire or serve step strictly lowers the work owed (a path weight over the graph), time leaves it, an outside publish adds that dataset's weight. |
| `CascadeTermination.WorkIsBounded` | crates/core/src/refresh.rs:307-388 | In every run, steps worked plus work still owed never exceed work owed at the start plus work injected from outside. |
| `CascadeTermination.WavesTerminate` | crates/core/src/refresh.rs:493-548 | Once outside publishes stop, every run has at most the owed number of working steps. |
| `CascadeTermination.OwedNothing` | crates/core/src/refresh.rs:307-388 | No work is owed if and only if all queues are empty. |
| `CascadeSetup.BuildCascadeDag` | crates/core/src/server.rs:604-623 | The nested setup loop builds the specified graph. |
| `CascadeSetup.CascadeDagMeaning` | crates/core/src/server.rs:606-622 | An entry is triggered by an upstream if and only if some dataset with that name, window and timeout sets on_upstream_reload and lists the upstream. |
| `CascadeSetup.AcceptedRespects` | crates/core/src/config.rs:2405-2457 | The cascade graph of an accepted configuration goes strictly up the topological order. |
| `CascadeSetup.AcceptedWavesTerminate` | crates/core/src/server.rs:604-623 | On every configuration the topological check accepts, from any state there is a bound on the working steps of all runs without outside publishes. |
| `CascadeSetup.AcceptedWindow` | crates/core/src/server.rs:611-620 | With unique names every mention of a dataset carries its own debounce window. |
| `CascadeSetup.AcceptedDebounce` | crates/core/src/refresh.rs:313-386 | Spacing and one request per burst for every configured dataset, in every run of a fresh engine. |
| `CascadeSetup.AcceptedTimeout` | crates/core/src/server.rs:611-620 | Every request for a configured dataset carries that dataset's own timeout, in every run. |
| `CascadeSettles.RestIsExact` | crates/core/src/refresh.rs:317-387 | No deadlock: the protocol can do no more work, however long it waits, if and only if every queue is empty. |
| `CascadeSettles.CanSettle` | crates/core/src/refresh.rs:493-548 | Every state can be continued, without outside publishes, to a state of rest. |
| `CascadeSettles.RestAnswersAll` | crates/core/src/refresh.rs:332-384 | At rest every publish that a step reported was received, every request served, and every trigger answered by a later request or a build begun after it. |
| `CascadeSettles.AcceptedSettles` | crates/core/src/server.rs:604-623 | On accepted configurations the quiet runs from a state have boundedly many working steps, those with no work left are at rest, and all others can be continued to rest. |
| `CascadeDebounce.SettledBurstRefreshesOnce` | docs/src/configuration/materialized.md:356-357 | A settled run, whatever was published from outside, whose triggers of a dataset form one burst requests one refresh of it, or none when builds begun after the triggers covered them all. |
| `CascadePaths.RequestsWithinPaths` | crates/core/src/refresh.rs:307-388 | In every run the requests of a dataset never outnumber the paths of the cascade graph to it from what was published from outside. |
| `CascadePaths.PathsAreAttained` | crates/core/src/refresh.rs:307-388 | The bound is attained on every graph, whatever its windows: with an engine on time that fires in batches, every build published and a lagging scheduler, one outside publish requests a dataset once for every path to it, and comes to rest. |
| `CascadePaths.OnceExactly` | docs/src/configuration/materialized.md:356-357 | One outside publish requests a dataset at most once in every run if and only if at most one path of the cascade graph leads to it; the same when the engine is on time and fires all due entries in one batch. |
| `CascadeWaves.SettledRequestsExactly` | crates/core/src/refresh.rs:332-384 | A wave that has come to rest requested a dataset if and only if an upstream of it published. |
| `CascadeWaves.SettledOnce` | docs/src/configuration/materialized.md:356-357 | Exactly once: with one path, a wave at rest requested the dataset once if an upstream of it published, and not at all otherwise. |
| `CascadeRefreshes.RefreshesAndRequests` | crates/core/src/refresh.rs:493-548 | In a wave a dataset publishes at most as often as it is requested, and at rest exactly as often when every build publishes. |
| `CascadeRefreshes.FullWaveRefreshes` | docs/src/configuration/materialized.md:349-351 | A settled wave whose builds all publish refreshes every dataset that a path reaches, at least once. |
| `CascadeRefreshes.RefreshedOnceExactly` | docs/src/configuration/materialized.md:356-357 | The promise of exactly one refresh per settled wave, for any graph: over all waves whose builds publish it holds for a dataset if and only if exactly one path leads to it, and a prompt engine saves no other graph. |
| `CascadePrompt.WaitsExactly` | docs/src/configuration/materialized.md:349-354 | The promise of waiting, over all prompt runs, failing builds included, and whatever the windows and timeouts: a dataset is requested only after all its upstreams in the wave published if and only if it has at most one upstream there. |
| `CascadePrompt.WaveAlong` | crates/core/src/refresh.rs:493-548 | A prompt wave that publishes only the datasets along a path requests what its end triggers. |
| `CascadePrompt.AcceptedWaves` | crates/core/src/server.rs:604-623 | The three answers (requested at most once, refreshed exactly once, waits) for every configuration that the topological check accepts. |
| `CascadeDiamond.RequestedOnce` | docs/src/configuration/materialized.md:356-357 | When a diamond's window outlasts its siblings' builds, no prompt wave requests the tip twice. |
| `CascadeDiamondBuilds.RefreshedAtMostOnce` | crates/core/src/refresh.rs:294-306 | When both siblings share a build of the tip, no prompt wave refreshes the tip twice: the trigger of a late sibling is cleared by the publish of a build that began no earlier. |
| `CascadeDiamondLaws.DiamondRefreshedOnceExactly` | docs/src/configuration/materialized.md:356-357 | The promise for diamonds over prompt runs: one outside publish refreshes the tip exactly once per settled wave, and never twice, if and only if the second sibling begins within the tip's window after the first is due and either ends within it too or the tip's timeout is shorter than the window. |
| `CascadeDiamondLaws.DiamondMayRefreshTwice` | crates/core/src/refresh.rs:1358-1409 | Otherwise a prompt run comes to rest, every build published and within its timeout, in which one outside publish refreshes the tip at least twice. |
| `CascadeDiamondLaws.DiamondOnceExactly` | crates/core/src/refresh.rs:351-361 | Requests, failing builds counted too: no prompt run requests the tip twice if and only if its window outlasts the siblings' builds (the difference of their windows plus the later one's timeout). |
| `CascadeDiamondLaws.DiamondSettlesOnce` | docs/src/configuration/materialized.md:356-357 | Then a prompt wave at rest requested the tip exactly once, or not at all when neither sibling published. |
| `CascadeDiamondLaws.DiamondWaitsExactly` | docs/src/configuration/materialized.md:349-354 | The promise of waiting, for diamonds over prompt runs whose builds all publish: the tip is requested only after both siblings published if and only if its window outlasts their builds. |
| `CascadeDiamondLaws.TipMayPrecedeSibling` | docs/src/configuration/materialized.md:349-354 | When builds may fail it fails on every diamond, by a prompt run in which a sibling never publishes. |
| `CascadeClearing.OvertakenNeverRequested` | crates/core/src/refresh.rs:294-306 | In every run, a dataset is never requested when each trigger of it is followed within its window by another trigger, or by its own publish from a build begun after the trigger was received, as the run's steps report it. |
| `CascadeClearing.RequestedUnlessOvertaken` | crates/core/src/refresh.rs:332-384 | With a prompt engine nothing else prevents a request: a trigger not overtaken by the end of its window has brought one. |
| `CascadeClearing.ReloadCausesNoCascade` | crates/core/src/refresh.rs:1860-1911 | A wave of outside publishes in which each following dataset is published in time after its upstreams causes no cascade request for any dataset. |
| `CascadeEngine.Engine.HandlePublish` | crates/core/src/refresh.rs:332-361 | The in-place update of the pending map is the protocol's reaction to a publish. |
| `CascadeEngine.Engine.NextFire` | crates/core/src/refresh.rs:318 | The sleep target is the earliest pending fire, and absent exactly when nothing is pending. |
| `CascadeEngine.Engine.CollectDue` | crates/core/src/refresh.rs:371-376 | The fired list holds the entries due now, each once. |
| `CascadeEngine.Engine.FireDue` | crates/core/src/refresh.rs:371-384 | Exactly the due entries leave the map, one request each with its timeout, the rest untouched. |
| `CascadeEngine.BatchIsRun` | crates/core/src/refresh.rs:371-384 | Firing a batch is a run of the protocol's single fire steps and ends in the same map and request queue. |
| `Scheduler.JitterBounds` | crates/core/src/refresh.rs:72-79 | Jitter stays within ten percent of the base, or at the one-millisecond floor when that is larger. |
| `Scheduler.JitterSpreads` | crates/core/src/refresh.rs:72-79 | The draw spreads the delay evenly over the whole band, from nine tenths of the base on, and without jitter the delay is the base. |
| `Scheduler.BackoffRange` | crates/core/src/refresh.rs:702-705 | Backoff doubles with each failure up to eight times the interval and is never below it. |
| `Scheduler.NextFireBounds` | crates/core/src/refresh.rs:600-671 | After a timeout or an error the counter is one more and the next fire lies in the jitter band of the doubled interval; after a publish or a coalesced tick the counter is zero and the band is that of the plain interval. |
| `Scheduler.TickKeepsSlot` | crates/core/src/refresh.rs:573-668 | A tick keeps: one entry per schedule, unaltered, whose counter is the number of timeouts and errors since that dataset's last publish or coalesced tick. |
| `Scheduler.ScheduleConserved` | crates/core/src/refresh.rs:551-697 | After the ticks that the heap has recorded, each schedule's entry carries that schedule, and its counter is the number of timeouts and errors its outcomes end in. |
| `Scheduler.NextFireInBand` | crates/core/src/refresh.rs:669-671 | After the ticks that the heap has recorded, a served dataset whose outcomes end in n timeouts and errors fires next within ten percent of its interval, doubled n times up to eight times, after its last tick. |
| `Scheduler.PlainAfterSuccess` | crates/core/src/refresh.rs:580-581 | After a publish or a coalesced tick a dataset fires next within ten percent of its plain interval. |
| `Scheduler.TrailingExactly` | crates/core/src/refresh.rs:600-623 | The counter is n if and only if the last n outcomes are each a timeout or an error and the one before them, if any, is neither. |
| `Scheduler.TicksAreSpaced` | crates/core/src/refresh.rs:551-571 | In every run of the loop two successive ticks of a dataset are at least nine tenths of that interval apart. |
| `Scheduler.NoOvertaking` | crates/core/src/refresh.rs:551-563 | In every run of the loop, while a dataset is due and not yet served no other one is served twice. |
| `Scheduler.ServedWithinARound` | crates/core/src/refresh.rs:551-563 | So none starves: a due dataset is served within as many ticks as there are schedules. |
| `Scheduler.TickExtends` | crates/core/src/refresh.rs:551-697 | Serving an earliest due entry of the heap extends the recorded run, and the heap holds what the longer run leaves. |
| `Scheduler.RefreshLoop.constructor` | crates/core/src/refresh.rs:419-432 | The initial heap holds one entry per schedule at its jittered first delay, with no failures. |
| `Scheduler.RefreshLoop.Pop` | crates/core/src/refresh.rs:86-106 | Pop removes one entry that fires earliest, and of those the one with the greatest name. |
| `Scheduler.RefreshLoop.Tick` | crates/core/src/refresh.rs:551-697 | Once an entry is due, a tick takes an earliest one and puts it back rescheduled, so that the heap keeps one entry per schedule and holds exactly what the recorded run, longer by this tick, leaves. |
| `Registry.Registry.Reload` | crates/duckdb/src/db.rs:177-196 | Reload of an unknown name changes nothing; otherwise the maps become those of the specification for the engine's answer. |
| `Registry.Registry.TryReload` | crates/duckdb/src/db.rs:201-221 | The same, except that a held reload lock leaves every map alone. |
| `Registry.Registry.ReloadInner` | crates/duckdb/src/db.rs:231-300 | Marking as building, then swapping in or falling back, has the specified net effect for each of the engine's answers. |
| `Registry.Registry.Register` | crates/duckdb/src/db.rs:305-404 | Registration fills all four maps together or none of them. |
| `Registry.Registry.Unregister` | crates/duckdb/src/db.rs:406-473 | Removal empties all four maps together, for managed datasets only. |
| `Registry.OthersUntouched` | crates/duckdb/src/db.rs:177-473 | An operation leaves every other dataset's four entries alone. |
| `Registry.FitsKept` | crates/duckdb/src/db.rs:177-473 | Every operation keeps the lock-step of one name's entries. |
| `Registry.LockStepAlways` | crates/duckdb/src/db.rs:177-473 | Over every sequence of completed operations the maps stay in lock-step. |
| `Registry.LockStepKeys` | crates/duckdb/src/db.rs:177-473 | Lock-step means: schema and row-count keys coincide, status and configuration keys coincide, and schemas are configured. |
| `Registry.FailedReloadKeepsLastGood` | crates/duckdb/src/db.rs:253-264 | A failing reload of a published dataset changes nothing at all. |
| `Registry.BuildingStep` | crates/duckdb/src/db.rs:231-264 | An operation leaves a dataset building if and only if it is a reload that was cut off; otherwise its status is decided or unchanged. |
| `Registry.PublishedExactly` | crates/duckdb/src/db.rs:177-473 | Over every sequence of operations: building if and only if the last effective operation was a cut-off reload; in all other cases published if and only if there is a schema, and failed otherwise. |
| `Registry.CutOffLeavesBuilding` | crates/duckdb/src/db.rs:235-251 | A concrete published dataset that a cut-off reload leaves building beside its last good schema. |
| `Registry.ReadyIsServed` | crates/duckdb/src/db.rs:162-171 | A dataset that queries see as published always has a schema, a row count and a configuration. |
| `Registry.ServesLastGood` | crates/duckdb/src/db.rs:231-300 | Over every sequence of operations the schema and row count served are those of the last successful build. |
| `Registry.RefusedExactly` | crates/duckdb/src/db.rs:177-425 | When each operation is refused: unknown name, held lock, unmanaged dataset, invalid registration, name already served; what is not refused succeeds or fails as its build does. |
| `Registry.RefusalChangesNothing` | crates/duckdb/src/db.rs:305-425 | A refused operation leaves all maps as they were, and so does a registration whose build fails. |
| `Registry.ConfigsExactly` | crates/duckdb/src/db.rs:305-473 | Over every sequence of operations the configurations are those of the last registration or removal that succeeded, else the initial ones. |
| `Registry.UnmanagedStays` | crates/duckdb/src/db.rs:406-425 | Over every sequence of operations a served dataset from the configuration file keeps its configuration and its schema's presence. |
| `Startup.LoadRegistry` | crates/duckdb/src/db.rs:534-659 | A cycle is reported if and only if there is one; on success every dataset is published or failed with its own build's results, a query is published if and only if it loaded and all its dependencies are published, a source that lists no upstreams if and only if it loaded, and each attempt followed its dependencies; any other failure names an attempted build that stops startup. |
| `Startup.BuildAll` | crates/duckdb/src/db.rs:553-659 | The build loop's progress is that of the specified passes, or it stops at a fatal build. |
| `Startup.UpstreamFailedMeaning` | crates/duckdb/src/db.rs:556-574 | At a query's turn, an upstream is in the failed set if and only if one of its dependencies is not published. |
| `Startup.PassKeepsLoading` | crates/duckdb/src/db.rs:553-659 | Each pass keeps: decided entries agree in all maps, publication is exact, and attempts came after published dependencies. |
| `Startup.PublishedIffAllUpstreamSound` | crates/duckdb/src/db.rs:556-574 | In closed form: a query is published if and only if every dataset it reaches through dependencies did its own part. |
| `Startup.FailureHasCause` | crates/duckdb/src/db.rs:556-574 | Every unpublished query has a walk of dependencies to one that failed by itself. |
| `Startup.PublishedExactlyFromStartup` | crates/duckdb/src/db.rs:481-659 | From a successful start and any later operations, published means having a schema, unless a cut-off reload came last. |
| `Pool.ConservedStep` | crates/duckdb/src/db.rs:47-69 | Every atomic step keeps idle plus held equal to the pool size, holds no connection twice and loses none. |
| `Pool.StepKeeps` | crates/duckdb/src/db.rs:47-69 | Every step also keeps: when someone sleeps, idle connections do not outnumber woken callers plus notifications due. |
| `Pool.PoolSafety` | crates/duckdb/src/db.rs:29-70 | All of this in every interleaving of get, retry, push, notify and spurious wake. |
| `Pool.FreshPoolSafety` | crates/duckdb/src/db.rs:1547-1574 | The same from a freshly created pool of distinct connections, each of which is always idle or held. |
| `Pool.NoSleeperBesideIdle` | crates/duckdb/src/db.rs:47-69 | With nobody woken and no notification due, a sleeper means that every connection is held. |
| `Pool.TakeExactly` | crates/duckdb/src/db.rs:58-68 | A checkout or a retry takes the connection returned last when one is idle, sleeps otherwise, and changes nothing else. |
| `Pool.CallersAccounted` | crates/duckdb/src/db.rs:58-68 | In every interleaving each caller is in one place, where its last own step put it: holding or waiting after a checkout or a retry, owing the notification after a return, outside otherwise. |
| `Pool.OwnStepsInOrder` | crates/duckdb/src/db.rs:47-69 | In every interleaving a caller that checked out leaves only by returning its connection and then notifying. |
| `Pool.WaitingCanEnd` | crates/duckdb/src/db.rs:47-69 | From every reachable state of a pool with a connection each waiting caller can still be given one, without any spurious wake-up. |
| `Generations.GenerationStore.ListComplete` | crates/core/src/storage.rs:138-164 | The listing holds exactly the sealed generations, in increasing order. |
| `Generations.GenerationStore.Collect` | crates/duckdb/src/db.rs:1297-1306 | Collection keeps exactly the sealed generations that fewer than two others outrank, and those whose removal fails. |
| `Generations.GenerationStore.Build` | crates/duckdb/src/db.rs:1109-1218 | A build that ends at any of its steps leaves the specified directories and view. |
| `Generations.GenerationStore.Remove` | crates/core/src/storage.rs:172-197 | The removal loop deletes exactly the directories that are unsealed or not listed to keep, except those whose removal fails, which it leaves. |
| `Generations.NewestTwo` | crates/duckdb/src/db.rs:1299-1305 | The last two of the sorted listing are the sealed generations outranked by fewer than two. |
| `Generations.SpillSurvivesExactly` | crates/duckdb/src/db.rs:1297-1306 | A spill's own generation survives its collection if and only if fewer than two sealed ones have greater identifiers, or its removal fails. |
| `Generations.SpillKeepsNewestTwo` | crates/duckdb/src/db.rs:1297-1306 | With a new greatest identifier, exactly the new generation, the newest sealed one and what could not be removed remain, unaltered. |
| `Generations.SpillCount` | crates/core/src/storage.rs:166-197 | So two directories remain, or one when nothing was sealed before, if all removals succeed. |
| `Generations.PreviousSurvivesExactly` | crates/duckdb/src/db.rs:1297-1306 | The generation read by the previous view survives the next spill if and only if it was sealed, or could not be removed. |
| `Generations.BuildKeepsSafe` | crates/duckdb/src/db.rs:1109-1218 | Every build keeps: the view's generation and every sealed one have their file, and no sealed one outranks the view's. |
| `Generations.GenerationsSafe` | crates/duckdb/src/db.rs:1109-1218 | The same over every run of builds that succeed or fail at any step, with increasing identifiers. |
| `Generations.SealedAreLastTwoSpills` | crates/core/src/storage.rs:166-197 | Over every such run the sealed generations on disk are those of the last two builds that spilled and, beside them, only spills that the last collection failed to remove. |
| `Generations.SpillLeavesOnlySealed` | crates/core/src/storage.rs:187-195 | Right after a spill with no failed removal the last two spills are all the directories there are: remains of failed builds and earlier failed removals are gone. |
| `Generations.ViewIsLastShown` | crates/duckdb/src/db.rs:1109-1218 | Over every run the view reads the generation of the last build that replaced it, unless a later build dropped it for a result in memory or in a failed rename. |
| `Generations.LeftUntilSpill` | crates/duckdb/src/db.rs:1158-1218 | Until the next spill a failed build's directory stays if it got as far as making one, unsealed, with its file unless the copy failed. |
| `GenerationIds.StorageSafeByClock` | crates/core/src/storage.rs:20-66 | Identifiers drawn in different milliseconds are all the two storage theorems need. |
| `GenerationIds.ListingIsChronological` | crates/core/src/storage.rs:161-163 | A sorted listing is in the order of the clock readings. |
| `Ulid.WriteDigits` | crates/core/src/storage.rs:46-63 | The shifting loop writes the base-32 digits of the number, most significant first, and nothing before them. |
| `Ulid.NewUlid` | crates/core/src/storage.rs:26-66 | The 26 characters are the time's ten digits and the tail's sixteen. |
| `Ulid.AlphabetExactly` | crates/core/src/storage.rs:21 | The alphabet consists of exactly the digits and the capitals other than I, L, O and U. |
| `Ulid.UlidIsCrockford` | crates/core/src/storage.rs:20-66 | Every character of an identifier is one of these. |
| `Ulid.UlidRoundTrip` | crates/core/src/storage.rs:20-66 | Decoding gives the 80-bit tail, and the time if and only if it is below two to the fiftieth (so for all 48-bit times). |
| `Ulid.UlidOrder` | crates/core/src/storage.rs:23-66 | For different milliseconds below that bound, string order is time order whatever the tails. |
| `Radix.DecodeEncode` | crates/core/src/storage.rs:46-63 | Fixed-width digits read back as the number modulo the width's capacity. |
| `Radix.EncodeOrder` | crates/core/src/storage.rs:46-63 | Over an increasing alphabet the digit text of smaller numbers is smaller. |
| `Calendar.DayNumberOrder` | crates/core/src/refresh.rs:735-760 | The Gregorian day count orders valid dates and is one-to-one. |
| `Calendar.DateOf` | crates/core/src/refresh.rs:735-760 | For every day number there is a valid date with that day count. |
| `Calendar.DaysToYmd` | crates/core/src/refresh.rs:735-764 | The scheduler's loops compute that date. |
| `Calendar.PassMonths` | crates/core/src/refresh.rs:751-758 | The month loop stops at a month of the year with the remaining days inside it. |
| `Calendar.DaysToYmdInline` | crates/core/src/storage.rs:215-252 | The storage helper's loops compute the same date, so the two conversions agree. |
| `Calendar.FormatRfc3339Secs` | crates/core/src/refresh.rs:718-733 | The scheduler's text is the stamp of the seconds. |
| `Calendar.FormatNow` | crates/core/src/storage.rs:200-213 | The storage helper's differently computed clock fields give the same stamp. |
| `Calendar.FourDigitYears` | crates/core/src/refresh.rs:718-733 | The seconds before 253402300800 are exactly those of years up to 9999, where the text has four year digits. |
| `Calendar.StampOrder` | crates/core/src/refresh.rs:718-733 | Up to the year 9999 the texts (section 5.6 of RFC 3339) sort as the seconds do. |
| `Calendar.YearReadsBack` | crates/core/src/refresh.rs:718-733 | The year has four digits or more and reads back, whatever its length. |
| `Calendar.StampReadsBack` | crates/core/src/refresh.rs:718-733 | Up to the year 9999 the text has the separators of section 5.6 of RFC 3339 in their places, and reading it by position gives back the seconds. |
| `Durations.ParseFormat` | crates/core/src/config.rs:99-115 | Parsing a printed duration never fails, no product wraps, and the 64-bit milliseconds are kept. |
| `Durations.RoundTripExactly` | crates/core/src/config.rs:41-61 | The round trip is the identity if and only if the duration is whole milliseconds that fit 64 bits. |
| `Durations.ParsedExactly` | crates/core/src/config.rs:48-60 | A number with a unit parses to that many units if and only if its seconds fit 64 bits; beyond that the product wraps without an error. |
| `Durations.ParsesExactly` | crates/core/src/config.rs:41-61 | A text is accepted if and only if it is a number below two to the sixty-fourth and one of the five units, in any case, with white space before, between and after; it is read as that many units. |
| `Durations.RefusedFor` | crates/core/src/config.rs:41-61 | A text is refused for its missing unit if and only if it has no letter, and for its number if and only if what comes before the first letter is none. |
| `Durations.WrappedMinutes` | crates/core/src/config.rs:55 | A concrete text of minutes that parses to 44 seconds. |
| `Durations.UnitIsCoarsest` | crates/core/src/config.rs:99-115 | No rendering of the same milliseconds uses a coarser unit. |
| `Pages.PagesPartition` | crates/core/src/models.rs:359-374 | A page whose offset fits 64 bits shows a row if and only if the row is below the limit and in that page's stretch, so pages are disjoint, adjoin and cover. |
| `Pages.RequestedPageShows` | crates/core/src/models.rs:359-374 | Page n of an allowed size shows a row if and only if it lies from (n - 1) times the size up to n times the size, and below the limit. |
| `Pages.OutOfRangeIsNearest` | crates/core/src/models.rs:359-362 | A page size of zero counts as one, one above the maximum as the maximum, and page zero as page one. |
| `Pages.WrappedPageExactly` | crates/core/src/models.rs:362 | A page whose offset does not fit is right if and only if a limit lies at or below the wrapped offset. |
| `Pages.WrappedPageShowsRowZero` | crates/core/src/models.rs:362 | A concrete page, two to the sixty-third plus one with two rows to a page, that shows row zero. |
| `Pages.PagesConcatenate` | crates/core/src/models.rs:359-374 | The first n pages one after another are a prefix of the rows below the limit. |
| `Pages.AllPagesReadEverything` | crates/core/src/models.rs:359-374 | Enough pages read every row below the limit once, in order. |
| `Schema.Find` | crates/core/src/schema.rs:60-132 | Lookup succeeds if and only if a column has that name up to case, returns the last such column, and fails with the name asked for. |
| `Schema.AllowsExactly` | crates/core/src/config.rs:1400-1409 | With an allowlist a column is allowed if and only if some listed name is the same up to case; without one, if and only if no name of the denylist is. |
| `Schema.WithFiltersExactly` | crates/core/src/schema.rs:80-102 | Filters are accepted if and only if each sets one list at most and lists columns only, up to case. |
| `Text.FoldAlikeExactly` | crates/core/src/config.rs:1401 | Two texts fold alike if and only if they have the same characters up to the case of ASCII letters. |
| `Schema.VisibleNames` | crates/core/src/schema.rs:116-121 | The visible listing holds columns that the filter's lists admit only, and is empty if and only if they admit none. |
| `Schema.HiddenLooksAbsent` | crates/core/src/schema.rs:134-143 | Lookup of a visible column succeeds if and only if the projection filter's lists admit a column of that name; a hidden column fails exactly as an unknown one. |
| `Query.EnforceColumnFilters` | crates/core/src/models.rs:391-429 | The checking loops accept, reject with the first offence, or narrow the projection, as specified. |
| `Query.CheckNames` | crates/core/src/models.rs:398-427 | The loop gives the specified verdict: success, or the error of the first name that is not visible. |
| `Query.PlanGrouping` | crates/core/src/models.rs:206-268 | The two filling loops produce the specified plan or its first error. |
| `QueryMeaning.EnforcedExactly` | crates/core/src/models.rs:376-429 | A request is accepted if and only if no filter lists anything, or its predicates name columns that both filters' lists admit and all else it names is a column that the projection filter's lists admit; nothing changes but a default projection, which becomes the columns these lists admit, in schema order. |
| `QueryMeaning.EnforcedError` | crates/core/src/models.rs:391-429 | A refused request gets the error of the first offending name in the order of checking: unknown when it is no visible column, forbidden when it is visible but not allowed in predicates. |
| `QueryMeaning.VisibleNamesExactly` | crates/core/src/schema.rs:115-121 | The visible listing holds the names of exactly the columns that the projection filter's lists admit, each once, in schema order. |
| `QueryMeaning.PlannedExactly` | crates/core/src/models.rs:199-268 | Which requests have a plan, and that it groups by the named columns and renders each aggregation (operation, column, given or default label) in order. |
| `QueryMeaning.PlannedError` | crates/core/src/models.rs:199-268 | Why a request has no plan: an invalid shape, else the first name to group by that is no column, else the first aggregation that is not sensible, as an unknown column or an invalid value. |
| `QueryMeaning.OrderPlanExactly` | crates/core/src/models.rs:294-350 | Ordering is accepted if and only if every direction is valid and every name is a column, or an output of the plan; the keys follow the entries in order and direction. |
| `QueryMeaning.OutputsForMeaning` | crates/core/src/models.rs:270-292 | HAVING is accepted if and only if every name is an output of the plan, and refers to the first such output. |
| `QueryExec.AcceptedReadsVisible` | crates/core/src/models.rs:185-350 | Every column that an accepted request filters, groups, aggregates, orders or projects by is visible, unless all are hidden. |
| `QueryExec.VisibleColumnsDecide` | crates/core/src/models.rs:185-429 | Noninterference: for every accepted request and every engine, tables that agree on visible columns give the same filtered, grouped, ordered, projected and paged result or the same error, unless all columns are hidden. |
| `QueryExec.IndependentExactly` | crates/core/src/models.rs:415-421 | Exactly when: an accepted request is independent of hidden columns if and only if it fails to resolve, some column is visible, there are no columns, or the page is empty. |
| `QueryExec.AllHiddenLeaks` | crates/core/src/models.rs:43 | A concrete schema with its only column denied whose default request returns that column. |
| `QueryResults.WhereExactly` | crates/duckdb/src/repository.rs:192-205 | WHERE keeps a row if and only if every predicate accepts the cell in its own column, each row once and in order. |
| `QueryResults.HavingExactly` | crates/duckdb/src/repository.rs:509-524 | HAVING keeps exactly the group rows that all its predicates accept, in order. |
| `QueryResults.DedupExactly` | crates/duckdb/src/repository.rs:267-293 | DISTINCT keeps each tuple once, where it first appears. |
| `QueryResults.MembersExactly` | crates/duckdb/src/repository.rs:240-266 | The members of a group are exactly the kept rows with its key, in order. |
| `QueryResults.ResolvesExactly` | crates/core/src/models.rs:185-350 | A request resolves if and only if it has a plan and every name in its predicates, HAVING, ordering and projection refers to a column, or to an output of the plan. |
| `QueryResults.ResolvedRefers` | crates/core/src/models.rs:185-350 | A resolved request refers, part by part and in order, to the columns, outputs, directions and aggregations that it names. |
| `QueryResults.PlainRequestExactly` | crates/duckdb/src/repository.rs:226-302 | What an ungrouped request returns: the rows that all predicates accept, in the engine's arrangement of their sort keys, projected to the named columns; with DISTINCT each tuple once. |
| `QueryResults.GroupedRequestExactly` | crates/duckdb/src/repository.rs:226-266 | What a grouped request returns: for every distinct key among the rows that all predicates accept one row, the key and the aggregations over exactly the rows with that key; of these the ones that all HAVING predicates accept, in the engine's arrangement of their sort keys. |
| `QueryResults.ArrangementKeepsAll` | crates/core/src/models.rs:294-350 | An arrangement that lists every position once only rearranges. |
| `QueryResults.FetchedPagesAreTheAnswer` | crates/core/src/models.rs:359-374 | Fetched by one request after another, enough pages hold every row of the answer below the limit once, in order. |
| `ChunkWriter.ArrowIpcChunkWriter.Write` | crates/core/src/backend.rs:114-121 | A write buffers, ships the buffer as one chunk at the target size, and fails only when shipping to a gone receiver. |
| `ChunkWriter.ArrowIpcChunkWriter.SendBuffered` | crates/core/src/backend.rs:103-111 | Shipping an empty buffer is a no-op; otherwise the buffer leaves as one chunk, or is lost when the receiver is gone. |
| `ChunkWriter.ArrowIpcChunkWriter.SendError` | crates/core/src/backend.rs:96-100 | An error discards the partial chunk before it is sent. |
| `ChunkWriter.ArrowIpcChunkWriter.Drop` | crates/core/src/backend.rs:128-135 | Dropping the writer ships the tail. |
| `ChunkWriter.RefinesAppending` | crates/core/src/backend.rs:85-135 | While the receiver lives, over every sequence of operations the chunks shipped since the last error followed by the buffer are exactly the bytes written since then. |
| `ChunkWriter.FlushShipsAll` | crates/core/src/backend.rs:123-135 | After a flush or a drop with a live receiver the chunks shipped since the last error are all bytes written since then. |
| `ChunkWriter.ErrorsAreShipped` | crates/core/src/backend.rs:95-100 | While the receiver lives every error is shipped with its message, in order. |
| `ChunkWriter.NothingAfterReceiverGone` | crates/core/src/backend.rs:103-111 | Once the receiver is gone nothing more is shipped. |
| `ChunkWriter.ChunksAreSized` | crates/core/src/backend.rs:85-135 | In every run no chunk is empty and the buffer stays below the target. |
| `ChunkWriter.WriteShipsFullChunks` | crates/core/src/backend.rs:114-121 | A write ships nothing, or all that is buffered as one chunk if and only if that is 64 KiB or more. |
| `ChunkWriter.NothingTrailsAnError` | crates/core/src/backend.rs:95-135 | An error is shipped with its message, and with no later write nothing more is shipped. |

## Left out

- Retrying: a cascade request that times out, fails or is coalesced is dropped by the program, so nothing-lost is stated up to the emission of the request.
- Cascade and scheduler shutdown, closed channels, the global build semaphore and the scheduler's priority among its event sources: the protocol allows more interleavings than the program takes. Results over all runs hold for the program's as well; where a run is claimed to exist its engine is on time and fires in batches (`CascadeRuns.EngineRun`), and all its components are prompt (`CascadePrompt.PromptRun`), except in `CascadePaths.PathsAreAttained` and what follows from it, whose scheduler lags.
- CascadeDiamondLaws.DiamondRefreshedOnceExactly: prompt runs serve the cascade's requests only. A scheduled tick in service, or a semaphore permit held elsewhere, would delay them and is not counted in the spread.
- Scheduler: durations are reals, so rounding of the jitter and overflow of very long intervals are not modelled; failure counters are unbounded; the random generator's bits are an arbitrary draw in [0, 1); the heap is a sequence whose minimum is removed, not the binary heap's layout.
- Refresh records shown by the status endpoint: the program overwrites the failure count there after each tick, so it is claimed of the heap entry only. TTL deletions and metrics are not modelled.
- The schedule list built from the configuration (`crates/core/src/server.rs:585-601`): a filter and map, it would only add easy members.
- Registry: operations run to completion one at a time, with the engine's work as an oracle; waiting on the per-dataset reload lock and its removal by unregister are not modelled. A timed-out or dead build is the `CutOff` answer.
- Startup: forcing lazily started datasets, storage warm-up and reuse of earlier generations are not modelled; unique dataset names are what configuration validation already ensures.
- Generations.GenerationStore.Remove: a removal succeeds or leaves its directory as it was; one that stops half-way is not modelled.
- Generation storage: the local backend only, and identifiers increase (one draw per millisecond at most); S3 listing and its deferred collection are not modelled. Reuse on start and manifest contents (hashes, sizes) are not modelled.
- Ulid.NewUlid: the clock reading and the ten tail bytes are inputs; how the bytes are derived from time and process state is not modelled.
- Schema.Find: names fold by ASCII case, the program folds by Unicode; likewise every other comparison that ignores case, and white space around a duration is ASCII.
- Query predicates: operators and operands are interpreted by the engine oracle; their validation, type casts and the generated SQL text are not modelled. HAVING is limited to plan outputs and, as in the program, not checked against the predicate filter.
- Error messages: the kind of error and the names it carries are modelled, not the wording.
- The sqlparser-based validation of raw SQL, the DataFusion backend, the Postgres wire protocol, HTTP handlers, authentication, the clients and the web assets: adapters over libraries, or each settled by reading one branch.
