# Verification of the dog-pack platform's core engines

This project models ten small engines of the platform in Dafny 4.11 and proves what each one
promises: the dispatch planner, the invocation queue, the template merge and sync, the cron engine,
the resumable migrator, the distillation checkpoint, the verdict event log, the memory lane, the
bounded rings (operations log and rotation continuity) and the dossier apply pipeline.

`dafny verify dfyconfig.toml` checks everything.

## How the model is laid out

Code that changes things step by step is modelled in that form: classes with the source's fields,
loops with invariants, arrays where the source fills one in place. Each such method is proved equal
to a function on values, or against a property stated outright; the lemmas then prove, about those
functions, what holds over every input, run or interleaving. What such a function computes is stated a
second time in other terms: as the text that reads back, the expression that matches, the fields that
decide, or case by case with the source's literal names.

| file | models |
|---|---|
| `DependencyGraph.dfy`, `AgentDispatch.dfy` | Kahn's sort with cycle detection and the guarded plan |
| `InvocationQueue.dfy`, `QueueAnswers.dfy`, `QueuePolicy.dfy`, `Starvation.dfy` | the priority queue as a class; what each operation answers; what the scheduling policy guarantees over runs, and to whom it does not |
| `JsonMerge.dfy`, `JsonMergeLaws.dfy`, `TemplateSync.dfy` | the recursive config merge, its laws, and the restart-to-restart sync |
| `Calendar.dfy`, `CronField.dfy`, `CronText.dfy`, `Cron.dfy`, `CronLine.dfy` | a Gregorian calendar in UTC, field parsing, reading fields and whole lines back from text, and `Next` |
| `CronHorizon.dfy`, `CronGaps.dfy`, `CronPosix.dfy` | exactly when `Next` can be relied on to fire, how long it takes, and where its matching rule leaves POSIX |
| `Migrator.dfy` | the migration with a cancellation, failure or crash possible at every I/O step |
| `Checkpoint.dfy` | one `record` call, and any number of them interleaved between lock acquisitions |
| `Closure.dfy` | the projection, the two stores, and concurrent clients of the Redis one |
| `Lanes.dfy` | the lifecycle of lane entries and its undo stack |
| `LogRing.dfy`, `Continuity.dfy` | two fixed-size structures and the unbounded logs they stand for |
| `DossierApplier.dfy`, `DossierSections.dfy`, `DossierService.dfy` | drafting a section edit, what it does to the other sections, and the proposal pipeline around it |
| `Basics.dfy`, `Text.dfy`, `Numerals.dfy` | quotients and remainders, white space, decimal numerals |

## Where the code and its documentation disagree

The model follows the code. Each of these is a proved statement.

- Batched items do not "execute consecutively" (`internal/dispatch/invocation_queue.go:32-35`):
  `QueuePolicy.BatchServedApart` has users a, b, a served in that order. Batching only moves an item
  inside the slice, and selection never looks at slice positions (`QueuePolicy.BatchingInvisible`).
  Two items are served together exactly when nothing ranks between them
  (`QueuePolicy.ServedTogetherIff`).
- `SyncTemplateBreeds` is documented as idempotent and as never resurrecting a deleted dog
  (`internal/platform/breeds_merge.go:180-187`). On an old catalog the seen set is seeded in memory
  and never saved, so a deleted dog can come back on the second restart
  (`TemplateSync.OldCatalogResurrects`, with an input: `TemplateSync.MigrationResurrects`), and so can
  one the user had added by hand before the template offered it (`TemplateSync.HandAddedResurrects`).
  `TemplateSync.ResurrectsIff` and `TemplateSync.SecondSyncIsNoOp` say exactly when.
- A cron step so large that the loop counter overflows int64 puts values outside the field's range
  into the set: "1-1/9223372036854775807" parses and allows -1 (`CronText.HugeStepParses`; exactly when:
  `CronField.FieldInRangeIff`).
- Finding no match within the horizon is said not to happen for valid schedules
  (`internal/scheduler/cron.go:194`). It does: `Next` hands back its argument for "0 0 29 2 *" across a
  century year without a leap day (`CronHorizon.LeapDayMissed`), for "0 0 1 1 1" asked on 2 January 2018
  (`CronGaps.NewYearMondayMissed`) and always for 30 February (`CronGaps.NeverFiresIff`). `CronHorizon.AlwaysFiresIff` says exactly which
  schedules are safe, `CronHorizon.AlwaysFiresByDateIff` in terms of dates when the day of week is
  starred; with the month starred all of them are (`CronGaps.MonthStarredFires`).
- Day of month and day of week are both required when both are restricted
  (`Cron.MatchesIsConjunction`). The crontab utility of POSIX.1-2017 (section INPUT FILES) accepts
  either the date fields or the day of week. `CronPosix.DifferIff` says on which minutes the two
  differ, `CronPosix.AgreeIff` for which schedules they never do; `CronPosix.MondayAfterNewYear` is an
  input.
- The fairness limit is said to bound connector starvation
  (`internal/dispatch/invocation_queue.go:10-12`, `internal/dispatch/queue_item.go:14-16`). It counts
  agent items only, so urgent user items can pass a waiting connector without end, unless promotion
  is due for that very connector or it is urgent itself: `Starvation.CanPassForeverIff` says exactly
  when, and that otherwise fewer items pass than are queued.
- A draft is said never to touch a matching text in another dog's section
  (`internal/dossier/applier.go:46-52`). It does not, yet it can move that section into the edited dog's
  or take its place: by swallowing the line break before the next heading
  (`DossierSections.LostLineBreak`), or by bringing in a heading with another dog's tag
  (`DossierSections.HijackedSection`). `DossierSections.DraftKeepsSectionIff` says exactly when a dog
  keeps its section, in terms of the old text and the rewritten section;
  `DossierSections.PlainEditSpares` names the edits that are safe for all.
- A base hash shorter than eight characters passes validation and makes drafting panic while it
  builds its error message (`DossierApplier.SliceOutOfRangeIff`), for every such proposal that gets
  approved (`DossierService.ShortHashPanics`; with the hash "abc": `DossierService.AbcHashPanics`).
- Creator, approver and applier are documented to be three hands (`internal/dossier/proposal.go:15-16`);
  the target dog may approve and then apply (`DossierService.TargetApprovesAndApplies`; exactly when:
  `DossierService.ApproverAppliesIff`).
- A commit that landed while git failed to name it is taken for a failure: the file is rolled back
  under a commit that stays (`DossierService.HeadIsTextIff`). The rollback is to let a retry start
  clean (`internal/dossier/service.go:97-98`), but git has nothing to commit then: the proposal is
  stuck until something else is committed and the file is back to its text
  (`DossierService.RetryAfterUnreportedIff`).
- Two breeds whose ids differ only in characters unfit for a file name share one continuity ring
  (`Continuity.CollidingBreeds`, `Continuity.SeparateIff`).
- Re-running the template merge changes nothing for id-keyed arrays with unique string ids
  (`JsonMergeLaws.MergeAbsorbs`); with repeated ids it may (`JsonMergeLaws.RepeatedIdsBreakAbsorption`)
  or may not (`JsonMergeLaws.RepeatedIdsMayBeHarmless`), exactly as `JsonMergeLaws.AbsorbsIff` and
  `JsonMergeLaws.MergeSelfIff` say.
- `itoa` writes "-" for the smallest int64; every other value reads back
  (`InvocationQueue.ItoaReadsBack`).
- The ping-pong guard of the planner can never decide an entry, whatever the input, duplicate ids
  included (`AgentDispatch.CyclicEntries`): both halves of a mutual pair are already blocked as cyclic.
- Two of the ten closure states, main_landed and live_active, are never projected
  (`Closure.ProjectState`).
- `Approve` is documented to retire approved entries with overlapping content
  (`internal/memory/lanes.go:105-106`). It touches the named entry only
  (`Lanes.OnlyNamedEntryMoves`), so two approved entries can hold the same content
  (`Lanes.OverlappingTruths`). No two do after an approval exactly when none did before and none held
  the content approved (`Lanes.ApproveOverlapIff`).
- A document once recorded as failed is never tried again by a later `SyncData`
  (`Migrator.StatusOnlyLeavesPending`).

## Model

| member | source | states |
|---|---|---|
| AgentDispatch.TopologicalSortDetectCycle | internal/capability/agent_dispatch.go:110-156 | for every list, duplicate ids and repeated dependencies included, and every order in which Go ranges over the in-degree map: the sorted part holds one task per id after all its known dependencies, the unresolved part is every other task in input order, and each of those waits on an unsorted one; the loop terminates |
| AgentDispatch.IndexTasks | internal/capability/agent_dispatch.go:116-119 | each id maps to its last task and starts at in-degree zero |
| AgentDispatch.BuildGraph | internal/capability/agent_dispatch.go:111-127 | in-degrees and dependents lists count every occurrence of a known dependency, an unknown one never |
| AgentDispatch.AddDependencies | internal/capability/agent_dispatch.go:121-126 | one task's inner loop keeps the two maps in step with the arcs read so far |
| AgentDispatch.SeedQueue | internal/capability/agent_dispatch.go:129-135 | in any map order the queue gets exactly the ids of in-degree zero, once each |
| AgentDispatch.Release | internal/capability/agent_dispatch.go:141-146 | emitting a task lowers each waiting task by its number of waits and queues exactly those that reach zero, each once |
| DependencyGraph.OpenAfterEmit | internal/capability/agent_dispatch.go:120-146 | repeated entries in a dependency list are counted alike when the in-degree is built and when it is paid back |
| DependencyGraph.UnresolvedIffCycle | internal/capability/agent_dispatch.go:109-156 | a task is unresolved if and only if some chain of its dependencies runs into a cycle |
| DependencyGraph.UnresolvedNonEmptyIffCyclic | internal/capability/agent_dispatch.go:109-156 | something is left unresolved if and only if the list contains a cycle |
| DependencyGraph.SplitIsPartition | internal/capability/agent_dispatch.go:110-156 | with distinct ids, sorted and unresolved together are the input as multisets |
| DependencyGraph.LastWithIdIsLast | internal/capability/agent_dispatch.go:116-119 | of tasks with one id the last counts |
| DependencyGraph.WithoutInOrder | internal/capability/agent_dispatch.go:149-154 | the unresolved tasks stand in input order |
| DependencyGraph.ChainDescends | internal/capability/agent_dispatch.go:137-148 | along any dependency chain that starts at a sorted task all tasks are sorted and their positions strictly fall |
| DependencyGraph.UnresolvedChain | internal/capability/agent_dispatch.go:149-154 | from an unresolved task there are dependency chains of every length |
| DependencyGraph.Pigeonhole | internal/capability/agent_dispatch.go:137-154 | a chain longer than the number of ids repeats one |
| AgentDispatch.Run | internal/capability/agent_dispatch.go:24-87 | the three maps of the guard loop decide every entry as the guards read off the entries already planned would, in the guards' order, over a correct topological split |
| AgentDispatch.HasSkippedDependency | internal/capability/agent_dispatch.go:159-167 | true exactly when some dependency was planned with a status other than pending |
| AgentDispatch.IsPingPong | internal/capability/agent_dispatch.go:170-187 | true exactly when some pending entry and the task depend on each other |
| AgentDispatch.CountSkipped | internal/capability/agent_dispatch.go:190-198 | counts all entries that are not pending |
| AgentDispatch.NeverPingPong | internal/capability/agent_dispatch.go:67-69 | no sorted task is mutually dependent with an earlier entry |
| AgentDispatch.PendingDependenciesFirst | internal/capability/agent_dispatch.go:43-77 | every known dependency of a pending entry is itself pending and earlier in the plan |
| AgentDispatch.BreedWithinDepth | internal/capability/agent_dispatch.go:61-73 | no breed has more than max(maxDepth, 0) pending entries |
| AgentDispatch.PendingKeysDistinct | internal/capability/agent_dispatch.go:64-72 | pending entries have pairwise different dedup keys and ids |
| AgentDispatch.EntryDecided | internal/capability/agent_dispatch.go:51-77 | how every entry of every plan is decided, in terms of the plan and the tasks alone: cyclic, an earlier entry it depends on not pending, its breed unknown, as many earlier pending entries of the breed as the limit, an earlier pending entry whose task has the same breed, title and description put together, and otherwise pending; the first of these that holds gives status and reason |
| AgentDispatch.EntryIsTask | internal/capability/agent_dispatch.go:43-49 | every entry names a task and carries its breed, its dependencies and its position as priority; off the cycles the task is the last of its id |
| AgentDispatch.PlanAccounts | internal/capability/agent_dispatch.go:78-79 | skipped is the number of entries that are not pending, every input id has an entry, and with distinct ids every task has exactly one |
| AgentDispatch.CyclicEntries | internal/capability/agent_dispatch.go:51-74 | an entry is blocked as cyclic if and only if its dependency chains run into a cycle, and no entry is ever skipped as ping-pong |
| InvocationQueue.Itoa | internal/dispatch/invocation_queue.go:241-261 | the backwards digit loop over a 20-byte buffer never leaves it and writes the decimal text, on wrapping int64 |
| InvocationQueue.ItoaReadsBack | internal/dispatch/invocation_queue.go:241-261 | the text reads back to the number if and only if it is not the smallest int64 |
| InvocationQueue.NewItemIdsDiffer | internal/dispatch/invocation_queue.go:237-239 | ids made from different sequence numbers differ |
| Numerals.ReadDecimalBack | internal/dispatch/invocation_queue.go:251-255 | the digits written for a number read back to it |
| Numerals.DecimalLength | internal/dispatch/invocation_queue.go:249-255 | a number below a power of ten has at most that many digits, so nineteen are enough for int64 |
| Text.SpaceNumbers | internal/scheduler/cron.go:123 | which characters count as white space, by number |
| Text.TrimsSpace | internal/settings/continuity.go:107-108 | trimming takes white space off both ends and leaves none there |
| InvocationQueue.Queue.constructor | internal/dispatch/invocation_queue.go:39-44 | an empty queue with batching on and a starve limit of four |
| InvocationQueue.Queue.SetA2ASaturation | internal/dispatch/invocation_queue.go:48-52 | sets the busy flag and nothing else |
| InvocationQueue.Queue.SetBatching | internal/dispatch/invocation_queue.go:55-59 | sets the batching flag and nothing else |
| InvocationQueue.Queue.Enqueue | internal/dispatch/invocation_queue.go:71-99 | refines the value-level insertion: fresh sequence number, generated id when none is given, position after the user's last item or at the end |
| InvocationQueue.Queue.AfterLastOfUser | internal/dispatch/invocation_queue.go:84-90 | the backward search finds the place after the user's last queued item, or the end |
| InvocationQueue.Queue.HasKindLocked | internal/dispatch/invocation_queue.go:176-183 | true exactly when an item of the kind is queued |
| InvocationQueue.Queue.SelectIndexLocked | internal/dispatch/invocation_queue.go:140-174 | the loop agrees with the selection function, promotion decided once beforehand |
| InvocationQueue.Queue.RemoveLocked | internal/dispatch/invocation_queue.go:111-119 | takes out one item and moves the fairness counter: connector resets, agent counts, user leaves it |
| InvocationQueue.Queue.Dequeue | internal/dispatch/invocation_queue.go:103-121 | new state and answer are those of the policy's Dequeue step |
| InvocationQueue.Queue.Peek | internal/dispatch/invocation_queue.go:124-131 | answers what Dequeue would, changing nothing |
| InvocationQueue.Queue.TryAutoExecute | internal/dispatch/invocation_queue.go:190-215 | takes the selected item only when it is marked for auto-execution, before the callback and whatever that returns |
| InvocationQueue.Queue.HasQueuedNonAgentForThread | internal/dispatch/invocation_queue.go:220-229 | true exactly when a user or connector item of the thread is queued |
| QueueAnswers.DequeueServes | internal/dispatch/invocation_queue.go:133-174 | by the fields of the items alone: among the items, or among the connectors when the busy channel owes one, a dequeue serves exactly the item that goes before all others: those that are urgent or of the largest priority first, then the higher priority, then the earlier arrival |
| QueueAnswers.DequeueLeaves | internal/dispatch/invocation_queue.go:103-121 | what is served is gone and all else stays; the fairness counter goes to zero for a connector, up by one for an agent item, and stays for a user item |
| QueueAnswers.DrainsAhead | internal/dispatch/invocation_queue.go:140-174 | on a channel that is not busy the queue drains in that order of urgency, priority and arrival |
| QueueAnswers.PeekForetells | internal/dispatch/invocation_queue.go:124-131 | a peek shows what the next dequeue serves and changes nothing |
| QueueAnswers.AutoExecutesIff | internal/dispatch/invocation_queue.go:190-215 | an item is executed exactly when the one a dequeue would serve is marked for it; it is then taken as a dequeue takes it, and otherwise nothing changes |
| QueueAnswers.WaitsOnThreadIff | internal/dispatch/invocation_queue.go:220-229 | a thread is answered for exactly when a user or connector item of it is queued |
| QueueAnswers.EnqueuesLast | internal/dispatch/invocation_queue.go:82-98 | without batching, for an item of no named user, and for the first of a user, the place is the end |
| QueueAnswers.EnqueueKeepsId | internal/dispatch/invocation_queue.go:71-81 | an item keeps the id it brings, and gets "inv-" and its number otherwise; nothing else in the queue changes |
| QueueAnswers.GeneratedIdsDiffer | internal/dispatch/invocation_queue.go:71-78 | over any run no two items that came without an id are given the same one |
| QueuePolicy.SelectedIsBest | internal/dispatch/invocation_queue.go:140-174 | the selected item is preferred to every other queued item |
| QueuePolicy.StepKeepsInv | internal/dispatch/invocation_queue.go:71-121 | every operation keeps sequence numbers distinct and below the last one handed out |
| QueuePolicy.StepIgnoresLayout | internal/dispatch/invocation_queue.go:71-229 | two queues with the same items in any slice order answer every operation alike and hold the same items afterwards |
| QueuePolicy.BatchingInvisible | internal/dispatch/invocation_queue.go:32-35 | dropping every batching switch from any run, from any two layouts of the same items, changes no dequeue, peek, auto-execution or answer |
| QueuePolicy.BatchedBehindSameUser | internal/dispatch/invocation_queue.go:82-95 | with batching on, the item sits right behind the last queued item of its user |
| QueuePolicy.ServedTogetherIff | internal/dispatch/invocation_queue.go:32-35 | two queued items of an idle queue are served one right after the other if and only if the first outranks the second and no queued item ranks between them |
| QueuePolicy.BatchServedApart | internal/dispatch/invocation_queue.go:32-35 | users a, b, a at equal priority: batching puts both items of a side by side, and the item of b is served between them |
| QueuePolicy.RunConserves | internal/dispatch/invocation_queue.go:71-215 | over any run, initial items plus enqueued equal served plus still queued, as multisets |
| QueuePolicy.DrainIsSorted | internal/dispatch/invocation_queue.go:103-174 | draining a queue whose channel is not busy yields all its items, by effective priority descending and then sequence ascending |
| QueuePolicy.BoundedWaiting | internal/dispatch/invocation_queue.go:103-174 | while the channel stays busy and no better connector arrives, a connector still queued has seen at most (k + 1) times the limit agent items served, k being the connectors that outranked it, whatever else is interleaved |
| QueuePolicy.PromotionServesBestConnector | internal/dispatch/invocation_queue.go:133-152 | once the limit is reached on a busy channel the next dequeue serves a connector, and the best one |
| Starvation.CanPassForeverIff | internal/dispatch/invocation_queue.go:103-152 | on the busy channel, with no better connector arriving: any number of items can be served while a queued connector waits, if and only if it still waits once the queued urgent items are served and then the limit is not reached or another connector goes first; if not, fewer items pass it than are queued now |
| Starvation.WithoutUrgentBacklog | internal/dispatch/invocation_queue.go:10-13 | with no urgent item queued, any number can pass if and only if there is a limit and either the agent counter is below it or a better connector is queued |
| Starvation.UrgentConnectorIsSafe | internal/dispatch/queue_item.go:9-16 | an urgent connector is not exposed in that way, whatever the counters and the rest of the queue |
| Starvation.PlanPasses | internal/dispatch/invocation_queue.go:113-119 | an explicit run that keeps an exposed connector waiting for any number of served items |
| Starvation.NoMoreThanBacklog | internal/dispatch/invocation_queue.go:103-152 | while a connector that is not exposed waits, every run serves fewer items than the queue held with it, later arrivals that do not outrank it notwithstanding |
| JsonMerge.DeepMergeConfig | internal/platform/breeds_merge.go:99-118 | in whatever order Go ranges over the overlay, the loop computes the recursive merge |
| JsonMerge.MergeByID | internal/platform/breeds_merge.go:145-178 | the three loops compute the merged overlay items followed by the base items whose id none of them took |
| JsonMerge.IndexById | internal/platform/breeds_merge.go:146-153 | the id map answers with the last base item of each string id |
| JsonMerge.MergeOverlay | internal/platform/breeds_merge.go:154-169 | every overlay item, in order, merged over the base item of its id; items that are no objects stay |
| JsonMerge.Backfill | internal/platform/breeds_merge.go:170-176 | appends in base order exactly the base items with an id not taken |
| JsonMerge.Merge | internal/platform/breeds_merge.go:99-118 | the result has exactly the keys of either side |
| JsonMergeLaws.MergeAbsorbs | internal/platform/breeds_merge.go:94-178 | at every depth, for trees whose id-keyed arrays have unique string ids: merge(b, merge(b, o)) = merge(b, o) and merge(b, b) = b |
| JsonMergeLaws.MergeIsOverlayIff | internal/platform/breeds_merge.go:99-178 | merging leaves the overlay as it is if and only if the overlay covers the base: it has the keys and ids of the base, and what both hold in a place the merge descends into is covered in turn |
| JsonMergeLaws.MergeSelfIff | internal/platform/breeds_merge.go:99-178 | merge(b, b) = b if and only if every reachable item covers the last item with its id |
| JsonMergeLaws.AbsorbsIff | internal/platform/breeds_merge.go:99-178 | for all trees, merge(b, merge(b, o)) = merge(b, o) if and only if what the second merge meets again is settled: items the base shares, base-only items that cover the last of their id, base-only keys that merge with themselves unchanged |
| JsonMergeLaws.RepeatedIdsBreakAbsorption | internal/platform/breeds_merge.go:145-178 | one tree with a repeated id that changes when merged with itself |
| JsonMergeLaws.RepeatedIdsMayBeHarmless | internal/platform/breeds_merge.go:145-178 | two trees without unique string ids that stay as they are when merged with themselves |
| JsonMergeLaws.OverlayWins | internal/platform/breeds_merge.go:87-118 | along any path of keys and ids, a leaf of the overlay, or anything under one of its atomic keys, is in the result against every base |
| JsonMergeLaws.BaseBackfills | internal/platform/breeds_merge.go:94-178 | where the overlay has no entry along a path, the base's value appears unchanged |
| JsonMergeLaws.NothingInvented | internal/platform/breeds_merge.go:99-178 | every leaf of the result is the overlay's or the base's leaf at the same path |
| JsonMergeLaws.MergedOrder | internal/platform/breeds_merge.go:145-178 | a merged array lists the overlay's ids in their order, then the base's other ids in theirs |
| JsonMergeLaws.MergeItemKeepsId | internal/platform/breeds_merge.go:162-168 | an item keeps its id when a base item is merged under it |
| JsonMergeLaws.MergedField | internal/platform/breeds_merge.go:87-115 | for all trees, key by key: the side that has the key; the overlay whole under "color" and "voice_config"; two objects under any other key merged, with the keys of both; and else the overlay |
| JsonMergeLaws.MergedArrays | internal/platform/breeds_merge.go:103-137 | two arrays are merged item by item exactly when neither is empty and all their items are objects with an "id", and else the overlay stands |
| JsonMergeLaws.MergedItem | internal/platform/breeds_merge.go:145-168 | an overlay item is merged over the last base item with the same text as "id", and stays as it is when there is none |
| JsonMergeLaws.BackfilledItems | internal/platform/breeds_merge.go:169-176 | behind the overlay items stand exactly the base items with a text as "id" that no object of the overlay has |
| TemplateSync.SyncTemplateBreeds | internal/platform/breeds_merge.go:188-265 | for every template and map order: the first run only marks seen, a later run adds exactly the new dogs, from whichever key holds them; a template filed by id leaves one result only |
| TemplateSync.AddNewDogs | internal/platform/breeds_merge.go:238-260 | the loop adds exactly the offered dogs that are neither in the catalog nor seen, switched on, with their default variant filled in, and marked seen |
| TemplateSync.AddIfNew | internal/platform/breeds_merge.go:241-259 | one template entry is added if and only if it is genuinely new |
| TemplateSync.SyncIsFunction | internal/platform/breeds_merge.go:188-265 | when each dog is filed under its own id, the order Go ranges in makes no difference |
| TemplateSync.SettingsStore.CreateBreed | internal/settings/file_store.go:577-599 | a dog without an id gets the generated one, a missing default variant becomes the first variant, and the catalog exists from then on; deletions and the seen set stay |
| TemplateSync.SettingsStore.DeleteBreed | internal/settings/file_store.go:622-646 | a known dog moves to the deletions, an unknown one is an error that changes nothing |
| TemplateSync.SettingsStore.AddSeenTemplateBreeds | internal/settings/file_store.go:701-718 | adds the non-empty ids, and writes the catalog only when one is new |
| TemplateSync.SyncKeepsCatalog | internal/platform/breeds_merge.go:188-265 | a sync with any template changes and removes no dog; each dog it adds is one of the template, switched on, the first variant its default where none is named, and marked seen |
| TemplateSync.SeenGrows | internal/platform/breeds_merge.go:180-260 | over any run of restarts with any templates, creates and deletes the persisted seen set only grows |
| TemplateSync.SeenNeverAdded | internal/platform/breeds_merge.go:238-247 | an id in the persisted seen set is never added again by any later restart |
| TemplateSync.AddedAtMostOnce | internal/platform/breeds_merge.go:238-260 | no two restarts of a run add the same dog, whatever happens in between and however the template changes |
| TemplateSync.SecondSyncIsNoOp | internal/platform/breeds_merge.go:186-187 | a second sync with the same template, whatever it is, changes nothing, if and only if not: the seen set of an existing catalog was empty, the first sync added a dog, and the template offers a deleted dog; or there was no catalog, the first sync created one, and a dog under a key other than its id is neither marked seen nor in the catalog |
| TemplateSync.ResurrectsIff | internal/platform/breeds_merge.go:215-226 | a sync brings back a deleted dog if and only if the catalog exists, the template offers it, and the seen set is non-empty without it |
| TemplateSync.OldCatalogResurrects | internal/platform/breeds_merge.go:211-226 | on a catalog without a seen set, when the first restart adds a dog the second brings back every deleted dog the template offers |
| TemplateSync.MigrationResurrects | internal/platform/breeds_merge.go:211-226 | a concrete old catalog and template where the second restart resurrects a deleted dog |
| TemplateSync.HandAddedResurrects | internal/platform/breeds_merge.go:245-247 | a dog created by hand before the template offers it, then deleted, is added again by the next restart |
| TemplateSync.FirstRunIsStable | internal/platform/breeds_merge.go:228-236 | the first run leaves the catalog as it is; repeating it changes nothing if and only if it marked nothing new or every dog it offers is in the catalog, marked seen or filed under its own id, as it always is in a template filed by id |
| TemplateSync.RunKeepsClean | internal/settings/file_store.go:701-718 | over any run the empty id enters neither the catalog nor the seen set nor the deletions |
| TemplateSync.CreatedDog | internal/settings/file_store.go:577-599 | a dog the user creates is filed under its id or the generated one, its first variant the default when it names none, all else as given |
| TemplateSync.AddedDog | internal/platform/breeds_merge.go:238-260 | a dog a restart adds is one of the template, switched on, with the same rule for the default variant |
| TemplateSync.DeletedDog | internal/settings/file_store.go:622-646 | a deleted dog leaves the catalog and joins the deletions, and nothing else changes |
| Calendar.DayNumberOfDate | internal/scheduler/cron.go:197-206 | counting days forward agrees with the closed day number |
| Calendar.DateOfDayNumber | internal/scheduler/cron.go:197-206 | every valid date is reached by counting, so dates and day numbers correspond one to one |
| Calendar.YearLength | internal/scheduler/cron.go:184-195 | a year has 366 days exactly when it is a leap year |
| Calendar.FourYearsIsFar | internal/scheduler/cron.go:184-187 | the horizon lies at least 1460 days ahead, whatever century years it crosses |
| CronField.ParseField | internal/scheduler/cron.go:116-158 | the loops over parts and steps compute the field set, or fail on the first part that does not parse |
| CronField.StrideExact | internal/scheduler/cron.go:146-148 | when the first addition does not overflow, a value is visited if and only if it is in the range and a whole number of steps from its start |
| CronField.StrideInRange | internal/scheduler/cron.go:146-148 | the loop on wrapping int64 stays in its range unless its first addition overflows, in which case it yields a negative value |
| CronField.StrideWraps | internal/scheduler/cron.go:146-148 | when the first addition overflows, the visited values from 0 on lead down from the start in even steps |
| CronField.StrideLoop | internal/scheduler/cron.go:134-148 | the loop terminates on wrapping int64, even when the counter overflows, and collects exactly the stride |
| CronField.FieldUsable | internal/scheduler/cron.go:116-158 | every field that parses allows some value of its range |
| CronField.FieldInRangeIff | internal/scheduler/cron.go:116-158 | the parsed set lies in the field's range if and only if no part's lower bound plus step overflows int64 |
| CronField.FieldMeaning | internal/scheduler/cron.go:116-158 | a value from 0 on is allowed if and only if one of the comma-separated parts stands for it: up by steps from its lower bound, or down from it when the step overflows int64 |
| CronField.HugeStepLeavesRange | internal/scheduler/cron.go:125-148 | stepping by the largest int64 comes back below the range |
| CronText.PartReadsBack | internal/scheduler/cron.go:123-155 | every part that fits its field reads back from its text in each of the six ways to write one: star or range with or without a step, and a value with or without one, where the step is idle |
| CronText.FieldReadsBack | internal/scheduler/cron.go:116-158 | every non-empty list of such parts written out as a field parses back to those parts and to the set they stand for, a lone star to no restriction |
| CronText.HugeStepParses | internal/scheduler/cron.go:116-158 | every range whose step overflows int64 parses when written out as a field, and its set holds a negative value |
| CronText.SplitJoined | internal/scheduler/cron.go:121-123 | splitting at commas undoes joining with them |
| CronText.FieldAllowsIff | internal/scheduler/cron.go:116-158 | without overflow a written field allows a value of its range exactly when one of its parts does: the whole range for a star, every n-th value from the lower bound with a step, all values from lo to hi for a range without one |
| CronText.AtoiSigns | internal/scheduler/cron.go:125-150 | a number may carry a sign, and one beyond int64 is refused |
| CronText.AtoiRefuses | internal/scheduler/cron.go:125-150 | text without a digit or with anything else in it is no number |
| Cron.ParseCron | internal/scheduler/cron.go:88-114 | succeeds exactly when there are five words and each parses in its field's range, and returns those five sets |
| CronLine.LineReadsBack | internal/scheduler/cron.go:88-114 | five fields that fit, written out and spaced in any way, parse to the schedule with their sets in the order minute, hour, day of month, month, day of week |
| CronLine.DailyReadsBack | internal/scheduler/cron.go:88-114 | the line of a minute, an hour and three stars parses to the daily schedule at that time |
| CronLine.WordsReadBack | internal/scheduler/cron.go:89-92 | a line gives back its words, however they are spaced |
| CronLine.NotFiveWords | internal/scheduler/cron.go:89-92 | a line of any other number of words is refused |
| Cron.MatchesIsConjunction | internal/scheduler/cron.go:197-215 | a minute matches if and only if all five fields match, day of month and day of week both |
| CronPosix.DifferIff | internal/scheduler/cron.go:197-215 | POSIX accepts every minute the code does; they differ on a minute if and only if the day of week is restricted and so is month or day of month, the time matches, and exactly one of date fields and weekday does |
| CronPosix.AgreeIff | internal/scheduler/cron.go:197-215 | a parsed schedule means the same under both rules if and only if it does not restrict both, or allows every date and every weekday |
| CronPosix.MondayAfterNewYear | internal/scheduler/cron.go:207-209 | "0 0 1 1 1" on Monday, 8 January of year 1: POSIX fires, the code does not |
| Cron.NextCron | internal/scheduler/cron.go:184-195 | the first matching minute after the instant when it lies before the horizon, the instant itself when none does |
| Cron.NextIsUnique | internal/scheduler/cron.go:184-195 | at most one instant is the next one |
| Cron.IterationVisitsMatches | internal/scheduler/cron.go:166-215 | iterating Next visits exactly the matching minutes after the start up to the last one visited, strictly increasing, none skipped or repeated |
| Cron.ParsedIsWellFormed | internal/scheduler/cron.go:88-158 | whatever parses allows some value in each of its five ranges |
| Cron.DailyFiresWithinADay | internal/scheduler/cron.go:184-215 | with the three date fields starred, Next fires within 1440 minutes |
| Cron.WeeklyFiresWithinAWeek | internal/scheduler/cron.go:184-215 | with only the day of week restricted, Next fires within 7 days |
| Cron.YearlyFiresWithinAYear | internal/scheduler/cron.go:184-215 | with the day of week starred and some allowed date that exists in every year, Next fires within 366 days, for every year and century |
| CronHorizon.AlwaysFiresIff | internal/scheduler/cron.go:184-195 | a parsed schedule fires from every instant if and only if each of the 146097 days of one calendar cycle is covered: a matching day lies inside the horizon of a scan from it, with the first and the last day told apart by time of day |
| CronHorizon.CycleOfDays | internal/scheduler/cron.go:184-195 | dates, weekdays and horizons repeat after 146097 days |
| CronHorizon.AlwaysFiresByDateIff | internal/scheduler/cron.go:184-195 | with the day of week starred, Next fires from every instant if and only if some allowed date exists in every year, and then within 366 days |
| CronHorizon.LeapDayGapFallsBack | internal/scheduler/cron.go:184-187 | every schedule that allows 29 February at most falls back on 1 March before every gap of eight years |
| CronHorizon.LeapDayMissed | internal/scheduler/cron.go:184-195 | "0 0 29 2 *" falls back on 1 March 1896 although 29 February 1904 matches |
| CronGaps.MonthStarredFires | internal/scheduler/cron.go:184-215 | with the month starred Next fires whatever days of the month and the week are asked for, within 427 days for a day up to 30 and 609 for day 31 |
| CronGaps.MonthStarredAlwaysFires | internal/scheduler/cron.go:184-215 | so every parsed schedule with the month starred fires from every instant |
| CronGaps.AcrossYears | internal/scheduler/cron.go:207-208 | from the last month of a year in which a day falls on a weekday to the first of the next such year it is at most 427 or 609 days |
| CronGaps.MeetsAgain | internal/scheduler/cron.go:207-208 | from any day on, a day of the month falls on a given weekday again within that gap |
| CronGaps.NewYearMondayMissed | internal/scheduler/cron.go:184-215 | "0 0 1 1 1" asked on 2 January of a year like 2018 falls back, although it matches on 1 January six years on |
| CronGaps.Year2018 | internal/scheduler/cron.go:184-215 | 2018 is such a year |
| CronGaps.NeverFiresIff | internal/scheduler/cron.go:184-215 | a parsed schedule never fires if and only if none of its dates exists in any year |
| Cron.NextDaily | internal/scheduler/cron.go:170-176 | a daily schedule's next instant is later, at most a day away, and at the given time of day |
| Cron.DailyIsCron | internal/scheduler/cron.go:166-195 | daily schedules and the cron line "minute hour * * *" give the same instant for every argument |
| Migrator.Migrator.SyncData | internal/ragstore/migrator.go:86-129 | however the run ends, rows are never lost, statuses only leave pending, a row newly done has its document in the target and the target gains retired documents only; without faults it settles everything and reports nothing pending, and the counts are exact when nothing failed or was cancelled |
| Migrator.Migrator.EnsureLogEntry | internal/ragstore/migrator.go:137-142 | inserts a pending row unless one exists or the step fails |
| Migrator.Migrator.Mark | internal/ragstore/migrator.go:164-176 | sets the row's status; a failed or cancelled update is silently lost |
| Migrator.Migrator.GetPending | internal/ragstore/migrator.go:144-162 | hands back pending rows only, all of them unless the context is cancelled or the database fails while reading, which cuts the list short without an error |
| Migrator.Migrator.GetProgress | internal/ragstore/migrator.go:178-205 | total equals done plus failed plus pending, each the number of its rows or 0; all of them exact unless reading breaks off, which is no error either |
| Migrator.Migrator.LogAll | internal/ragstore/migrator.go:98-102 | logs every document of the retired store or stops with an error, changing no status and no target |
| Migrator.Migrator.MigrateOne | internal/ragstore/migrator.go:116-125 | one document's get, upsert and mark with a fault possible at each step: a store error is recorded as failed, at the read nothing is copied, at the write the document may have got there all the same, and only its own row changes |
| Migrator.Migrator.MigratePending | internal/ragstore/migrator.go:112-126 | the loop over pending rows in any order, ended early by a cancelled context or a crash |
| Migrator.Migrator.MigrateLogged | internal/ragstore/migrator.go:104-128 | the same for the steps after logging |
| Migrator.RowsPartition | internal/ragstore/migrator.go:178-205 | rows grouped by status add up to all the pair's rows |
| Migrator.HistoryEvolves | internal/ragstore/migrator.go:82-129 | any number of runs compose into one relation between the first and the last state |
| Migrator.DoneMeansCopied | internal/ragstore/migrator.go:121-125 | in every reachable state a done row's document is in the target with the retired store's content |
| Migrator.StatusOnlyLeavesPending | internal/ragstore/migrator.go:137-176 | over any history a row that is done or failed stays what it is |
| Migrator.ResumedEqualsUninterrupted | internal/ragstore/migrator.go:82-129 | after any number of cancelled or crashed runs, a settled state holds exactly the documents one uninterrupted run produces |
| Migrator.SettledUpToFailures | internal/ragstore/migrator.go:112-128 | with store errors the settled target equals the uninterrupted one if and only if every failed document got there anyway |
| Checkpoint.InMemoryOpportunityStore.GetBySourceID | internal/dossier/checkpoint.go:84-93 | true exactly when the source is recorded |
| Checkpoint.InMemoryOpportunityStore.Create | internal/dossier/checkpoint.go:96-108 | files a pending opportunity under a fresh id without looking for an earlier one of the source |
| Checkpoint.InMemoryOpportunityStore.Dismiss | internal/dossier/checkpoint.go:124-134 | works from pending only and changes nothing otherwise |
| Checkpoint.InMemoryOpportunityStore.MarkConverted | internal/dossier/checkpoint.go:137-148 | works from pending only, recording the proposal |
| Checkpoint.CheckpointService.Record | internal/dossier/checkpoint.go:183-220 | uninterrupted, a call creates exactly when the source is neither recorded nor in flight, and gives the slot back |
| Checkpoint.StepKeepsInv | internal/dossier/checkpoint.go:96-148 | every lock-granular step of every interleaving keeps the slot a mutual exclusion per source and true results in step with recorded sources |
| Checkpoint.ReachableInv | internal/dossier/checkpoint.go:96-220 | so does every run from the empty store |
| Checkpoint.AtMostOnePerSource | internal/dossier/checkpoint.go:183-220 | no two opportunities ever share a source, however many calls run at once |
| Checkpoint.TrueCallsCountOpportunities | internal/dossier/checkpoint.go:183-220 | as many calls return true as there are opportunities |
| Checkpoint.ExactlyOnceAtRest | internal/dossier/checkpoint.go:183-220 | once all calls have returned, a source that met no store error has its opportunity, no slot is left taken, and exactly one of its calls returned true |
| Checkpoint.AdvanceProgresses | internal/dossier/checkpoint.go:183-220 | no call ever waits for another: each of its own steps is enabled and brings it closer to returning |
| Checkpoint.LeavesPendingAtMostOnce | internal/dossier/checkpoint.go:124-148 | along any run each opportunity leaves pending at most once |
| Checkpoint.SoloCallIsRecord | internal/dossier/checkpoint.go:183-220 | a call nobody interleaves with does what the sequential method does |
| Checkpoint.CreateLeaves | internal/dossier/checkpoint.go:96-108 | a created opportunity is pending under a new number, whatever status it came with, and filed under its source |
| Checkpoint.SettleLeaves | internal/dossier/checkpoint.go:124-148 | a pending opportunity becomes dismissed, or converted with the id of the proposal; any other and all the rest stay as they are |
| Closure.ProjectState | internal/eval/closure.go:178-201 | the first terminal event decides, otherwise the last known one, otherwise open; two of the ten states are never returned |
| Closure.OpenProjection | internal/eval/closure.go:178-201 | for every log without suppression or escalation, by the literal kinds: resolved exactly when the last known event is reeval_passed, fix_landed when it is fix_recorded or reeval_failed, reeval_pending for reeval_requested, action_planned and acknowledged likewise, open for verdict_opened or no known event |
| Closure.DecidedProjection | internal/eval/closure.go:190-201 | once there is a suppression or an escalation, the first of them is the state |
| Closure.ProjectionIsUnique | internal/eval/closure.go:190-201 | a log has one projection |
| Closure.TerminalAbsorbs | internal/eval/closure.go:194-196 | suppressed and escalated logs project the same under any further events |
| Closure.MemoryClosureService.AppendEvent | internal/eval/closure.go:152-161 | appends unless the id was seen, in one step |
| Closure.MemoryClosureService.CurrentState | internal/eval/closure.go:169-175 | projects the verdict's log |
| Closure.RedisClosureService.Eval | internal/eval/closure.go:63-77 | the script's order of tests: duplicate, then conflict, then append to list, seen set and index together |
| Closure.RedisClosureService.LLen | internal/eval/closure.go:89-92 | the length of the verdict's log |
| Closure.RedisClosureService.AppendEvent | internal/eval/closure.go:83-117 | without interleaving the two steps never conflict and equal the in-memory append |
| Closure.RunKeepsInv | internal/eval/closure.go:64-117 | over any interleaving ids are unique across all logs and are exactly the seen set, an appended event sits at the index its client read, and logs only grow |
| Closure.OneWinnerPerIndex | internal/eval/closure.go:69-76 | at most one client ever lands at a given index of a log |
| Closure.ConflictIffLogGrew | internal/eval/closure.go:69-72 | a post conflicts if and only if its id is new and the log grew since the read, and then changes nothing |
| Closure.ConcurrentRefinesMemory | internal/eval/closure.go:64-161 | any interleaving is the in-memory service run in script order: same logs, same replies |
| Closure.TerminalForever | internal/eval/closure.go:178-201 | once suppressed or escalated, a verdict stays so in every later state of every run |
| Lanes.Lane.Submit | internal/memory/lanes.go:82-97 | adds a pending entry with an empty undo stack at the end of the order |
| Lanes.Lane.PushHistory | internal/memory/lanes.go:101-103 | the old status goes on the stack |
| Lanes.Lane.Approve | internal/memory/lanes.go:107-119 | from pending only |
| Lanes.Lane.Reject | internal/memory/lanes.go:122-135 | from pending only, to forgotten |
| Lanes.Lane.Retire | internal/memory/lanes.go:138-150 | from approved only |
| Lanes.Lane.Forget | internal/memory/lanes.go:153-165 | from every status, forgotten included |
| Lanes.Lane.Defer | internal/memory/lanes.go:170-182 | from pending or deferred |
| Lanes.Lane.Withdraw | internal/memory/lanes.go:207-219 | from approved or deferred, back to pending |
| Lanes.Lane.Undo | internal/memory/lanes.go:188-201 | pops the stack into the status, and fails on an empty stack |
| Lanes.Lane.Select | internal/memory/lanes.go:236-261 | the entries of a status, in insertion order |
| Lanes.Lane.Truth | internal/memory/lanes.go:222-233 | the approved entries in insertion order, each of which was pending right before |
| Lanes.RunKeepsInv | internal/memory/lanes.go:82-219 | in every reachable lane each entry's history followed by its status is a path of legal transitions from pending, and the order lists each entry once |
| Lanes.ApprovedFromPending | internal/memory/lanes.go:104-119 | an approved entry's last history element is pending, even after undos |
| Lanes.StatusesPartition | internal/memory/lanes.go:221-261 | the five statuses partition the insertion order |
| Lanes.OnlyNamedEntryMoves | internal/memory/lanes.go:105-119 | an operation touches the entry it names and no other; approving adds that entry to the approved ones and retires none |
| Lanes.TransitionsMove | internal/memory/lanes.go:105-219 | from which statuses approve, reject, retire, forget, defer and withdraw work, and where each leads, the old status on the stack; a refused one changes nothing |
| Lanes.UndoAndSubmit | internal/memory/lanes.go:82-201 | an undo works exactly when the entry has a stack and takes its top back; a submission is pending with an empty stack behind all others |
| Lanes.SelectionInOrder | internal/memory/lanes.go:236-261 | a selection takes each entry of the status in insertion order |
| Lanes.ApproveOverlapIff | internal/memory/lanes.go:105-119 | after a successful approval no two approved entries hold the same content, if and only if none did before and no approved entry held the content of the one approved |
| Lanes.OverlappingTruths | internal/memory/lanes.go:105-119 | two entries with the same content can both be approved, for any content |
| Lanes.UndoReverts | internal/memory/lanes.go:184-201 | undo after any successful transition restores the whole lane |
| Lanes.UndoRestoresEntry | internal/memory/lanes.go:184-201 | a run that brings an entry's stack back to its length without digging below it leaves the entry as it was, refused operations and other entries included |
| Lanes.NestRestoresLane | internal/memory/lanes.go:100-219 | any properly nested sequence of successful transitions and undos, across entries, restores the lane exactly |
| LogRing.LogBuffer.constructor | internal/ops/logbuffer.go:26-34 | an empty ring of capacity at least one |
| LogRing.LogBuffer.Add | internal/ops/logbuffer.go:37-53 | head, tail, count and array keep holding the last entries of the whole history |
| LogRing.LogBuffer.Recent | internal/ops/logbuffer.go:57-78 | the last min(n, count) entries of the whole history in order, all that are kept when n is not positive |
| LogRing.DistinctCells | internal/ops/logbuffer.go:37-53 | positions less than a whole turn apart never share a cell |
| LogRing.LogWriter.ParseAndAdd | internal/ops/log_writer.go:62-74 | an empty line leaves no entry, any other its text without the date prefix |
| LogRing.LineLeaves | internal/ops/log_writer.go:62-74 | a line of a twenty-byte date and time and a message leaves the message; a line without the four marks, or with nothing behind them, is kept whole; an empty one leaves nothing |
| LogRing.LineFed | internal/ops/log_writer.go:40-55 | a line ends at byte 10: with it the line leaves its entry, without it the line is kept for later |
| LogRing.LogWriter.Write | internal/ops/log_writer.go:31-57 | a successful write records the complete lines of leftover and chunk and keeps the rest; a failed one records nothing |
| LogRing.LogWriter.Flush | internal/ops/log_writer.go:77-82 | the unfinished line becomes an entry and nothing stays behind |
| LogRing.LinesRejoin | internal/ops/log_writer.go:40-55 | cutting into lines loses no byte |
| LogRing.LinesAreLines | internal/ops/log_writer.go:40-55 | no line and no leftover contains a line break |
| LogRing.LinesOfJoin | internal/ops/log_writer.go:31-57 | reading on from the leftover of a first chunk is reading the joined stream |
| LogRing.ChunkingIsInvisible | internal/ops/log_writer.go:31-57 | however a stream is cut, the ring has received the non-empty complete lines of the whole stream in order and the writer holds what follows the last line break |
| LogRing.StreamThenRecent | internal/ops/log_writer.go:31-57 | a fresh ring fed a stream in any pieces answers with the last min(n, kept) of the non-empty complete lines of the whole stream, stripped and in order |
| LogRing.SameStreamSameState | internal/ops/log_writer.go:31-57 | two ways of cutting one stream cannot be told apart |
| Continuity.ContinuityStore.UpsertLoop | internal/settings/continuity.go:123-133 | the first checkpoint of the index is replaced in place, otherwise the new one is appended |
| Continuity.ContinuityStore.RecordRotation | internal/settings/continuity.go:103-141 | writes the ring after upsert, stable sort and truncation, or changes nothing on a blank breed, a blank summary, a file that cannot be loaded or a failed write |
| Continuity.ContinuityStore.RecordNextRotation | internal/settings/continuity.go:162-207 | the same with the index one past the highest kept, on int64 |
| Continuity.RecordAllIsPut | internal/settings/continuity.go:123-136 | on an increasing list, upsert and stable sort put a checkpoint in its place |
| Continuity.SortIsStable | internal/settings/continuity.go:134-136 | on rings in any order and with repeated indices the sort is ascending, keeps every checkpoint, and keeps those of one index in their order |
| Continuity.UpsertPresent | internal/settings/continuity.go:123-133 | the first checkpoint of an index is replaced, in any list |
| Continuity.NextIndexCounts | internal/settings/continuity.go:170-173 | the next index is 0 for an empty ring and else one more than the last, modulo 2^64 |
| Continuity.KeepLatestPut | internal/settings/continuity.go:123-139 | dropping all but the last eight commutes with putting in place |
| Continuity.RingRefines | internal/settings/continuity.go:103-215 | recording into the last eight gives the last eight of recording into everything, and both agree on the next index |
| Continuity.RingIsLatestEight | internal/settings/continuity.go:103-207 | from an empty document any mix of the two calls leaves the eight highest-index entries, strictly sorted |
| Continuity.AllIsLatestMap | internal/settings/continuity.go:103-141 | the unbounded list is the map from each index to its latest record |
| Continuity.NextOnlyLeavesLastEight | internal/settings/continuity.go:150-207 | n calls of RecordNextRotation from empty leave exactly the indices max(0, n - 8) to n - 1 |
| Continuity.SeparateIff | internal/settings/continuity.go:68-70 | recording for one breed leaves the ring of another alone, whatever is recorded, if and only if the two have different files |
| Continuity.SameFileIff | internal/settings/profile.go:154-172 | two breeds have one file if and only if their ids agree up to characters unfit for a file name |
| Continuity.FileNameOf | internal/settings/profile.go:154-172 | a file name keeps letters, digits, dots, underscores and hyphens, by character number, and has an underscore in place of anything else |
| Continuity.CollidingBreeds | internal/settings/profile.go:154-172 | two different ids with one file |
| DossierApplier.DraftIff | internal/dossier/applier.go:53-105 | a draft exists if and only if the proposal is approved, the text is the one it was written against, the dog has a section and the snapshot occurs inside it |
| DossierApplier.RefusedWhy | internal/dossier/applier.go:53-83 | when there is no draft the error is that of the first guard that fails |
| DossierApplier.HeadingIsMatch | internal/dossier/applier.go:124-136 | a heading is what the expression matches: at a line start three marks and a white-space character |
| DossierApplier.DogHeadingIsMatch | internal/dossier/applier.go:110-120 | the heading of a dog is what the expression matches: at a line start three marks, white space, text without a line break, and its tag |
| DossierApplier.SectionEndIs | internal/dossier/applier.go:124-136 | a section ends at the first heading behind its own, or with the text |
| DossierApplier.SliceOutOfRangeIff | internal/dossier/applier.go:61-67 | drafting panics if and only if the proposal is approved and its base hash is no hash and shorter than eight characters |
| DossierApplier.DraftStaysInSection | internal/dossier/applier.go:53-105 | a draft replaces the first occurrence of the snapshot in the dog's section; every character before the section and from its end on stays |
| DossierApplier.SectionsDisjoint | internal/dossier/applier.go:107-136 | a section ends no later than the next heading |
| DossierApplier.FindDogHeading | internal/dossier/applier.go:110-120 | the leftmost heading line of the dog, or none anywhere |
| DossierApplier.FindHeading | internal/dossier/applier.go:124-136 | the leftmost heading from a position on, or the end of the text |
| DossierApplier.IndexOfFirst | internal/dossier/applier.go:75-83 | the search finds the first occurrence of the snapshot, and none only when there is none |
| DossierSections.DraftRewrites | internal/dossier/applier.go:72-86 | a draft rewrites the section of the target dog, its first occurrence of the snapshot replaced, and nothing else |
| DossierSections.DraftKeepsSectionIff | internal/dossier/applier.go:53-136 | after a draft the code still finds the section of another dog where it was, if and only if the rewritten section spares it; then it is the same text. An earlier section that ran up to the rewritten one needs a heading, or the end of the text, there still. A later or missing one needs: no heading in the rewritten section carries its tag, no blank heading in front comes to carry it by running into the section, and a line break is left before a heading that follows right behind |
| DossierSections.SectionKeptIff | internal/dossier/applier.go:110-136 | the same for any rewriting of the section of any dog |
| DossierSections.PlainEditSpares | internal/dossier/applier.go:53-136 | a rewritten section that keeps its heading lines, has no other heading and ends at a line start or the end of the text spares every dog with another section |
| DossierSections.LostLineBreak | internal/dossier/applier.go:85-86 | a draft that swallows the line break before the next heading: that dog has no section any more, and its text belongs to the section before |
| DossierSections.HijackedSection | internal/dossier/applier.go:85-86 | a draft that contains a heading with the tag of another dog: from then on that is the section of the other dog |
| DossierService.ValidateCreateProposal | internal/dossier/proposal.go:105-148 | accepts exactly the inputs with a known source event, all fields filled and evidence of known kinds, named and cited once each |
| DossierService.AcceptedNames | internal/dossier/proposal.go:105-148 | exactly three source events and four kinds of evidence are accepted, by name |
| DossierService.NothingMissing | internal/dossier/proposal.go:105-148 | no field but the creator may be empty, and a piece of evidence may be added exactly when it is good by itself and not cited yet |
| DossierService.KeysTell | internal/dossier/proposal.go:133-146 | the joined evidence key tells kind and id apart |
| DossierService.Service.CreateProposal | internal/dossier/service.go:46-54 | one proposal per source: a second call hands back the first; the flag says whether the ledger changed |
| DossierService.Service.TransitionTo | internal/dossier/memory_stores.go:190-203 | moves a proposal on only from the expected status |
| DossierService.Service.ApproveProposal | internal/dossier/service.go:57-69 | from pending, by anyone but the creator |
| DossierService.Service.RejectProposal | internal/dossier/service.go:72-84 | from pending, by anyone but the creator |
| DossierService.CreateLeaves | internal/dossier/memory_stores.go:90-116 | a new proposal takes every field from its input, is pending, and is filed under its source; the creator defaults to operator |
| DossierService.DecisionLeaves | internal/dossier/service.go:57-84 | approving and rejecting need a pending proposal and another hand than its creator, in which case status and decider are recorded and nothing else changes; and otherwise which error is reported |
| DossierService.ApplyRefusedWhy | internal/dossier/service.go:99-151 | the error of an apply is that of the first reason in the order of the code, and with none it succeeds |
| DossierService.Service.ExecuteApply | internal/dossier/service.go:99-165 | write, commit, and restore the original text when the commit fails, has nothing to commit, or succeeds without the service learning of it |
| DossierService.ApplyStep | internal/dossier/service.go:99-151 | a successful apply was approved, by its target dog, written against the current text, rewrites that text, and commits once |
| DossierService.StepKeepsInv | internal/dossier/service.go:46-151 | every call keeps one proposal per source, separation of duties, one commit per applied proposal, and the text equal to the replayed commits |
| DossierService.RunIsReplay | internal/dossier/service.go:46-151 | after any run, failed commits included, the text is the initial one with the committed drafts replayed in commit order; each was approved by someone other than its creator and applied by its target dog |
| DossierService.FailureChangesNothing | internal/dossier/service.go:99-165 | a call that fails leaves ledger, text and applied proposals as they were; only a commit that landed unreported stays in git |
| DossierService.TextChangesOnlyInTargetSection | internal/dossier/service.go:99-151 | only an apply by the target dog changes the text, and it keeps every character outside that dog's section |
| DossierService.HeadIsTextIff | internal/dossier/service.go:129-165 | file and last commit agree after a step if and only if the step makes no unreported commit of a changed text |
| DossierService.RunHeadIsText | internal/dossier/service.go:129-165 | over a run whose commits are all reported, the last commit is the file |
| DossierService.CanApplyIff | internal/dossier/service.go:99-165 | an apply can succeed, if file system and git do their part, if and only if the target dog applies an approved proposal that has a draft, and the draft is not what was committed last |
| DossierService.RetryAfterUnreportedIff | internal/dossier/service.go:97-98 | after a commit that landed unreported, whatever the service does next: the proposal can be applied if and only if it is still approved, the file is back to its text and something else was committed last |
| DossierService.ShortHashPanics | internal/dossier/applier.go:61-67 | every valid proposal with a hash text below eight characters is accepted, can be approved by anyone but its creator, and makes the apply of the target dog panic, whatever the dossier holds |
| DossierService.AbcHashPanics | internal/dossier/applier.go:61-67 | one such run, with the hash "abc" |
| DossierService.OnlyOwnAppliesChange | internal/dossier/applier.go:46-52 | over any run in which the applies for other dogs let a dog keep its place, its section changes by its own applies only |
| DossierService.ApproverAppliesIff | internal/dossier/proposal.go:15-16 | creator and approver of an applied proposal always differ; approver and applier are the same if and only if the target dog approved |
| DossierService.TargetApprovesAndApplies | internal/dossier/proposal.go:15-16 | a run of three calls after which the target dog is both approver and applier |

## Left out

- HTTP, WebSocket, MCP and command-line handlers, process supervision and the web frontend: plumbing without an inner invariant.
- Custody ledger, missions, worklists, hold scheduling, access control, tokens, quotas and approvals: mostly one-branch facts.
- Retrieval scoring (cosine, BM25-style, recency): the rounding of IEEE numbers is the point there.
- SHA-256 is an injective function: the dedup key is its preimage, and a base hash is the hash of some content or a text that is no hash. The source concatenates breed, title and description without a separator, and so does the model's key.
- UUIDs are fresh values and clocks are parameters; the enqueue time and free payload of queue items and the times of log entries are not modelled.
- The queue's sequence counter is unbounded: wrap-around after 2^63 enqueues is not modelled. Starve limit and agent counter are unbounded naturals.
- AgentDispatch.Run: starts from subtasks, available breeds and depth limit already read from the task input, whose defaulting is not modelled.
- JSON trees are already parsed; number literals are opaque texts, and marshalling breeds to and from JSON is not modelled.
- TemplateSync.SyncTemplateBreeds: assumes store I/O succeeds, so a crash between creating a dog and marking it seen is not modelled; nor are the roster and the breed history.
- Cron time zones and daylight saving, instants before year 1, interval schedules, and the text of daily schedules (`internal/scheduler/cron.go:54-86`); Next is modelled in UTC on nanoseconds since year 1.
- Migrator.ResumedEqualsUninterrupted: the retired store is frozen, and the active one is neither switched nor dropped nor written by others; upserting one document is atomic.
- Migrator.DoneMeansCopied: starts from a log without rows of the pair, because the table could hold anything before the first run.
- SQLite, Redis and git are maps and atomic steps. Redis and JSON errors in the verdict log, which leave it unchanged or leave the client in doubt, are not modelled.
- Checkpoint: logging and the tool hooks around `record` are not modelled; `ListPending` is a filter.
- Lanes.Lane.Submit: the generated id is a parameter required to be fresh. Callers of the source receive pointers to live entries; here they receive values, so later changes seen through such a pointer are not modelled. Saving lanes in the background is left out.
- LogRing.LogWriter.Write: what the underlying writer answers is a parameter.
- Continuity: what old or damaged files parse to is not modelled, only whether a file loads, and writing a file either happens or not. Continuity.RingIsLatestEight starts from an empty document, as the ring's promise does.
- Continuity.NextOnlyLeavesLastEight: for at most 2^63 - 1 calls, because the next index is an int64.
- The dossier text is a sequence of characters where the source has bytes; a cut between two characters of a valid text is the same cut in both. The regular expressions are spelled out as what they match.
- DossierService.Service.ExecuteApply: one call at a time. Concurrent applies, edits of the file from outside, partial writes, a rollback that itself fails, and other files staged in git (with which a commit of an unchanged dossier would go through) are not modelled; nor are the commit message and the SQLite ledger.
- DossierSections.DraftKeepsSectionIff: a dog id that itself holds a line break can match across the edge of the rewritten section; for such ids the condition is stated on the new text.
