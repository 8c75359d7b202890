# A verified model of kranix-runtime's stateful core

kranix-runtime drives workloads on several container backends. Most of it is plumbing around client
libraries. The parts that decide something, and that a maintainer has to reason about, are modelled here
in Dafny and proved:

- **Migration** (`Migration.dfy`, `MigrationMeaning.dfy`, `MigrationScheduling.dfy`): the two-backend protocol that
  copies a workload, waits for the copy, and only then destroys the original. The drivers are a `Fleet` whose every
  call may fail, also after it took effect, and which logs each call, so that a claim about every prefix of the log is
  a claim about every moment of the run. A driver may also rewrite the scheduling configuration it is given, by a
  function that is a parameter of the protocol and is then instantiated with the placement and architecture passes.
- **Image cache** (`CacheModel.dfy`, `CacheStatistics.dfy`, `CacheCleanup.dfy`, `ImageCache.dfy`): LRU
  eviction under a byte budget and a count limit, in the code's int64 and int32 arithmetic, with the hit
  statistics. The class refines a step relation; whole-run results are about runs of that relation.
- **Ephemeral environments** (`EphemeralModel.dfy`, `EphemeralInterleaving.dfy`, `Ephemeral.dfy`): the phase
  machine. What others ask of the manager while a pull request handler runs is a script, an input of the handler;
  any part of it runs wherever the handler releases the lock, and the handler answers for every environment that
  the script leaves alone.
- **Health** (`HealthModel.dfy`, `Health.dfy`): the in-place-compacted sliding window as a function of
  everything ever recorded, and the score and verdict computed from it.
- **Network policies** (`NetworkPolicy.dfy`): the compiled object evaluated as networking.k8s.io/v1 does,
  against what the policy's author asked for.
- **Scheduling** (`NodeSelection.dfy`, `SchedulingModel.dfy`, `SchedulingMeaning.dfy`,
  `SchedulingLabels.dfy`, `SchedulingPreferences.dfy`, `WorkloadSpec.dfy`, `Scheduling.dfy`): placement, architecture
  routing and affinity conversion, with core/v1 node selection as the meaning of the result.
- **Node draining** (`NodeDrain.dfy`), **checkpoints** (`Checkpoint.dfy`), **image references** (`ImageRef.dfy`).

`Integers.dfy`, `Text.dfy` and `MapSum.dfy` hold the wrap-around arithmetic, the string functions and the sums
over maps the others need. `dafny verify dfyconfig.toml` checks everything.

A Go map ranged over in unspecified order is a loop that picks any key not yet visited. A critical section is
one method. Times are integers in nanoseconds; latencies, error rates and scores are exact reals.

Where a result is stated through a definition, the definition is pinned down separately: by an `ensures` on fields,
labels and numbers beside it, or by a lemma, mostly one whose name ends in `Meaning`, that says what the definition
comes to without using it.

## What turned out not to hold

The code is modelled as it is. Where an expected property fails, a failing input or the exact condition under which
it holds is proved instead, and mostly both:

- A migration that rolls back removes the names it deployed from the target. If no withdrawal fails and no failed
  deployment took effect, it restores the target exactly when those names were free there before, which a caller can
  check beforehand (`Migration.EveryRollbackRestoresIff`, `Migration.RolledBackRunRestoresIff`); otherwise a copy may
  stay behind (`Migration.FailedWithdrawalLeavesCopy`). A workload already deployed under one of the names is lost. A
  failed destroy of the source is not compensated at all: the ready copy and the shadow both stay
  (`Migration.MigrateWorkload`).
- A Put larger than the whole budget is stored anyway: a Put of non-negative size leaves the cache within budget
  exactly when the size is within it (`CacheModel.PutWithinBudgetIff`). Such a Put evicts every image first, unless
  the int64 sum of the resident sizes and its own wraps; then it evicts none (`CacheModel.OversizedPassIff`). The count
  limit relies on `int32(len)` not wrapping. An entry under the empty reference is never evicted, and choosing it
  makes no progress. From a state within budget and for an allowed size, some iteration order comes to choose it
  with the image not fitting and the lock held exactly when evicting everything older does not make room
  (`CacheModel.SizePassSticksIff`), and no iteration order ever finishes exactly when evicting everything accessed
  no later does not either (`CacheModel.SizePassFinishesIff`). It also lets the count grow past its limit
  (`CacheModel.RoomAfterCountPass`).
- The cache's cleanup cannot be noticed through Get and Invalidate. A Prepull can tell: a cleanup right before it
  changes the answer of a Get exactly when the image is resident and expired at that moment and the configured
  lifetime is not negative (`CacheCleanup.PrepullSeesCleanup`). A Put can tell too, by evicting a live image where
  the cleanup would have made room (`CacheCleanup.PutSeesCleanup`). Runs of all five operations can give the same
  answers with and without cleanups if, in the run without them, no Prepull meets that case and no Put that may evict
  finds something expired resident (`CacheCleanup.CleanupTransparent`). The hit rate keeps its last value when
  nothing in the cache was accessed (`ImageCaching.ImageCache.UpdateStatus`).
- Creating an environment deploys the workload specification's name and tearing it down destroys the
  environment's name. Both successful, they leave the backend as it was exactly when nothing ran under the
  environment's name, and the workload's name is the same or was running already (`Ephemeral.CreateThenTeardown`);
  for pull request 7 and a workload "api", "api" keeps running and whatever ran as "pr-7" is destroyed
  (`Ephemeral.ApiOutlivesItsEnvironment`). A deployment that fails after taking effect leaks: its environment is
  Terminated, and no teardown, cleanup or merge destroys the workload (`Ephemeral.FailedDeploymentLeaks`). The
  cleanup marks an environment Terminated even when the destroy failed. Success of a pull request handler means
  Terminating or Terminated: an environment of the pull request that the others left alone is Terminated exactly when
  it was not Terminating at the start (`Ephemeral.Manager.HandlePRMerge`), because an earlier failed teardown is not
  retried (`Ephemeral.FailedTeardownIsNotRetried`).
- A network policy direction that allows nothing is left out of the object and so admits everything; a
  direction does what was asked exactly when it allows something (`NetworkPolicies.DirectionExactIff`).
- Required affinity terms are alternatives, so the appended architecture term makes the others pointless
  unless one of them is about the architecture already (`SchedulingMeaning.RoutingDropsRequired`). Node by node,
  `SchedulingMeaning.RoutingDiffersIff` says where routing is not the conjunction it looks like.
- Building a pod mutates the specification. Building it again admits the same nodes but counts every
  preferred label again (`SchedulingMeaning.RebuiltAdmitsTheSame`, `SchedulingPreferences.RebuiltScoreIff`).
- A migration does not leave the caller's specification alone. cloneSpec copies the environment but shares the
  scheduling object, and the docker and kubernetes drivers rewrite it in place. After a completed migration it is
  unchanged exactly when there is none, the target's driver does not place, or the passes change nothing in it
  (`MigrationScheduling.MigrateGiven`), which comes down to its fields
  (`SchedulingPreferences.BuildChangesNothingIff`); the second deployment's pod admits the same nodes as the first's
  but counts every preferred label again (`MigrationScheduling.SecondCopyIff`).
- With daemon sets ignored, one daemon set pod keeps a node from ever being reported Drained
  (`NodeDrain.DaemonSetsBlockDrained`).
- Checkpoints of different workloads share a key exactly when one workload's id extends the other's past a '/' and
  the other's checkpoint id is what it is extended by, a '/', and the first's checkpoint id
  (`Checkpoints.KeysCollideIff`).
- Parsing an image reference is canonical exactly when it has at most one ':'. A registry with a port and a
  tag has two, and then the tag ends up in the repository (`ImageRefs.CanonicalIff`, `ImageRefs.TagSwallowed`).

## Assumptions

Backends with different names have disjoint stores, nobody else changes them during a migration, and a copy
seen ready stays ready until it is replaced or destroyed. Clocks do not go back, and a two-second wait takes at
least two seconds. Access times are not zero, which the eviction loop uses for "nothing yet". Where histories of
environments are compared, ids, generated from the clock, are fresh (`EphemeralModel.FreshIdIff` says what is lost
otherwise); creating and counting do not need it. Every namespace carries its own name as its
`kubernetes.io/metadata.name` label. `time.ParseDuration` is a parameter.

## Model

| member | source | states |
|---|---|---|
| `Migration.MigrateWorkload` | internal/migration/orchestrator.go:28-112 | after every prefix of every run, in both modes and for any driver failures, the source still holds the workload or the target holds a copy seen ready, and no name outside the footprint changed; when the source was destroyed, or that destroy failed, an earlier call in the log asked the target about the workload and its answer had readyReplicas at least 1 and at least the replicas wanted, or readyReplicas 0 and ready likewise, or state Running; what each exit leaves on both backends; every failure rests on a call that failed or a wait that ran out; refusals touch nothing; of the caller's specification only the scheduling object changes, rewritten once for each placing deployment; a bound on the driver calls of any run |
| `Migration.MigrateBetween` | internal/migration/orchestrator.go:49-111 | the same once source and target are known and differ |
| `MigrationScheduling.MigrateGiven` | internal/migration/orchestrator.go:67-83 | what becomes of the caller's scheduling configuration on drivers that place and route; before the call: exactly when the specification survives a completed migration, and that it then survives any |
| `MigrationScheduling.CallerSurvivesIff` | internal/migration/orchestrator.go:152-164 | a shared specification survives exactly when nothing was placed, it has no scheduling, or the passes change nothing in it |
| `MigrationScheduling.SecondCopyIff` | internal/migration/orchestrator.go:80-83 | the second deployment's pod admits the nodes the first's does, and scores a node the same exactly when no scheduling is shared or nothing is wished of the node |
| `MigrationScheduling.RewriteByPasses` | internal/docker/driver.go:47-49 | what a placing driver does to the specification it deploys is one build by the two passes |
| `MigrationScheduling.RegionIsRewritten` | internal/placement/labels.go:30-34 | a configuration that does not survive: one that only prefers a region |
| `Migration.CutOver` | internal/migration/orchestrator.go:97-102 | destroying the source, and then the shadow, keeps the workload available because the ready copy carries it; a failed destroy leaves copy and shadow in place |
| `Migration.StageShadow` | internal/migration/orchestrator.go:67-78 | the shadow is up under its own name, or without faults the target lost nothing but that name |
| `Migration.Prepare` | internal/migration/orchestrator.go:67-102 | shadow and real copy together reach one of the documented exits from a fleet that was untouched |
| `Migration.Finish` | internal/migration/orchestrator.go:80-102 | from a staged fleet: ready copy and cut-over, or both copies withdrawn; the shared scheduling afterwards |
| `Migration.Conclude` | internal/migration/orchestrator.go:83-102 | shadow withdrawn after a failed deployment; both copies after a failed wait; cut-over otherwise |
| `Migration.SendCopy` | internal/migration/orchestrator.go:80-83 | what a clone deployed under another name sends, and what that leaves in the specification it shares its scheduling with |
| `Migration.AbandonCopies` | internal/migration/orchestrator.go:89-95 | without faults, compensation takes away exactly the names deployed |
| `Migration.LoadSpec` | internal/migration/orchestrator.go:49-62 | without a given specification, one call to the source decides: its answer determines the specification used, and no answer means none |
| `Migration.RollbackRestoresIff` | internal/migration/orchestrator.go:71-95 | a target with the names taken away that a given rollback withdraws, as happens without faults, equals its starting state exactly when they were free there |
| `Migration.EveryRollbackRestoresIff` | internal/migration/orchestrator.go:71-95 | before the call: every rollback without faults restores the target exactly when neither the workload's name nor, if asked for, the shadow's is deployed there |
| `Migration.RolledBackRunRestoresIff` | internal/migration/orchestrator.go:71-95 | the same for whole runs that end in a rollback without faults |
| `Migration.FailedWithdrawalLeavesCopy` | internal/migration/orchestrator.go:75-92 | a fault after which the target is not restored although the name was free |
| `Migration.SoundCall` | internal/migration/orchestrator.go:67-102 | availability and the frame are kept by any one call on an allowed name that leaves the workload available |
| `Migration.SoundPolls` | internal/migration/orchestrator.go:133 | polling keeps both, however often it happens |
| `Migration.ShadowDiffers` | internal/migration/orchestrator.go:65 | the shadow never has the workload's name |
| `Migration.WaitUntilReady` | internal/migration/orchestrator.go:124-150 | on the answers' fields: ready exactly at the last poll and exactly if it shows readyReplicas at least 1 and at least the replicas wanted, or readyReplicas 0 and ready likewise, or state Running, and no earlier poll does, nor any of a wait that ran out or was cancelled; a failed poll ends the wait; at most timeout / 2 s + 1 polls, all of one name; a timeout means the time has passed |
| `Migration.Poll` | internal/migration/orchestrator.go:133-143 | how one status answer is read, with the fallback from readyReplicas to ready |
| `Migration.CloneSpec` | internal/migration/orchestrator.go:152-164 | the copy has the same value, its own environment map, and the same scheduling object |
| `Migration.ParseTimeout` | internal/migration/orchestrator.go:166-179 | always positive; which of the parsed, the fallback and the default duration it is |
| `Migration.ShowsReadyIff` | internal/migration/orchestrator.go:125-143 | the test of the wait, on the counters and the state: the fallback from readyReplicas to ready, and at least one replica even when none is wanted |
| `Migration.WaitedMeaning` | internal/migration/orchestrator.go:130-150 | what a finished wait says about the fields of each of its answers |
| `Migration.ReadyOnFields` | internal/migration/orchestrator.go:83-102 | of a log in which a ready copy was seen before the destroy of the source: positions of the two calls, and the fields of the answer |
| `MigrationMeaning.FrameMeaning` | internal/migration/orchestrator.go:65-102 | only the workload, and on the target its name with "-migrating" if a shadow is asked for, ever changes |
| `MigrationMeaning.AvailableMeaning` | internal/migration/orchestrator.go:97-102 | after any prefix of the log: the workload is in the source, or in the target with its copy confirmed |
| `MigrationMeaning.ConfirmedMeaning` | internal/migration/orchestrator.go:133-143 | confirmed: a status call in the log asked about this very copy and its answer showed enough replicas, or Running |
| `MigrationMeaning.CompletedMeaning` | internal/migration/orchestrator.go:97-112 | a completed run: gone from the source and only that, on the target the copy as specified, and without faults no shadow |
| `MigrationMeaning.UncompensatedMeaning` | internal/migration/orchestrator.go:97-99 | a destroy of the source that failed: it is the last call, and the copy and the shadow stay on the target |
| `MigrationMeaning.RolledBackMeaning` | internal/migration/orchestrator.go:71-95 | which names a rollback without faults takes from the target, by failure |
| `MigrationMeaning.CopyMeaning` | internal/migration/orchestrator.go:67-82 | the fields of the two copies, and which of them may differ from the specification |
| `MigrationMeaning.DerivedMeaning` | internal/migration/orchestrator.go:55-61 | the fields of a specification derived from a status, with at least one replica |
| `MigrationMeaning.RefusalMeaning` | internal/migration/orchestrator.go:29-47 | which request is refused for which reason |
| `MigrationMeaning.WarrantedMeaning` | internal/migration/orchestrator.go:71-99 | which call, or how much time, a reported failure rests on |
| `CacheModel.BudgetAlwaysKept` | internal/cache/image.go:98-161 | if every Put is within the budget, the sizes add up to at most cacheSizeGB times 1073741824 bytes in every reachable state of every run of all operations |
| `CacheModel.PutKeepsBudget` | internal/cache/image.go:98-132 | one Put of allowed size keeps the budget, for any eviction order |
| `CacheModel.PutWithinBudgetIff` | internal/cache/image.go:211-224 | a non-negative Put ends within budget exactly when it fits the budget itself |
| `CacheModel.OversizedPassIff` | internal/cache/image.go:211-224 | for a size over the budget a finished pass evicts everything, unless the int64 sum wraps; then it evicts nothing |
| `CacheModel.StepKeepsBudget` | internal/cache/image.go:68-209 | no other critical section leaves the budget either |
| `CacheModel.NoOverflow` | internal/cache/image.go:211-224 | within budget none of the loop's int64 sums wraps, so its test is the exact comparison |
| `CacheModel.VictimsAreLeastRecent` | internal/cache/image.go:217-244 | for any map order, victims are distinct residents accessed no later than every survivor |
| `CacheModel.EveryVictimWasNeeded` | internal/cache/image.go:217-220 | had the pass stopped before any victim, the new image would not have fit |
| `CacheModel.CountAlwaysBounded` | internal/cache/image.go:116-119 | entries never exceed max(1, MaxCachedImages) plus the Prepull insertions, while that is below 2^31 and no empty reference is inserted |
| `CacheModel.PutKeepsCount` | internal/cache/image.go:116-128 | one Put keeps any count limit that is at least one and at least the configured one, in a cache without an empty reference |
| `CacheModel.RoomAfterCountPass` | internal/cache/image.go:116-119 | the count pass leaves room exactly when there was some or it did not choose the empty reference |
| `CacheModel.SizePassSticksIff` | internal/cache/image.go:217-243 | some iteration order comes to a state that does not fit with the empty reference oldest exactly when there is one and evicting everything older does not make room |
| `CacheModel.SizePassFinishesIff` | internal/cache/image.go:217-243 | some iteration order finishes exactly when there is none, or evicting everything accessed no later makes room |
| `CacheModel.PrepulledMeaning` | internal/cache/image.go:141-158 | Prepull adds exactly the missing images, without limits, and leaves resident entries alone |
| `CacheModel.BudgetMeaning` | internal/cache/image.go:213 | within budget: no size is negative and they add up to at most cacheSizeGB times 1073741824 |
| `CacheModel.TotalSizeMeaning` | internal/cache/image.go:246-252 | the total is zero for no entry and grows by the size of each |
| `CacheModel.EntryMeaning` | internal/cache/image.go:104-128 | which entries are past their lifetime, and every field of what a hit, a Put and a Prepull record; 168 hours by default |
| `CacheModel.PutMeaning` | internal/cache/image.go:98-132 | after any Put: the fields of the new entry, and the others as they were |
| `CacheModel.PutLeavesRecent` | internal/cache/image.go:226-244 | whatever a Put evicts was accessed no later than anything it keeps |
| `CacheModel.PutLimits` | internal/cache/image.go:98-132 | the byte and count limits of a Put, in numbers |
| `CacheModel.SizePassInBytes` | internal/cache/image.go:211-224 | what the size pass comes to in bytes, and that it evicts nothing when the image fits at once |
| `CacheModel.LiveMeaning` | internal/cache/image.go:200-206 | which entries remain of a cleanup |
| `CacheStatistics.AccessCountsAreHits` | internal/cache/image.go:89-93 | in every reachable state an entry's access count is its hits since insertion, plus one if a Put inserted it |
| `CacheStatistics.HitsFromAccesses` | internal/cache/image.go:259-267 | computed hits are total accesses minus the entries accessed at all |
| `CacheStatistics.HitRateRange` | internal/cache/image.go:269-271 | the rate lies in [0, 100) |
| `CacheStatistics.HitRateAlwaysInRange` | internal/cache/image.go:254-272 | and does so in every reachable state |
| `CacheStatistics.HitRateMeaning` | internal/cache/image.go:259-271 | the rate times all accesses is one hundred times the accesses that were not the first of their entry |
| `CacheCleanup.CleanupTransparent` | internal/cache/image.go:196-209 | runs of Get, Invalidate, Put, Prepull and cleanup that differ only in their cleanups can give the same answers, unless in the run without them a Prepull finds its image resident and expired or a Put that may evict finds something expired |
| `CacheCleanup.CleanupTransparentFrom` | internal/cache/image.go:196-209 | the same from any two caches of which one is the other after some cleanups |
| `CacheCleanup.PrepullSeesCleanup` | internal/cache/image.go:143-156 | in any state, a cleanup right before a Prepull changes what a Get of the image can answer exactly when the image is resident and expired at that moment (and the lifetime is not negative) |
| `CacheCleanup.PrepullKeepsSameLiveIff` | internal/cache/image.go:143-156 | the same for the live entries after one Prepull |
| `CacheCleanup.OnlyInsertionsNotice` | internal/cache/image.go:163-170 | runs without a Prepull or Put never meet those cases |
| `CacheCleanup.PutSeesCleanup` | internal/cache/image.go:111-119 | a state in which a Put evicts a live image, and after a cleanup does not: the Get that follows misses and hits |
| `CacheCleanup.ReachesTwoImages` | internal/cache/image.go:98-132 | a run of two Puts and a hit that reaches that state |
| `CacheCleanup.RoomyPut` | internal/cache/image.go:111-128 | with room in bytes and number a Put inserts its image and evicts nothing, whatever the order |
| `CacheCleanup.RoomyPutInNumbers` | internal/cache/image.go:111-128 | the same with the byte budget and the count limit written out |
| `CacheCleanup.RoomyNeverSticks` | internal/cache/image.go:217-220 | with room the size pass cannot stick, even with an entry under the empty reference |
| `CacheCleanup.NoticesMeaning` | internal/cache/image.go:111-156 | which Prepull or Put can notice a cleanup, in lifetimes, bytes and numbers |
| `CacheCleanup.AnswerMeaning` | internal/cache/image.go:68-96 | what a Get answers, and that nothing else does |
| `CacheCleanup.WithoutCleanupMeaning` | internal/cache/image.go:196-209 | the run without cleanups has every other action, in order |
| `ImageCaching.ImageCache.Get` | internal/cache/image.go:68-96 | a hit exactly when enabled, resident and at most its lifetime old; then the entry's access time and count change and nothing else, and on a miss the reference goes |
| `ImageCaching.ImageCache.Touch` | internal/cache/image.go:89-93 | the touch counts on the entry if it is still resident, and changes nothing in the cache if it has left since the lookup |
| `ImageCaching.ImageCache.Put` | internal/cache/image.go:98-132 | for any reference: the new contents are reachable by some size pass, some count pass and the insertion, and the status describes them, with its size in units of 1073741824 bytes; the new entry's fields; the others as they were, and what was evicted accessed no later than what was kept; with sizes within cacheSizeGB times 1073741824 bytes they stay within it; with room in bytes and number nothing is evicted; or the size pass is stuck, and when it cannot be |
| `ImageCaching.ImageCache.EnforceSizeLimits` | internal/cache/image.go:211-224 | evicts oldest entries until the first state that fits or is empty, or until only the empty reference is chosen in a state that does not fit |
| `ImageCaching.ImageCache.EvictOldest` | internal/cache/image.go:226-244 | chooses an entry no other was accessed before and removes it unless its reference is empty; nothing from an empty cache |
| `ImageCaching.ImageCache.OldestRef` | internal/cache/image.go:231-239 | for any order, the scan finds an entry no other was accessed before |
| `ImageCaching.ImageCache.OverBudget` | internal/cache/image.go:212-215 | the int64 sum of the resident sizes and the new one exceeds cacheSizeGB times 1073741824 |
| `ImageCaching.ImageCache.CalculateTotalSize` | internal/cache/image.go:246-252 | the int64 value of the exact sum, in any order |
| `ImageCaching.ImageCache.EnforceCountLimit` | internal/cache/image.go:116-119 | one oldest entry is chosen when int32(len) reaches the limit |
| `ImageCaching.ImageCache.Prepull` | internal/cache/image.go:134-161 | exactly the missing references are added, each with size zero, no accesses and its lifetime; resident entries stay |
| `ImageCaching.ImageCache.PrepullOne` | internal/cache/image.go:142-157 | one image under its own lock is one step: nothing if resident, and otherwise the fields of its entry |
| `ImageCaching.ImageCache.Invalidate` | internal/cache/image.go:163-170 | removes the one reference and refreshes the status |
| `ImageCaching.ImageCache.CleanupExpired` | internal/cache/image.go:196-209 | exactly the entries at most their lifetime old remain |
| `ImageCaching.ImageCache.UpdateStatus` | internal/cache/image.go:254-272 | the status describes the contents: their number, their int64 size in units of 1073741824 bytes, and the time; the hit rate stays as it was while nothing was accessed |
| `ImageCaching.DescribesMeaning` | internal/cache/image.go:254-272 | a status that describes the contents, in numbers, the hit rate by the entries accessed at all |
| `ImageCaching.ImageCache.NeverStuck` | internal/cache/image.go:217-243 | when a size pass that sticks can have stuck |
| `ImageCaching.ImageCache.PutStored` | internal/cache/image.go:111-129 | what a Put stores and keeps, in numbers |
| `ImageCaching.ImageCache.CountAccesses` | internal/cache/image.go:260-267 | the two sums, in any order |
| `EphemeralModel.AlwaysSettled` | internal/ephemeral/lifecycle.go:60-144 | in every reachable state no environment is Creating, and a termination time is set exactly on the Terminated ones |
| `EphemeralModel.AlwaysGrows` | internal/ephemeral/lifecycle.go:117-230 | between any two moments of a run without reused ids nothing disappears, no environment changes its name, namespace, pull request or expiry, a Terminating one is Terminating or Terminated later, and a Terminated one is identical |
| `EphemeralModel.LimitAlwaysKept` | internal/ephemeral/lifecycle.go:68-72 | if all requests carry positive limits of at most M, at most M environments are ever active |
| `EphemeralModel.StepGrows` | internal/ephemeral/lifecycle.go:117-144 | the rely condition of the handlers holds of every operation that does not reuse an id |
| `EphemeralModel.FreshIdIff` | internal/ephemeral/lifecycle.go:76-99 | a creation, successful or not, keeps the history of the others exactly when its id is new or the overwritten environment was the same one, no further on |
| `EphemeralModel.GrowsMeaning` | internal/ephemeral/lifecycle.go:117-230 | which phase may follow which, and which fields stay |
| `EphemeralModel.RecordedMeaning` | internal/ephemeral/lifecycle.go:85-144 | every field of an environment after a creation, a teardown and a cleanup, by how the backend answered |
| `EphemeralModel.NamesMeaning` | internal/ephemeral/lifecycle.go:244-261 | how environments and namespaces are named; the namespace ends in the name and begins with the prefix |
| `EphemeralModel.EnvironmentIDInjective` | internal/ephemeral/lifecycle.go:76 | different clock readings give different ids |
| `EphemeralModel.PullRequestNamesInjective` | internal/ephemeral/lifecycle.go:245-247 | environments of different pull requests have different names |
| `EphemeralInterleaving.TeardownVisits` | internal/ephemeral/lifecycle.go:179-181 | one teardown with the lock released around it, whatever part of the script runs before and after |
| `EphemeralInterleaving.ExactlyStep` | internal/ephemeral/lifecycle.go:177-186 | one iteration changes, of the environments the script leaves alone, only its own target: ended for its reason, or Terminating if the destroy failed |
| `EphemeralInterleaving.AccountedStep` | internal/ephemeral/lifecycle.go:177-186 | every call stays the script's or the one destroy of a target, and the handler's failed calls are counted |
| `EphemeralInterleaving.TerminatedIff` | internal/ephemeral/lifecycle.go:177-188 | on success an environment left alone is Terminated exactly when it was not Terminating at the start |
| `EphemeralInterleaving.NothingToDo` | internal/ephemeral/lifecycle.go:177-188 | alone and without a target a handler changes nothing, calls nothing and cannot fail |
| `EphemeralInterleaving.SweepCallsMore` | internal/ephemeral/lifecycle.go:216-229 | the calls of the cleanup stay one for each expired environment looked at, and no others |
| `EphemeralInterleaving.SweepMeaning` | internal/ephemeral/lifecycle.go:216-229 | after a cleanup: every field of every environment, and which destroys were sent |
| `EphemeralInterleaving.FateMeaning` | internal/ephemeral/lifecycle.go:177-186 | what becomes of an environment that no request names and no cleanup of the script finds expired |
| `EphemeralInterleaving.FailuresMeaning` | internal/ephemeral/lifecycle.go:182-184 | the number of the handler's own calls that failed, by position |
| `EphemeralInterleaving.AccountMeaning` | internal/ephemeral/lifecycle.go:177-186 | by position: whose each call is, and what it was for |
| `Ephemeral.CreateThenTeardown` | internal/ephemeral/lifecycle.go:102-133 | a successful create and teardown leave what ran, plus the workload's name, minus the environment's: the backend is as before exactly when nothing ran under the environment's name and the workload's is the same or was running |
| `Ephemeral.ApiOutlivesItsEnvironment` | internal/ephemeral/lifecycle.go:244-247 | pull request 7 and workload "api": "api" keeps running and somebody's "pr-7" is destroyed |
| `Ephemeral.MergeWithoutTargets` | internal/ephemeral/lifecycle.go:173-189 | with nothing Ready for the pull request and nobody else around, a merge changes nothing and calls nothing |
| `Ephemeral.FailedTeardownIsNotRetried` | internal/ephemeral/lifecycle.go:130-136 | after a failed teardown the merge handler returns nil without a call and the environment stays Terminating |
| `Ephemeral.FailedDeploymentLeaks` | internal/ephemeral/lifecycle.go:103-110 | after a deployment that failed, possibly after taking effect, no teardown, cleanup or merge makes a call: what runs stays |
| `Ephemeral.TeardownAll` | internal/ephemeral/lifecycle.go:117-230 | on a manager whose only environment is Terminated, none of the operations that destroy makes a call |
| `Ephemeral.Manager.CountActiveEnvironments` | internal/ephemeral/lifecycle.go:233-241 | the number of environments not Terminated |
| `Ephemeral.Manager.CreateEnvironment` | internal/ephemeral/lifecycle.go:60-114 | which refusal, if any, on the request's fields and the number of environments not Terminated, and then nothing changes; otherwise one deployment into its namespace and exactly one environment recorded under the id "ephem-" and the clock, new or not: its name, namespace, pull request and expiry, and Ready, or Terminated with "deployment failed" and the time, by how that one call went; what runs afterwards, also after a failure |
| `Ephemeral.Manager.TeardownEnvironment` | internal/ephemeral/lifecycle.go:117-144 | one destroy of the environment's name, or none if it is unknown or Terminated; an error exactly when that call failed or the id is unknown; then the environment is Terminated with the given reason and time, or Terminating with its old ones, and no other changed; what runs afterwards |
| `Ephemeral.Manager.CleanupExpiredEnvironments` | internal/ephemeral/lifecycle.go:211-230 | for any order, exactly the Ready and expired ones become Terminated at that time, with "TTL expired", or "cleanup failed" if the destroy failed; the calls are one destroy for each of them, and no others |
| `Ephemeral.Manager.Others` | internal/ephemeral/lifecycle.go:179-181 | any part of the script only moves phases forward, adds only its own ids, leaves alone what it is not about, and makes only its own calls |
| `Ephemeral.Manager.VisitForPR` | internal/ephemeral/lifecycle.go:177-185 | one iteration: at most one own call, its environment afterwards by how that call went, the others left alone unchanged |
| `Ephemeral.Manager.TeardownForPR` | internal/ephemeral/lifecycle.go:172-208 | the loop over the live map, with environments added meanwhile and any part of the script between the steps, on success and failure |
| `Ephemeral.Manager.HandlePRMerge` | internal/ephemeral/lifecycle.go:173-189 | for every script of other operations: on nil every environment of the pull request present at the start is Terminating or Terminated, and each that was Ready and that no request of the script names or finds expired is Terminated with "PR merged" and a time; on an error exactly one of the handler's calls failed; in both cases environments of others, or not Ready, that the script leaves alone are unchanged, and its own targets ended for this reason or are Terminating if that destroy failed; every call is the script's or the only destroy of an environment that was Ready |
| `Ephemeral.Manager.HandlePRClose` | internal/ephemeral/lifecycle.go:192-208 | the same with "PR closed" |
| `HealthModel.NewerAreLast` | internal/health/tracker.go:61-71 | under a clock that does not go back, the samples newer than the cutoff are exactly a suffix of everything recorded |
| `HealthModel.RecordTracks` | internal/health/tracker.go:32-40 | appending, trimming and pruning a window gives the window of the longer history |
| `HealthModel.PruneTracks` | internal/health/tracker.go:46 | pruning an old window later gives the later window |
| `HealthModel.PruneLast` | internal/health/tracker.go:61-71 | pruning the last k samples keeps the last min(newer, k) |
| `Health.Compact` | internal/health/tracker.go:63-70 | in-place compaction with a trailing write index keeps exactly the newer samples, in order |
| `Health.BackendTracker.constructor` | internal/health/tracker.go:22-30 | five minutes and 100 samples for a window or size that is not positive |
| `Health.BackendTracker.PruneLocked` | internal/health/tracker.go:61-71 | the slice becomes the pruned slice |
| `Health.BackendTracker.Record` | internal/health/tracker.go:32-40 | everything recorded grows by this sample, and the buffer stays the newest of it |
| `Health.BackendTracker.Snapshot` | internal/health/tracker.go:42-59 | the window is a suffix of everything recorded, newer than now less the window, at most maxSamples, and no shorter than that allows; the averages are the sum of its latencies and the number of its failed samples, divided by its size, or zero |
| `Health.BackendTracker.Averages` | internal/health/tracker.go:47-58 | the accumulating loop computes the two averages, zero on an empty window |
| `Health.BackendHealth` | internal/kubernetes/nodes.go:20-41 | with a tracker, Healthy exactly when the ping succeeded and at most 105, 255, 355, 425, 465 or 500 thousandths of the samples in the window after it failed, by mean latency; without one, exactly when the ping succeeded, and which score |
| `Health.VerdictSound` | internal/kubernetes/nodes.go:28-38 | Healthy means that the ping succeeded and at most half of the window's samples failed, and at most 10.5% of them when they average more than 2000 ms |
| `Health.VerdictIff` | internal/kubernetes/nodes.go:28-38 | Healthy exactly when the ping succeeded and few enough of the samples failed, as a bound on their number by mean latency |
| `HealthModel.FailuresMeaning` | internal/health/tracker.go:54-56 | the failures are the number of positions with a failed sample |
| `HealthModel.TotalLatencyMeaning` | internal/health/tracker.go:53 | the total is the latency of one sample and adds up over two windows |
| `HealthModel.AveragesMeaning` | internal/health/tracker.go:47-58 | both averages times the number of samples, and zero without any |
| `HealthModel.WindowMeaning` | internal/health/tracker.go:32-40 | the window is a suffix of everything recorded, newer than the cutoff, at most maxSamples, and as long as that allows |
| `HealthModel.ScoreMeaning` | internal/health/scorer.go:6-28 | the score in numbers: one hundred less the penalties, to the nearest integer |
| `HealthModel.ScoreAntitone` | internal/health/scorer.go:6-28 | more latency or more errors never raise the score |
| `HealthModel.PassingIff` | internal/health/scorer.go:6-28 | the exact error rate, in thousandths, up to which a latency still scores 50 |
| `HealthModel.ScoreFromSignals` | internal/health/scorer.go:6-28 | the score lies in 0..100 |
| `HealthModel.ScoreNodeReady` | internal/health/scorer.go:31-52 | the node score lies in 0..100 |
| `HealthModel.NodeScoreMeaning` | internal/health/scorer.go:31-52 | the node score in points: which condition costs how many, in 0..100 |
| `HealthModel.ClampMonotone` | internal/health/scorer.go:54-62 | clamping and rounding keep order |
| `NetworkPolicies.BuildPolicy` | internal/kubernetes/networkpolicy.go:21-141 | nothing for a policy that is absent or disabled; the error exactly when the own namespace is not allowed, no listed one is named, DNS is blocked and the internet not allowed; otherwise the specified object, with its name, namespace, labels and pod selector |
| `NetworkPolicies.BuildPeers` | internal/kubernetes/networkpolicy.go:33-51 | own namespace first, then the non-empty listed ones |
| `NetworkPolicies.BuildEgress` | internal/kubernetes/networkpolicy.go:56-110 | DNS, internet and peer rules, each when asked for |
| `NetworkPolicies.RejectedIff` | internal/kubernetes/networkpolicy.go:112-114 | the code's test for the error holds exactly when neither direction allows anything |
| `NetworkPolicies.ListedDirectionIsExact` | internal/kubernetes/networkpolicy.go:31-122 | a direction with a rule admits a peer on a port exactly when the author asked for it |
| `NetworkPolicies.WorkloadTraffic` | internal/kubernetes/networkpolicy.go:21-141 | the object evaluated on any pod, in labels and ports: it restricts the pods of its namespace with the selector's labels, in a direction that allows something, to the own namespace, the listed ones, kube-system on port 53 and ports 80 and 443 over TCP, each exactly when asked for |
| `NetworkPolicies.EvaluationMeaning` | internal/kubernetes/networkpolicy.go:95-122 | how networking.k8s.io/v1 reads the fields: unlisted directions, empty peers and ports, and alternatives |
| `NetworkPolicies.DirectionExactIff` | internal/kubernetes/networkpolicy.go:112-122 | a direction does what was asked for every peer exactly when it allows something |
| `NetworkPolicies.ListedIff` | internal/kubernetes/networkpolicy.go:116-122 | a direction is listed exactly when it has a rule |
| `NetworkPolicies.PeersMeaning` | internal/kubernetes/networkpolicy.go:36-51 | the peers match exactly the pods of the own namespace, if allowed, and of non-empty listed ones |
| `NetworkPolicies.PeersNonEmpty` | internal/kubernetes/networkpolicy.go:52-54 | when there is a peer rule at all |
| `NetworkPolicies.EgressRulesMeaning` | internal/kubernetes/networkpolicy.go:80-110 | the egress rules together admit exactly what was asked for |
| `NetworkPolicies.DnsRuleMeaning` | internal/kubernetes/networkpolicy.go:80-94 | kube-system pods, port 53, UDP or TCP, and nothing else |
| `NetworkPolicies.SanitizePolicyName` | internal/kubernetes/networkpolicy.go:149-155 | at most 40 characters, no underscore, no capital |
| `NetworkPolicies.SanitizeMeaning` | internal/kubernetes/networkpolicy.go:149-155 | character by character, up to the fortieth |
| `SchedulingModel.ConversionPreservesMeaning` | internal/kubernetes/deploy.go:141-207 | the converted pod specification admits exactly the nodes the configuration allows |
| `SchedulingModel.ConvertTermMeaning` | internal/kubernetes/deploy.go:185-207 | a converted term matches the same nodes |
| `SchedulingLabels.BuiltSelector` | internal/arch/scheduling.go:11-50 | the architecture selector of the built pod, by spelling: arm64 exactly for arm64 and aarch64, amd64 exactly for amd64, x86_64 and x64, any other name trimmed and in lower case; without a name by the substrings of the image, in their order |
| `SchedulingLabels.NamedArchitecture` | internal/arch/scheduling.go:27-36 | the table of spellings of an architecture |
| `SchedulingLabels.SuggestedArchitecture` | internal/arch/scheduling.go:11-24 | the table of image substrings, the first that is found deciding |
| `SchedulingLabels.NamedArchitectureIsEnforced` | internal/arch/scheduling.go:27-64 | the built pod admits only nodes labelled with the architecture that is named |
| `SchedulingLabels.RoutedSelector` | internal/arch/scheduling.go:53-64 | routing sets this one selector and keeps the others |
| `SchedulingLabels.ArchTermsMeaning` | internal/arch/scheduling.go:72-88 | the required term added unless one of them mentions kubernetes.io/arch |
| `SchedulingLabels.PlacedLabels` | internal/placement/labels.go:9-44 | which placement field becomes which label, trimmed, unless a required label has its key |
| `SchedulingLabels.PreferredTopology` | internal/placement/labels.go:28-34 | without a region or zone, the first preference that is not blank |
| `SchedulingLabels.RequiredLabelsWin` | internal/placement/labels.go:45-50 | required labels that are not empty win, and no other key changes |
| `SchedulingLabels.NothingToPlace` | internal/placement/labels.go:28-44 | with nothing to place by, the selectors stay |
| `SchedulingMeaning.FieldPrecedence` | internal/placement/labels.go:55-76 | a placement field wins over the preference list, and only blanks give nothing |
| `SchedulingMeaning.PlacedLookup` | internal/placement/labels.go:26-50 | which source decides each label key, strongest first |
| `SchedulingMeaning.PlacementMeaning` | internal/placement/labels.go:17-53 | a placed workload goes to exactly the nodes with every label asked for that meet the required terms |
| `SchedulingMeaning.PlacementTwice` | internal/placement/labels.go:17-106 | placing again changes no selector and no required term and repeats the preferred ones |
| `SchedulingMeaning.PlacementIdempotentIff` | internal/placement/labels.go:78-106 | placement is idempotent exactly when no preferred label is effective |
| `SchedulingMeaning.OnlyNodesOfTheArchitecture` | internal/arch/scheduling.go:64 | whatever the terms, only nodes of the resolved architecture are admitted |
| `SchedulingMeaning.RoutingIsConjunction` | internal/arch/scheduling.go:53-89 | with no required terms, or one that mentions the key, and no other architecture selected, routing adds just that condition |
| `SchedulingMeaning.RoutingDropsRequired` | internal/arch/scheduling.go:82-88 | with other required terms, the final selector alone decides |
| `SchedulingMeaning.RoutingIsConjunctionIff` | internal/arch/scheduling.go:72-88 | with no other architecture selected, routing is a conjunction on all nodes exactly when the required terms survive it or exclude no node the selector leaves |
| `SchedulingMeaning.RoutingDiffersIff` | internal/arch/scheduling.go:64-88 | for every configuration and node: routing differs from the conjunction exactly on nodes of the architecture that meet the other selectors, when another architecture was overridden or the dropped required terms exclude the node |
| `SchedulingMeaning.RoutingIdempotent` | internal/arch/scheduling.go:53-89 | routing twice is routing once |
| `SchedulingMeaning.BuiltMeaning` | internal/kubernetes/workload_pod.go:69-91 | exactly which nodes the whole pipeline admits, for every workload: asked-for labels, the architecture, and the required terms where they survive |
| `SchedulingMeaning.RebuiltAdmitsTheSame` | internal/kubernetes/workload_pod.go:69-91 | building a pod from a specification already built from admits the same nodes |
| `SchedulingPreferences.ConversionPreservesScore` | internal/kubernetes/deploy.go:177-227 | the converters keep every node's preference score |
| `SchedulingPreferences.PreferredTermsMeaning` | internal/placement/labels.go:88-105 | compiled preferred labels score exactly the labels' weights, at least one each |
| `SchedulingPreferences.BuiltScore` | internal/kubernetes/workload_pod.go:70-91 | the pipeline adds the wished-for labels' weights to a node's score and nothing else |
| `SchedulingPreferences.WishesMeaning` | internal/placement/labels.go:93-104 | what a preferred label is worth on a node, its weight or one, and that lists add up |
| `SchedulingPreferences.NoPreferenceIff` | internal/placement/labels.go:88-91 | there is no term to add exactly when no preference has a key |
| `SchedulingPreferences.RebuiltScoreIff` | internal/placement/labels.go:101-104 | a rebuilt pod keeps a node's score exactly when nothing is wished of the node |
| `SchedulingPreferences.SurvivesBuildsIff` | internal/kubernetes/workload_pod.go:69-71 | a configuration survives any number of builds exactly when it survives one |
| `SchedulingPreferences.BuildChangesNothingIff` | internal/kubernetes/workload_pod.go:69-71 | a build changes nothing exactly when selectors are present with every label asked for, the required terms mention a resolved architecture, and no preference is to be added |
| `Scheduling.ApplyNodePlacement` | internal/placement/labels.go:17-53 | the specification, mutated in place, becomes its placed value; a missing configuration is created |
| `Scheduling.AddRequiredLabels` | internal/placement/labels.go:46-50 | the non-empty labels override, in any order |
| `Scheduling.MergePreferredLabels` | internal/placement/labels.go:78-106 | appends one term per preference with a key |
| `Scheduling.ApplyArchitectureScheduling` | internal/arch/scheduling.go:53-89 | the specification becomes its routed value, or stays untouched when no architecture resolves; for a name the value of its kubernetes.io/arch selector, by spelling |
| `Scheduling.ScanForArch` | internal/arch/scheduling.go:73-81 | the nested scan with its inner break finds whether any term mentions the key |
| `Scheduling.ConvertNodeSelectorRequirements` | internal/kubernetes/deploy.go:197-207 | fills a slice of the final length, position by position |
| `Scheduling.ConvertNodeSelectorTerms` | internal/kubernetes/deploy.go:185-194 | the same for terms |
| `Scheduling.ConvertPreferredSchedulingTerms` | internal/kubernetes/deploy.go:210-227 | the same for preferred terms |
| `Scheduling.ConvertAffinityConfig` | internal/kubernetes/deploy.go:141-182 | the converted node affinity, with empty lists left out |
| `Scheduling.WorkloadPodSpec` | internal/kubernetes/workload_pod.go:69-91 | placement before architecture before conversion; the pod, or none when the container cannot be built, and in both cases the mutated specification; the value of the pod's kubernetes.io/arch selector, by the spelling of the name or the substrings of the image |
| `Scheduling.PlaceAndRoute` | internal/docker/driver.go:47-49 | the two passes on a specification, in the object it shares |
| `NodeDrain.DrainNode` | internal/kubernetes/nodes.go:117-203 | every error case, exactly when its API call failed; the cordon touches this node only, and what it writes: unschedulable, the label and the NoSchedule taint kranix.io/drain; which pods are evicted and which remain, counted on their owners, labels and delete failures; evicted + remaining + skipped is the pods listed; Drained exactly when nothing remains |
| `NodeDrain.EvictPods` | internal/kubernetes/nodes.go:167-187 | for any delete failures, the counters count the pods' fates |
| `NodeDrain.FatesMeaning` | internal/kubernetes/nodes.go:169-187 | how many pods are evicted, remain or are skipped, counted on their owners, labels and delete failures |
| `NodeDrain.FateMeaning` | internal/kubernetes/nodes.go:169-187 | the fate of one pod on its fields |
| `NodeDrain.FatesPartition` | internal/kubernetes/nodes.go:169-187 | every pod has exactly one fate |
| `NodeDrain.CordonedNodeIsMarked` | internal/kubernetes/nodes.go:131-142 | a cordoned node reports draining and scores at most 65, whatever its conditions |
| `NodeDrain.CordonIdempotent` | internal/kubernetes/nodes.go:214-221 | draining again, for whatever reason, changes nothing on the node |
| `NodeDrain.CordonMeaning` | internal/kubernetes/nodes.go:131-142 | what a cordon writes and what it keeps, on the fields |
| `NodeDrain.DrainValueMeaning` | internal/kubernetes/nodes.go:131-134 | the taint's value, character by character |
| `NodeDrain.DaemonSetsBlockDrained` | internal/kubernetes/nodes.go:170-173 | exactly which pods keep a node from being Drained |
| `NodeDrain.AppendTaint` | internal/kubernetes/nodes.go:214-221 | adds the taint unless one has its key and effect |
| `NodeDrain.ScoreNode` | internal/kubernetes/nodes.go:58-114 | the flags are what the conditions, taints and labels say, and the score follows from them |
| `NodeDrain.NodeScoreInPoints` | internal/kubernetes/nodes.go:58-114 | the score in points, by condition, cordon and drain |
| `Checkpoints.StoreRefinesRecords` | internal/checkpoint/store.go:20-30 | after any saves of ids without '/', the flat map is the nested one |
| `Checkpoints.LookupAgrees` | internal/checkpoint/store.go:43-46 | and a flat lookup is the nested one |
| `Checkpoints.LookupIsLatest` | internal/checkpoint/store.go:43-46 | after any saves at all, a lookup finds the last save that shares its key |
| `Checkpoints.KeysCollideIff` | internal/checkpoint/store.go:20-22 | two pairs share a key exactly when equal, or when one workload id extends the other past a '/' and the checkpoint ids match accordingly |
| `Checkpoints.PrefixTestExact` | internal/checkpoint/store.go:34-37 | when the prefix test passes, for all ids |
| `Checkpoints.PrefixTestIff` | internal/checkpoint/store.go:34-37 | without '/', exactly for the workload's own keys, also when one id begins another |
| `Checkpoints.ListMeaning` | internal/checkpoint/store.go:32-41 | the keys that pass are the workload's records, each once |
| `Checkpoints.Store.Save` | internal/checkpoint/store.go:24-31 | the id given, or "ckpt-" and the clock; the time of the save; the state kept; and the record under the workload's id, a slash and its own |
| `Checkpoints.Store.Get` | internal/checkpoint/store.go:43-46 | the latest colliding save; without '/', the nested store's record |
| `Checkpoints.Store.List` | internal/checkpoint/store.go:32-41 | every record whose key begins with the workload's id and a slash and goes on, once; without '/', exactly the workload's records and none of another's |
| `Checkpoints.ListsMeaning` | internal/checkpoint/store.go:32-41 | the listed records by their keys, and how many |
| `Checkpoints.LatestMeaning` | internal/checkpoint/store.go:43-46 | by position, the last save whose ids read the same with the slash between |
| `Checkpoints.GeneratedIDsInjective` | internal/checkpoint/store.go:26 | generated ids differ when the clock does |
| `ImageRefs.CanonicalIff` | pkg/imageutil/image.go:46-65 | printing and parsing again gives the same triple exactly when the reference has at most one ':' |
| `ImageRefs.ParsedShape` | pkg/imageutil/image.go:47-62 | parsing takes the one ':' of a tag away and keeps all of them when there are more |
| `ImageRefs.TagSwallowed` | pkg/imageutil/image.go:47-54 | what it gives otherwise |
| `ImageRefs.CanonicalWhenPlain` | pkg/imageutil/image.go:46-65 | any triple with a dotted registry and no ':' survives printing and parsing |
| `ImageRefs.RegistryRoundTrip` | pkg/imageutil/image.go:56-62 | registry and repository are read back from their path |
| `ImageRefs.RegistryShape` | pkg/imageutil/image.go:56-62 | the registry is one path component with a dot, whatever the reference |
| `ImageRefs.ParseMeaning` | pkg/imageutil/image.go:46-65 | every form with at most one colon: a first component with a dot is the registry, otherwise docker.io and the whole path; the text after the colon is the tag, otherwise latest |
| `ImageRefs.ManyColons` | pkg/imageutil/image.go:47-54 | with two colons or more the whole text is the path and the tag latest |
| `ImageRefs.ManyColonsNoSlash` | pkg/imageutil/image.go:47-62 | the same without a slash |
| `ImageRefs.JoinSplit` | pkg/imageutil/image.go:56-59 | joining undoes splitting |
| `ImageRefs.SplitJoin` | pkg/imageutil/image.go:56-59 | splitting undoes joining, for pieces without the separator |

## Left out

- Migration.CloneSpec: covers the fields the protocol uses and the scheduling object; other nested pointers that the Go copy shares with the original are not in it.
- Scheduling.ApplyNodePlacement: the node selector map and the affinity inside a scheduling object are values, so sharing below that object is not modelled.
- Migration.MigrateWorkload: the success message and timestamp are not modelled, and the wait's cancellation is a free choice.
- ImageCaching.ImageCache.Put: the two clock readings for cachedAt and lastAccessed are one; persisting metadata and creating the cache directory are no-ops or I/O.
- ImageCaching.ImageCache.UpdateStatus: the access sums are unbounded integers and the rate a real; the pointer that GetStatus hands out is not modelled.
- Health.BackendTracker.Snapshot: prunes under a read lock in the source; the model takes it as one critical section. Averages are reals, so rounding and NaN are not covered.
- CacheCleanup.CleanupTransparent: for a Put the condition goes one way. A Put that evicts while something expired is resident can also leave the same live images, as when it evicts only expired ones.
- Ephemeral.Manager.CreateEnvironment: what a placing driver does to the scheduling of the workload is modelled for migrations only; trigger type, branch, commit and creation time are not kept, and the driver's error text is not part of the reason.
- Ephemeral.Manager.Others: a creation of the script under an id that is already taken is skipped, by the assumption on ids.
- NetworkPolicies.SanitizePolicyName: lower-casing is ASCII only, and lengths are characters rather than bytes.
- NodeDrain.DrainNode: messages and the grace period are not modelled; kube-proxy pods that are skipped stay uncounted, as in the source.
- Scheduling.WorkloadPodSpec: how the container is built (only whether it is), priority class, tolerations, spot handling, pod affinity and pod anti-affinity are not in it.
- Checkpoints.Store.Save: the record keeps its id, state and time only.
- GetEnvironment, ListEnvironments, the ticker loops and DockerPlatform only read or schedule what is modelled here.
- Docker, Kubernetes, Podman, Compose and SSH client calls, log streaming and process execution: each is a nondeterministic success or failure where it matters.
- Metrics, plugin and backend registries, GPU, probes, bandwidth, labels and volume handling, configuration, the gRPC server and the edge agent: field mapping and wiring that would only add easy members.
- Data races of the Go memory model: critical sections are atomic, and interleaving happens where the code releases the lock.
