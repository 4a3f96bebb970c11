# Verified models of the platform's protocols and codecs

Dafny models of the parts of the platform that carry its hard logic, with proofs about every
input, every run or every interleaving:

- **Builds** (`BuildQueue`, `BuildWorker`, `CascadeFreshness`, `StaleRuns`, `CascadeTermination`,
  `PollerDedupe`): the queue of builds, the resolution of dependencies against latest successes, and
  the cascade that rebuilds dependents. `BuildWorker.Worker` is the imperative form; its methods are proved
  against the functions of `BuildQueue`.
- **Agent commands** (`CommandQueue`, `CommandDelivery`, `Backpressure`): the durable list of an
  agent, replay on reconnect, deduplication by command id and removal by acknowledgement.
- **Registry** (`Registry`, `GcFixpoint`, `RegistryGc`, `GcConvergence`, `BlobStore`, `RangeHeader`):
  what repositories share, what a deletion may change elsewhere, what repeated collections leave, what
  a failure leaks, the streaming of blob bytes, and the range header beside the standard's reading of it.
- **Deployment** (`Reconcile`, `DockerRedeploy`, `PassOnHosts`): desired state against reported rows,
  the agent's docker commands, atomically and one docker call at a time, and what the commands of a
  pass leave on the hosts.
- **Auto-fix lock** (`FixLock`): mutual exclusion across handlers that switch at their awaits.
- **Codecs** (`Numerals`, `Strings`, `Base32`, `Der`, `RegistryToken`): base 32 with a wrapping
  accumulator, DER, base64url, tokens and scopes.
- **Small state machines** (`Cooldown`, `Template`, `BuildVars`): the incident cooldown, template
  substitution, and the variables a build gets from its dependencies.

Classes stand where the program updates objects, maps or tables in place; each method is proved
against a function on values, and the theorems are about those functions.

## Assumptions

- Every SQL statement and every Redis call is atomic. Rows are created at strictly increasing
  times, so row order is `created_at` order. The dependents of a service are listed in table order.
- A drain is one step: the `drainBusy` flag keeps the drains of a process apart. The service table
  is fixed but for the cached `depends_on`.
- In `CommandDelivery` the list operations are atomic; `Backpressure` is about overlapping ones.
- No push runs while the garbage collector does. In `BlobStore` the requests of an upload session do not
  overlap: a repeated PATCH starts when the one before it has ended.
- `Reconcile` and `FixLock` look at one tenant, whose services, bindings and builds do not change meanwhile.
- Signatures, JSON and the hash are parameters, with the laws they need as preconditions:
  a signature verifies what was signed, reading undoes writing, a hash may be fed piecewise.

## What does not hold as one might expect

Each has a proved exact condition or a proved example.

- Builds go stale when statements fail, and exactly then: over any run no state is stale iff every
  drain met a condition on the rows, the cache and the failures of that drain (`RunsStayFresh`). A
  success keeps freshness iff each service that recorded it waits already, or is listed by the cache
  and its insert works (`SuccessFreshIff`); while the cache matches, only failed inserts matter
  (`MatchingCacheReachesIff`). A snapshot of `depends_on` that was not written is logged and the build
  goes on; it breaks the cache exactly under `CacheMatchesIff`, and the next success of the dependency
  then queues nothing (`LostSnapshotGoesStale`). A build whose terminal statuses could not be written
  stays running and may have used up the queued row of its service (`CrashFreshIff`). Runs that go
  stale: `LostSnapshotGoesStale`, `LostInsertGoesStale`, `CrashGoesStale`. On a dependency cycle the
  queue never empties (`CycleNeverQuiet`).
- A lost acknowledgement leaves a command listed for as long as the agent process lives
  (`LostAckStaysPending`). The list equals the history only while acknowledged ids are not sent
  again (`HistoryIffFresh`). The delete-and-repush fallback equals `lrem` exactly when the frame is
  queued once (`FallbackIffQueuedOnce`). Overlapping sends do pass the bound (`BoundIsMet`) and
  can list one command twice (`OverlapListsTwice`).
- The panel's tag deletion can take a manifest another repository serves as the child of a list
  (`DeleteTagInvisibleIff`, `DeleteTagBreaksList`).
- The comment at apps/api/src/registry/gc.ts:103-108 calls a row without its object a small window;
  such a row outlives every later collection (`DanglingStays`). An expired upload session that
  still names a committed blob's object takes the blob's bytes (`ReferencedBlobKeepsBytesIff`,
  `SessionTakesBytes`).
  `bytesReclaimed` misses deletes that took effect but reported an error (`CollectConservesBytes`).
- Reconciliation converges exactly under `ReconcileConvergesIff`. Moving an agent to an environment
  that resolves to the same namespace leaves a row that makes every later pass redeploy, also after
  the redeploys of the move have been reported (`EnvironmentChangeConvergesIff`).
- Teardown of the default namespace removes the service's containers of every namespace, so it does
  not commute with a redeploy (`CommuteIff`). The agent executes the two in either order, so a quiet
  pass means that every service runs exactly when no popped row reports that namespace
  (`QuietMeansRunningIff`); giving a service of the default namespace another one can end with matching
  rows and nothing running (`QuietWhileNothingRuns`).
- An acknowledgement that arrives before its group is recorded locks the service for good
  (`EarlyAckLocksForGood`), and so does whatever throws while it holds the lock
  (`ThrowingLocksForGood`); which locks can still be released is `ReleasableIff`. The comment at
  apps/api/src/server.ts:468-481 promises a release on every acknowledgement.
- DER lengths and OID arcs wrap at 2^32 and the first two arcs share one byte (`LengthReadBackIff`,
  `TlvReadBackIff`, `OidReadBackIff`); an empty buffer is no INTEGER (`IntegerMeaning`); UTC times
  are read back between 1950 and 2049 only (`UtcTimeReadBackIff`). A certificate reads back exactly
  when its serial is not empty and both of its years are in that span (`BuiltCertificateIff`).
- The base-32 encoder's comment restricts it to lengths that are multiples of five; it is correct
  for all (`Encode`, `DecodesBack`).
- The answer to a `Range` meets sections 13.1.5 and 14.1 to 14.4 of RFC 9110 exactly under
  `RangeStandardIff`. A HEAD is answered with the range, or refused, where the header is to be ignored
  (`HeadHonoursRange`), and so is a GET with `If-Range` although no validator is sent (`IfRangeUnread`).
  A suffix of an empty blob is announced to end before it starts (`EmptyBlobSuffix`). The server refuses
  several ranges, such as `bytes=0-0,-1` (`SeveralRangesRefused`), a unit in other letters
  (`UnitCaseRefused`), a range that ends beyond the blob where the standard clips it
  (`EndBeyondRefused`), and a unit it does not know, which the standard has it ignore
  (`UnknownUnitRefused`). The size mismatch that apps/api/src/registry/routes.ts:957 says should never
  happen does after a failed request that wrote further (`SizeCheckIff`, `LeftoverTail`).
- A substitution can put a template together (`NestedBracesRescan`): with values that hold no brace a
  second pass changes the result iff a bound name was so formed (`SecondPassIff`), and no template is
  left iff every name that occurs is bound and none is formed (`OnePassIsEnough`); so for whole
  pipelines (`SecondWalkIff`, `OneWalkIsEnough`). A dependency's variable keeps its value iff the last
  dependency that writes the name writes the same (`VariableKeptIff`): `_short_version` can take
  another's `_version` (`ShortClash`). The header of builddeps.ts calls `_version` the short SHA; the
  code sets the full one, and so does the model.
- Incident keys of different services coincide for some fingerprints iff `tenant:service:` of one begins
  that of the other (`KeysClashIff`), as they do across tenants in `KeysClash`; for events out of time
  order the cooldown is not optimal (`OutOfOrderIsNotOptimal`).

## Model

| member | source | states |
|---|---|---|
| CascadeFreshness.RunsStayFresh | apps/worker/src/builds.ts:418-432 | over any run, whatever statements fail in it, no state has a last success with an outdated dependency and no build of its service queued, iff each drain met the condition that can be checked before it |
| CascadeFreshness.StepFreshIff | apps/worker/src/builds.ts:418-739 | the same for one step, whichever way it ends |
| CascadeFreshness.ReliableRunsStayFresh | apps/worker/src/builds.ts:418-432 | a run in which snapshots, statuses and cascade inserts are written is always fresh, its rows in order and its cache exact |
| CascadeFreshness.QuietMeansUpToDate | apps/worker/src/builds.ts:1508-1545 | once the queue of such a run is empty every last success used the newest success of each dependency |
| CascadeFreshness.SuccessFreshIff | apps/worker/src/builds.ts:1508-1545 | a success leaves a fresh state iff each service that recorded it had another build queued, or is listed by the cached depends_on and its insert works |
| CascadeFreshness.MatchingCacheReachesIff | packages/db/src/queries.ts:887-909 | while the cache matches what was recorded, only the listing and the inserts decide |
| CascadeFreshness.CrashLeavesRunning | apps/worker/src/builds.ts:1664-1671 | a drain ends in success, or leaves its row running, exactly when the failures of its statements say so beforehand |
| CascadeFreshness.TerminalStatus | apps/worker/src/builds.ts:434-739 | the exact status a drain leaves, from the row and the failures: no_pipeline iff the commit was cloned, has no kaiad.yaml and that could be written; success and running iff as said; failed otherwise, as after a failed stage |
| CascadeFreshness.DrainedRow | apps/worker/src/builds.ts:434-548 | the rest of the row: an empty commit is filled with the head that was found, and once the dependencies resolve each is recorded with its newest success, whatever follows |
| CascadeFreshness.SnapshotMeans | apps/worker/src/builds.ts:515-534 | the cached depends_on is rewritten iff a usable kaiad.yaml was found and the statement works, for that service only |
| BuildQueue.NewestSuccess | packages/db/src/queries.ts:911-935 | the build a dependency resolves to is the last successful one of the service of that name in the same tenant |
| CascadeFreshness.CrashFreshIff | apps/worker/src/builds.ts:434-739 | after a build that stays running, wherever it stopped, the state is fresh iff each dependency its service recorded is still up to date or another of its builds was queued |
| CascadeFreshness.FailureStaysFresh | apps/worker/src/builds.ts:1664-1671 | a build that ends failed, or without a pipeline, never makes a fresh state stale |
| CascadeFreshness.CacheMatchesIff | apps/worker/src/builds.ts:526-534 | a drain breaks the cached depends_on exactly when a lost snapshot, or one written by a build that stays running, leaves out a recorded name |
| StaleRuns.LostSnapshotGoesStale | apps/worker/src/builds.ts:526-534 | a run from no builds that a lost snapshot makes stale |
| StaleRuns.LostInsertGoesStale | apps/worker/src/builds.ts:1508-1561 | one that a lost cascade insert makes stale |
| StaleRuns.CrashGoesStale | apps/worker/src/builds.ts:1664-1671 | one that a build after dependency resolution, whose statuses cannot be written, makes stale |
| CascadeFreshness.DrainFrame | apps/worker/src/builds.ts:418-432 | a drain settles one row, appends queued rows only and touches one cache entry |
| CascadeFreshness.DrainSuccess | apps/worker/src/builds.ts:701-731 | a successful drain recorded the latest successes and queued every dependent |
| CascadeFreshness.DrainKeepsInv | apps/worker/src/builds.ts:418-739 | every drain keeps rows in order, the cache exact and the state fresh |
| CascadeTermination.AcyclicIffRanked | packages/db/src/queries.ts:887-909 | services have a rank iff no set of them feeds itself |
| CascadeTermination.DrainSpends | apps/worker/src/builds.ts:418-432 | every drain lowers the sum of W over queued builds, by exactly one when the build and its cascade succeed |
| CascadeTermination.CascadeSpends | apps/worker/src/builds.ts:726-731 | a run of drains costs at most the potential it started with |
| CascadeTermination.OneTriggerCosts | apps/worker/src/builds.ts:1508-1545 | one trigger of s causes at most W(s) builds, and exactly W(s) when all succeed |
| CascadeTermination.QuietIffSpent | packages/db/src/queries.ts:728-743 | the queue is empty iff the potential is spent |
| CascadeTermination.CycleNeverQuiet | apps/worker/src/builds.ts:1508-1545 | on a cycle with every build succeeding the queue never empties |
| PollerDedupe.SameHeadsQueueNothing | apps/worker/src/builds.ts:355-392 | after a poll, a poll that sees the same heads queues nothing, whatever was drained or started by hand between |
| PollerDedupe.PollAppendsNewHeads | apps/worker/src/builds.ts:355-392 | a poll keeps all rows and appends only queued ones of the poller with a head that is new |
| PollerDedupe.OneRowPerNewHead | apps/worker/src/builds.ts:355-392 | exactly one for each service whose head differs from its newest polled commit, none for the others |
| BuildWorker.Worker.ClaimNextBuild | packages/db/src/queries.ts:728-743 | the oldest queued row becomes running, and only that one |
| CascadeFreshness.Settled | packages/db/src/queries.ts:762-776 | the row a build settles becomes the last finished one of its service, and if it succeeded the newest success of its name; every other service keeps both |
| BuildWorker.Worker.ResolveDeps | apps/worker/src/builddeps.ts:56-111 | each name to its latest success, none at the first without one |
| BuildWorker.Worker.TriggerDependentBuilds | apps/worker/src/builds.ts:1508-1561 | appends one queued row for each dependent whose insert succeeds |
| BuildWorker.Worker.RunDrainOnce | apps/worker/src/builds.ts:418-432 | equals one drain step of the queue |
| BuildWorker.Worker.RunPollOnce | apps/worker/src/builds.ts:355-392 | equals one poll step, service by service |
| CommandDelivery.RunsKeepHistory | apps/api/src/realtimeManager.ts:155-256 | over every run the list is the accepted commands in order minus the acknowledged ones, what left it was executed, and no agent process executes an id twice |
| CommandDelivery.HistoryIffFresh | apps/api/src/realtimeManager.ts:225-256 | a send keeps list and history equal iff it does not enqueue an acknowledged id |
| CommandDelivery.LostAckStaysPending | apps/agent/internal/transport/client.go:652-664 | over every run in which the agent process does not restart, a command whose acknowledgement was lost stays listed |
| CommandDelivery.LossFreeRoundDrains | apps/api/src/realtimeManager.ts:155-172 | after a replay, a loss-free run that comes to rest leaves, of the commands the agent knows, exactly those whose acknowledgement had been lost before; one without an id always stays, one of an unknown type unless another frame with its id was executed |
| CommandDelivery.RoundComesToRest | apps/agent/internal/transport/client.go:582-706 | from every state of the link some loss-free run without further sends comes to rest |
| CommandDelivery.HandleMeans | apps/agent/internal/transport/client.go:582-665 | a frame starts iff it has an id not seen before and a known type, and is dropped otherwise |
| CommandDelivery.FinishMeans | apps/agent/internal/transport/client.go:667-706 | the acknowledgement goes out iff the socket is up and the write works; otherwise it is never sent again |
| CommandDelivery.SendMeans | apps/api/src/realtimeManager.ts:225-256 | a frame is written only to a registered session with a live socket, also when its id is listed; the list depends on neither |
| CommandDelivery.ReconnectMeans | apps/api/src/realtimeManager.ts:155-172 | a lost connection takes what is on the wire; reconnecting replays the list in order to an agent that still knows what it saw |
| CommandDelivery.RestartMeans | apps/agent/internal/transport/client.go:652-664 | a restarted agent has seen nothing; neither it nor a dropped session changes the list |
| CommandDelivery.AgentClient.HandleIncoming | apps/agent/internal/transport/client.go:582-665 | a first sight is started, a repeat is dropped without an acknowledgement |
| CommandDelivery.AgentClient.ExecuteAndAck | apps/agent/internal/transport/client.go:667-706 | executes and acknowledges on the connection of the moment |
| CommandQueue.AcknowledgeFilters | apps/api/src/realtimeManager.ts:174-197 | with distinct ids an acknowledgement removes exactly the named entry |
| CommandQueue.FallbackIffQueuedOnce | apps/api/src/realtimeManager.ts:174-197 | the delete-and-repush path equals lrem iff the matched frame is queued once |
| CommandQueue.EnqueueKeeps | apps/api/src/realtimeManager.ts:225-256 | without overlap ids stay distinct and the list within maxPending |
| CommandQueue.RealtimeManager.RegisterAgent | apps/api/src/realtimeManager.ts:155-172 | stores the session and replays the list in order |
| CommandQueue.RealtimeManager.SendCommand | apps/api/src/realtimeManager.ts:225-256 | refused with backpressure iff durable, not listed yet and the list is full; otherwise listed once at the end and written when the agent is connected, also when it was listed already |
| CommandQueue.RealtimeManager.RemovePendingByCommandId | apps/api/src/realtimeManager.ts:174-197 | removes the first entry with the id by either path |
| Backpressure.BoundedByInFlight | apps/api/src/realtimeManager.ts:225-246 | with at most k overlapping sends the list never exceeds maxPending - 1 + k |
| Backpressure.BoundIsMet | apps/api/src/realtimeManager.ts:225-246 | and some run reaches that length |
| Backpressure.SendWithoutOverlap | apps/api/src/realtimeManager.ts:225-246 | without overlap the three calls are one send: nothing for a listed id or a full list, one entry at the end otherwise |
| Backpressure.OverlapListsTwice | apps/api/src/realtimeManager.ts:229-244 | two overlapping sends of one command list it twice |
| Backpressure.AckMeans | apps/api/src/realtimeManager.ts:174-197 | an acknowledgement works on the list of that moment and disturbs no send under way |
| Registry.RunsAreInvisibleElsewhere | packages/db/src/registry.ts:158-221 | tag deletions in one repository, unreferenced deletes and collections never change what another repository reads |
| Registry.RunsKeepTagsResolving | packages/db/src/registry.ts:273-291 | nor leave a tag without its manifest |
| Registry.ReadsMean | packages/db/src/registry.ts:158-221 | a repository reads by tag what its tag names, and by digest what one of its tags names or lists, and nothing else |
| Registry.DeleteTagResult | apps/api/src/registry/admin.ts:127-154 | the panel's deletion takes that tag and no other, and the manifest iff no tag of any repository is left on it |
| Registry.UnreferencedGoes | packages/db/src/registry.ts:273-291 | the conditional delete removes a manifest iff no tag and no list names it, and nothing else |
| Registry.DeleteTagInvisibleIff | apps/api/src/registry/admin.ts:127-154 | the panel's deletion is invisible elsewhere iff the manifest stays tagged or no other repository serves it as a list's child |
| Registry.DeleteTagBreaksList | apps/api/src/registry/admin.ts:127-154 | two repositories where the deletion in one takes a child of the other's list |
| Registry.Panel.DeletePanelTag | apps/api/src/registry/admin.ts:127-154 | look-up, tag delete, re-check and manifest delete give the modelled state and the digest |
| Registry.Panel.DeleteManifestIfUnreferenced | packages/db/src/registry.ts:273-291 | deletes exactly an orphan |
| GcFixpoint.PassKeepsReachable | apps/api/src/registry/gc.ts:84-95 | no pass removes a manifest that a tag leads to, whichever of its deletes fail |
| GcFixpoint.PassMeans | packages/db/src/registry.ts:494-509 | a pass deletes exactly the manifests no tag and no list names and whose delete does not fail |
| GcFixpoint.Survivors | apps/api/src/registry/gc.ts:84-95 | after n passes a manifest is left iff a tag leads to it or n manifests stood above it |
| GcFixpoint.ConvergesWithinLongest | packages/db/src/registry.ts:494-509 | longest unreachable chain + 1 passes leave exactly the reachable manifests |
| GcFixpoint.NoSooner | packages/db/src/registry.ts:494-509 | and fewer do not |
| GcFixpoint.AcyclicConverges | packages/db/src/registry.ts:494-509 | every acyclic graph converges |
| GcFixpoint.IdlePassIffClean | apps/api/src/registry/gc.ts:84-95 | a pass reclaims nothing iff everything left is reachable, on acyclic graphs |
| GcFixpoint.CyclesAreNeverCollected | packages/db/src/registry.ts:494-509 | manifests that refer to each other in a cycle stay for ever |
| GcConvergence.CollectionsConverge | apps/api/src/registry/gc.ts:55-119 | longest + 1 clean collections leave exactly the reachable manifests and the blobs those use |
| GcConvergence.CollectionsArePasses | apps/api/src/registry/gc.ts:84-95 | collections treat manifests as the passes do |
| RegistryGc.CollectKeepsNoLeak | apps/api/src/registry/gc.ts:73-116 | whatever fails, every live large object is still named by a row |
| RegistryGc.CollectConservesBytes | apps/api/src/registry/gc.ts:98-117 | blob bytes before are those after plus those of the rows deleted without an error plus those of deletes that took effect but reported one |
| RegistryGc.DanglingStays | apps/api/src/registry/gc.ts:100-116 | a row whose object is gone outlives every collection |
| RegistryGc.ManifestGoneIff | apps/api/src/registry/gc.ts:84-95 | a manifest goes iff no tag and no list named it and its delete worked; all tags and other manifests stay |
| RegistryGc.OrphanBlobGoneIff | apps/api/src/registry/gc.ts:98-117 | a blob's row goes iff no manifest left has it as config or layer, its object was live and not taken by an expired session, and both statements worked |
| RegistryGc.RunningSessionKept | packages/db/src/registry.ts:451-458 | a session that has not expired keeps its row and, when no other row names it, its object, whatever fails |
| RegistryGc.ExpiredSessionGoneIff | apps/api/src/registry/gc.ts:71-82 | an expired one loses its row iff its object was live and both statements worked, and its object iff the unlink worked |
| RegistryGc.ReferencedBlobKeepsBytesIff | apps/api/src/registry/gc.ts:71-81 | a blob that a manifest left uses keeps its row, and its bytes iff every session with that object that has expired failed to be unlinked |
| RegistryGc.SessionTakesBytes | apps/api/src/registry/gc.ts:71-81 | a tagged image that loses its layer's bytes to an expired session, all statements working |
| RegistryGc.CleanManifests | packages/db/src/registry.ts:494-509 | a clean collection drops exactly the orphan manifests |
| RegistryGc.CleanBlobs | packages/db/src/registry.ts:469-492 | and leaves exactly the blobs a remaining manifest uses, with their objects |
| RegistryGc.Collector.ReclaimUploads | apps/api/src/registry/gc.ts:71-82 | the first loop, fault by fault |
| RegistryGc.Collector.ReclaimManifests | apps/api/src/registry/gc.ts:84-95 | the second loop |
| RegistryGc.Collector.ReclaimBlobs | apps/api/src/registry/gc.ts:97-117 | the third loop with its byte count |
| RegistryGc.Collector.RunGarbageCollection | apps/api/src/registry/gc.ts:55-119 | the three loops give the modelled tables and leak nothing; each counter and bytesReclaimed is that of the rows that went without an error, and every other listed row counts as an error |
| Reconcile.ReconcileConvergesIff | apps/api/src/server.ts:3496-3638 | after a pass whose redeploys are executed and reported in any order, the next dispatches nothing iff no two live agents share a key and every stale row is popped or taken over |
| Reconcile.OtherwiseNeverQuiet | apps/api/src/server.ts:3551-3563 | without the condition every later pass dispatches again |
| Reconcile.EnvironmentChangeConvergesIff | apps/api/src/server.ts:3229-3320 | when moving an agent to a fresh environment converges, before and after the redeploys of the move are reported |
| Reconcile.RowsAreReasoned | packages/db/src/queries.ts:1018-1076 | every row after a pass is an original one or the report of a redeployed pair under its agent's environment |
| Reconcile.StaleRowStays | packages/db/src/queries.ts:1102-1116 | a stale row nothing pops or takes over stays |
| Reconcile.AnsweredSettles | apps/api/src/server.ts:1410-1434 | after its last redeploy is reported a pair's row matches its build, with the agent's own default namespace too |
| Reconcile.UndispatchedIsSettled | apps/api/src/server.ts:3545-3565 | a live pair without a dispatched target has one row, and that one matches |
| Reconcile.ResolveAlikeIff | packages/contracts/src/pipeline.ts:379-400 | two pipelines with the same overrides for an environment resolve alike there iff their defaults agree in the fields not overridden, an absent namespace counting as the empty one |
| Reconcile.EnvironmentValues | packages/contracts/src/pipeline.ts:379-400 | each field has the value of its override, or the definition's own where there is none |
| Reconcile.CommandsMean | apps/api/src/server.ts:3523-3636 | what a pass sends for a target, from the tables: nothing for a pair not ready or up to date in image, build, environment and namespace; a redeploy with the latest build and the resolved pipeline otherwise, behind a teardown where the namespace changed |
| Reconcile.VisitMeans | packages/db/src/queries.ts:1102-1116 | with the teardown go all rows the agent has for the service, and a visit changes no other row |
| Reconcile.LeftAloneIff | apps/api/src/server.ts:3545-3565 | a pass leaves a ready pair alone iff it has a row and each of its rows has the latest image and build, the agent's environment and no other namespace than the wanted one |
| Reconcile.RowsBecomeCurrent | apps/api/src/server.ts:3496-3638 | after a convergent pass each ready pair has one row, of the latest image and build, under its agent's environment, and in the namespace it was put in |
| Reconcile.NewBuildIsDispatched | apps/api/src/server.ts:3551-3563 | from a quiet world a new build id or image makes the next pass redeploy it for every row of the pair |
| Reconcile.MoveMeans | apps/api/src/server.ts:3229-3320 | a move changes the agent's environment and pops the rows of exactly those of its services whose namespace resolves to another one there |
| Reconcile.SelectPipeline | packages/contracts/src/pipeline.ts:568-601 | a pipeline is selected iff a single one and no name, or several and one of theirs, and it is that one |
| Reconcile.RemovedStaysRemoved | packages/db/src/queries.ts:1102-1116 | a row of another environment that a pop deletes, or an upsert takes over, is not the agent's again after any run of the pass and its reports |
| Reconcile.OthersKeepSettled | packages/db/src/queries.ts:1018-1076 | an upsert for one pair, or a visit of it, leaves every other settled pair settled |
| Reconcile.Reconciler.VisitTarget | apps/api/src/server.ts:3523-3636 | one target: skip, leave, or pop, tear down and redeploy |
| Reconcile.Reconciler.ReconcileAll | apps/api/src/server.ts:3496-3638 | the pass over listed targets with its commands in order; it counts the targets that got a command and those not ready |
| DockerRedeploy.RedeployResult | apps/agent/internal/executor/redeploy.go:336-454 | a redeploy leaves exactly the wanted number of containers with the service and namespace labels, each running the wanted image under its build and environment labels, and every other container without a colliding name as it was |
| DockerRedeploy.TeardownResult | apps/agent/internal/executor/redeploy.go:217-260 | a teardown removes the service's containers of that namespace or of none, all of them for the default one, and nothing else |
| DockerRedeploy.NameMeans | apps/agent/internal/executor/redeploy.go:428-434 | containers are named by namespace, the first eight characters of the service id and the number |
| DockerRedeploy.DecimalReadBack | apps/agent/internal/executor/redeploy.go:434 | numbers in names and labels are written in decimal |
| DockerRedeploy.CommuteIff | apps/agent/internal/executor/redeploy.go:217-260 | redeploy and teardown commute iff nothing is deployed or the torn-down namespace is neither the default nor the redeployed one |
| DockerRedeploy.InterleavingsAgree | apps/agent/internal/transport/client.go:664 | under that condition every interleaving of the docker calls ends alike |
| DockerRedeploy.InterleavingsFinish | apps/agent/internal/transport/client.go:664 | every interleaving can go on until both commands are done |
| PassOnHosts.PairRunsIff | apps/api/src/server.ts:3551-3636 | in every order of a pass's commands a pair ends with exactly as many running containers as its pipeline wants, of the latest build's image, with that build's number and the agent's environment as labels, iff it wants none or no row popped for it reports the default namespace |
| PassOnHosts.QuietMeansRunningIff | apps/api/src/server.ts:3496-3638 | after a complete pass executed in any order, a quiet next pass implies that every live pair has its replicas iff the pass does not converge or each pair is so |
| PassOnHosts.InterleavedPairRuns | apps/agent/internal/transport/client.go:664 | with another namespace than the default torn down the replicas are there after every interleaving of the two commands' docker calls |
| PassOnHosts.QuietWhileNothingRuns | apps/agent/internal/executor/redeploy.go:217-260 | a service moved out of the default namespace: rows match, the next pass is quiet, and one order leaves none of its containers |
| DockerRedeploy.NamesClashIff | apps/agent/internal/executor/redeploy.go:625-631 | container names clash only within a namespace, an id prefix and a replica number |
| DockerRedeploy.DockerHost.RedeployDocker | apps/agent/internal/executor/redeploy.go:336-454 | succeeds iff no call fails, then gives the modelled containers; foreign containers stay in any case |
| DockerRedeploy.DockerHost.TeardownDocker | apps/agent/internal/executor/redeploy.go:217-260 | removes what is doomed but for failed removals, and counts |
| DockerRedeploy.DockerHost.RemoveOwn | apps/agent/internal/executor/redeploy.go:365-385 | succeeds iff no removal of an own container fails, then no own container is left, and every foreign one stays in any case |
| FixLock.OneFixPerService | apps/api/src/server.ts:1322-1379 | in every interleaving at most one fix command per service is sent and not acknowledged, and the service is locked meanwhile |
| FixLock.RunsKeepInv | apps/api/src/server.ts:1222-1379 | a service is locked iff exactly one handler, recorded command or ack handler owes its release |
| FixLock.SkippingReleases | apps/api/src/server.ts:1370-1372 | an outcome other than a dispatch gives the lock back |
| FixLock.FreeServiceIsFixed | apps/api/src/server.ts:1335-1366 | in every reachable state, whatever else is locked, a handler whose service is found, free and not skipped locks that service alone and sends it its only fix command |
| FixLock.FoundIffLocked | apps/api/src/server.ts:1330-1366 | a found service is locked afterwards, the handler goes on iff it was free, and a skip gives the lock back with its reason |
| FixLock.NoKeyIsMissingAuth | apps/api/src/autoFixDispatcher.ts:74-82 | without key material nothing is sent, the outcome is the missing authorisation and the lock is given back |
| FixLock.ThrowingLocksForGood | apps/api/src/server.ts:1227-1248 | whatever throws while it holds the lock leaves the service locked after every further run |
| FixLock.ReleasableIff | apps/api/src/server.ts:1227-1248 | a held lock can still be released iff its holder has not thrown and its acknowledgement did not come before the group was recorded |
| FixLock.IdleLocksAreLost | apps/api/src/server.ts:1222-1248 | at rest exactly the lost locks are held |
| FixLock.AckFrees | apps/api/src/server.ts:1222-1241 | a recorded command's acknowledgement frees its service |
| FixLock.EarlyAckLocksForGood | apps/api/src/server.ts:1222-1226 | an acknowledgement before the group is recorded locks for good |
| FixLock.LookupMeans | apps/api/src/server.ts:1330-1334 | a reported service is looked up by id and, failing that, by name |
| FixLock.Guards | apps/api/src/autoFixDispatcher.ts:43-72 | the dispatcher goes on exactly when no reason to skip applies |
| FixLock.SkipReasons | apps/api/src/autoFixDispatcher.ts:43-72 | and which reason it gives, exactly |
| FixLock.FixServer.OnServiceFound | apps/api/src/server.ts:1325-1366 | look-up, synchronous acquire and the dispatcher's guards as one segment, which keeps the lock invariant |
| FixLock.FixServer.OnKeyMaterial | apps/api/src/autoFixDispatcher.ts:74-106 | missing key or enqueue of a fresh command, keeping the invariant |
| FixLock.FixServer.OnOutcome | apps/api/src/server.ts:1367-1380 | release, or recording of the group, keeping the invariant |
| FixLock.FixServer.OnCommandAck | apps/api/src/server.ts:1222-1226 | takes the group out of the map, keeping the invariant |
| FixLock.FixServer.OnAckServiceFound | apps/api/src/server.ts:1233-1242 | releases the service the reference resolves to, keeping the invariant |
| Base32.Encode | packages/registry-auth/src/index.ts:126-143 | the wrapping accumulator yields the mathematical base-32 expansion for every length |
| Base32.DecodesBack | packages/registry-auth/src/index.ts:126-143 | which decodes back (section 6 of RFC 4648) |
| Base32.ExpansionUnique | packages/registry-auth/src/index.ts:126-143 | and is the only one |
| Base32.KnownTexts | packages/registry-auth/src/index.ts:126-143 | two texts of the alphabet of section 6 of RFC 4648 |
| Base32.Kid | packages/registry-auth/src/index.ts:113-124 | thirty bytes give twelve groups of four with colons between, from which the bytes can be read |
| Der.LengthReadBackIff | packages/registry-auth/src/index.ts:266-274 | a length is read back iff below 2^32 (section 8.1.3 of X.690) |
| Der.LengthCanonical | packages/registry-auth/src/index.ts:266-274 | only the minimal form is accepted (section 10.1 of X.690) |
| Der.EncodeLength | packages/registry-auth/src/index.ts:266-274 | the loop with its 32-bit shift gives those octets |
| Der.TlvReadBackIff | packages/registry-auth/src/index.ts:276-278 | tag, body and rest are recovered iff the body is below 2^32 bytes |
| Der.TlvCanonical | packages/registry-auth/src/index.ts:276-278 | and only the encoder's bytes are read as an element |
| Der.ConcatReadBack | packages/registry-auth/src/index.ts:280-282 | any run of elements is read back one by one |
| Der.EncodeInteger | packages/registry-auth/src/index.ts:284-290 | the stripping loop gives the modelled contents |
| Der.IntegerMeaning | packages/registry-auth/src/index.ts:284-290 | minimal, non-negative and of the same value, iff the buffer is not empty (section 8.3 of X.690) |
| Der.IntegerInjective | packages/registry-auth/src/index.ts:284-290 | equal encodings iff equal numbers |
| Der.EncodeOid | packages/registry-auth/src/index.ts:296-314 | the loops over arcs and septets give the modelled contents |
| Der.OidReadBackIff | packages/registry-auth/src/index.ts:296-314 | arcs come back iff the first two fit one octet and the others 32 bits (section 8.19 of X.690) |
| Der.SignatureOid | packages/registry-auth/src/index.ts:320-324 | the bytes of sha256WithRSAEncryption |
| Der.CommonNameOid | packages/registry-auth/src/index.ts:330-339 | the bytes of the common name attribute |
| Der.AlgorithmReadBack | packages/registry-auth/src/index.ts:320-324 | the algorithm identifier reads back as its OID and NULL |
| Der.NameReadBack | packages/registry-auth/src/index.ts:330-339 | the common name comes back out of issuer and subject |
| Der.UtcTimeReadBackIff | packages/registry-auth/src/index.ts:341-348 | a time is read back iff its year is 1950 to 2049 (section 4.1.2.5.1 of RFC 5280) |
| Der.CertificateReadBack | packages/registry-auth/src/index.ts:214-262 | any certificate reads back as three parts and its TBS as the elements it was made of |
| Der.BuiltCertificateIff | packages/registry-auth/src/index.ts:214-262 | the built certificate reads back with the value of its serial, both algorithms, issuer, times, subject, key and signature, iff the serial is not empty and both years are 1950 to 2049 |
| RegistryToken.B64UrlReadBack | packages/registry-auth/src/index.ts:145-152 | every buffer decodes back and its text has no dot (section 5 of RFC 4648) |
| RegistryToken.B64UrlText | packages/registry-auth/src/index.ts:145-152 | the text is as long as its digits and has letters, digits, minus and underscore only |
| RegistryToken.KnownTexts | packages/registry-auth/src/index.ts:145-152 | three texts of section 5 of RFC 4648 |
| RegistryToken.TokenReadBack | apps/api/src/registry/auth.ts:74-150 | a signed token splits, decodes and verifies; a verifier of another issuer or audience, or at another time, gets the refusal that names the first difference |
| RegistryToken.GrantedInItsLifetime | packages/registry-auth/src/index.ts:79-110 | under the signing configuration it is granted, with its access, iff iat <= now < iat + ttl (sections 4.1.4 and 4.1.5 of RFC 7519) |
| RegistryToken.OtherKeyRefused | apps/api/src/registry/auth.ts:117-119 | a token of another key is refused for its key id |
| RegistryToken.GrantedOnlyIf | apps/api/src/registry/auth.ts:74-150 | whatever is granted carries a signature over its first two parts, this issuer and audience, in time |
| RegistryToken.VerdictMeans | apps/api/src/registry/auth.ts:95-150 | for a token that was read, each verdict and each reason exactly: algorithm, key, key id, signature, issuer, audience, not before, expiry, in that order, and what is granted otherwise |
| RegistryToken.RefusedUnread | apps/api/src/registry/auth.ts:79-97 | before that: no bearer token is missing, other than three readable parts is malformed |
| RegistryToken.TrimMeans | apps/api/src/registry/auth.ts:82 | trimming takes the white space off both ends and nothing else |
| RegistryToken.SpacesAre | apps/api/src/registry/auth.ts:82 | which characters are white space |
| RegistryToken.ScopeReadBackIff | packages/registry-auth/src/index.ts:162-177 | a scope is read back iff its fields are non-empty and hold no separator |
| RegistryToken.ScopesReadBack | packages/registry-auth/src/index.ts:162-177 | a list of scopes written with single spaces is read back in order |
| RegistryToken.ParseScopes | packages/registry-auth/src/index.ts:162-177 | the loop parses each word |
| RegistryToken.FilterAllowedActions | packages/registry-auth/src/index.ts:179-191 | the loop keeps what is granted |
| RegistryToken.FilteredGrantsIff | apps/api/src/registry/auth.ts:161-168 | a filtered grant allows an action iff the caller was allowed it, or everything, for something requested on that name |
| RegistryToken.GrantsMean | apps/api/src/registry/auth.ts:161-168 | access allows an action on a name iff an entry of that kind and name lists it or the star |
| Cooldown.AcceptedAreSpaced | apps/worker/src/log-ingestion.ts:49-75 | for any events, accepted incidents of a key are at least the cooldown apart in increasing time |
| Cooldown.GreedyIsOptimal | apps/worker/src/log-ingestion.ts:49-75 | for time-ordered events no spaced choice is larger |
| Cooldown.AcceptedIsAChoice | apps/worker/src/index.ts:166-186 | and the accepted ones are such a choice |
| Cooldown.OutOfOrderIsNotOptimal | apps/worker/src/log-ingestion.ts:54-62 | without time order they can be beaten |
| Cooldown.KeysApart | apps/worker/src/worker-runtime.ts:59-66 | keys coincide only for equal incidents, without colons in tenants and services |
| Cooldown.KeysClashIff | apps/worker/src/worker-runtime.ts:59-66 | some fingerprints give two services the same key iff the tenant:service: of one begins that of the other |
| Cooldown.SharedKeyIff | apps/worker/src/worker-runtime.ts:59-66 | and exactly which fingerprints do |
| Cooldown.KeysClash | apps/worker/src/worker-runtime.ts:63 | two tenants whose keys coincide |
| Cooldown.IncidentStore.ProcessJob | apps/worker/src/log-ingestion.ts:36-76 | the job updates the store as modelled |
| Cooldown.SeenIsLatest | apps/worker/src/worker-runtime.ts:67-81 | the stored time of a key is never before that of any incident accepted for it |
| Template.MissingExact | apps/worker/src/builddeps.ts:119-135 | the missing names are those of templates anywhere in the string that are not bound |
| Template.NameCharCodes | apps/worker/src/builddeps.ts:119-135 | which characters a template name may have |
| Template.ValuesAreVerbatim | apps/worker/src/builddeps.ts:119-135 | text around a template is substituted on its own and the value inserted unscanned |
| Template.OccursAfterIff | apps/worker/src/builddeps.ts:119-135 | with values that hold no brace, the templates of the result are the unbound ones of the string and those the substitution puts together from a brace that opens none |
| Template.SecondPassIff | apps/worker/src/builddeps.ts:119-135 | a second pass with the same variables changes nothing iff no bound name is put together so |
| Template.OnePassIsEnough | apps/worker/src/builddeps.ts:119-135 | no template is left iff every name that occurs is bound and none is put together; then no pass with any variables changes anything |
| Template.NestedBracesRescan | apps/worker/src/builddeps.ts:119-135 | a nested template that a second pass changes |
| Template.TreeOccursAfterIff | apps/worker/src/builddeps.ts:147-175 | the templates of a substituted pipeline are the unbound ones of its strings and those put together in one |
| Template.SecondWalkIff | apps/worker/src/builddeps.ts:147-175 | a second pass over a pipeline changes nothing iff no bound name is put together in any of its strings |
| Template.OneWalkIsEnough | apps/worker/src/builddeps.ts:147-175 | no template is left in a pipeline iff nothing was missing and none is put together; then no pass with any variables changes it |
| Template.ShapeKept | apps/worker/src/builddeps.ts:147-175 | the tree keeps its shape and its other leaves |
| Template.NothingMissingIff | apps/worker/src/builddeps.ts:147-175 | nothing is missing iff every template name in every string is bound |
| Template.Walker.WalkTree | apps/worker/src/builddeps.ts:152-174 | the walk with its accumulated set gives tree and missing names |
| BuildVars.ResolveDeps | apps/worker/src/builddeps.ts:56-111 | stops at the first dependency without a build, otherwise sets the variables in order |
| BuildVars.DependencySets | apps/worker/src/builddeps.ts:94-107 | the six variables one dependency sets, with their values, the image ones only where it has an image, and no other |
| BuildVars.NamesInVariables | apps/worker/src/builddeps.ts:94-99 | a service name as a variable, and the twelve characters of the short commit |
| BuildVars.StemOf | apps/worker/src/builddeps.ts:100-107 | the image variable drops the tag, also where the registry has a port |
| BuildVars.LastWriterWins | apps/worker/src/builddeps.ts:94-107 | each variable has the value of the last dependency that writes its name |
| BuildVars.VariableKeptIff | apps/worker/src/builddeps.ts:94-107 | a dependency's variable keeps its value iff the last later one to write the name writes the same |
| BuildVars.VariablesKept | apps/worker/src/builddeps.ts:94-107 | in particular when no later dependency's key clashes with its own |
| BuildVars.KeysShareIff | apps/worker/src/builddeps.ts:94-107 | two dependencies can set the same variable iff their keys are equal or one is the other with "_short" |
| BuildVars.ShortClash | apps/worker/src/builddeps.ts:94-99 | a key and the same with "_short" do clash |
| BlobStore.StreamWrite | apps/api/src/registry/blobStorage.ts:203-219 | any chunking writes the concatenation at the offset, up to a failure |
| BlobStore.PutMeans | apps/api/src/registry/blobStorage.ts:203-219 | a write at an offset changes exactly the bytes it covers, and fills a gap with zeros |
| BlobStore.ReadRange | apps/api/src/registry/blobStorage.ts:91-151 | the 64K loop yields the inclusive range clipped at the end, in non-empty chunks |
| BlobStore.SliceMeans | apps/api/src/registry/blobStorage.ts:91-151 | the range holds the bytes from the first to the last position that there are |
| BlobStore.WriteThenRead | apps/api/src/registry/blobStorage.ts:91-219 | however an upload to a fresh object is cut into pieces, a range of it reads back as that slice of their concatenation |
| BlobStore.ComputeDigest | apps/api/src/registry/blobStorage.ts:231-271 | the chunked digest and size are those of the whole |
| BlobStore.UploadKeepsAcked | apps/api/src/registry/routes.ts:890-903 | over failed and repeated requests the object starts with exactly the acknowledged bytes |
| BlobStore.SizeCheckIff | apps/api/src/registry/routes.ts:955-966 | the size check passes iff no failed request wrote beyond what is acknowledged |
| BlobStore.LeftoverTail | apps/api/src/registry/routes.ts:955-966 | a failed longer request before a shorter one fails it |
| RangeHeader.RangeStandardIff | apps/api/src/registry/routes.ts:495-534 | the answer to a request meets sections 13.1.5 and 14.1 to 14.4 of RFC 9110 iff it has no range header, or is a GET without If-Range whose unit the standard knows and any range the standard selects is one plain range after a lower-case unit that does not end beyond a blob with bytes |
| RangeHeader.HeadHonoursRange | apps/api/src/registry/routes.ts:513-532 | a HEAD announces the range instead of ignoring it |
| RangeHeader.IfRangeUnread | apps/api/src/registry/routes.ts:513-544 | so does a GET with If-Range |
| RangeHeader.EmptyBlobSuffix | apps/api/src/registry/routes.ts:1082-1087 | any suffix of an empty blob is announced to end before it starts |
| RangeHeader.SeveralRangesRefused | apps/api/src/registry/routes.ts:1071-1077 | two ranges, which the standard accepts, are refused |
| RangeHeader.UnitCaseRefused | apps/api/src/registry/routes.ts:1071-1077 | a unit in other letters is refused, whatever the standard makes of what follows |
| RangeHeader.UnknownUnitRefused | apps/api/src/registry/routes.ts:1071-1077 | an unknown unit is refused instead of ignored |
| RangeHeader.EndBeyondRefused | apps/api/src/registry/routes.ts:1088-1092 | a range that starts inside and ends beyond the blob is refused instead of clipped |
| BlobStore.RangeServed | apps/api/src/registry/routes.ts:1071-1093 | an accepted range is served in full |
| BlobStore.SuffixRange | apps/api/src/registry/routes.ts:1082-1087 | a suffix range is the last bytes |

## Left out

- HTTP routes, WebSocket framing, the database, Redis, docker, kubectl and git themselves: their effects are the steps of the models.
- Kubernetes mode of the agent, `sanitizeK8sName`, manifests in YAML and the load balancer: they would add easy members or are bound to libraries.
- The image a build stores is no part of the build queue; `BuildVars` takes it as given with the dependency build.
- `parseManifest`: the references of a manifest are taken as parsed.
- `buildAuthChallenge`, `listTags`, telemetry, log detectors, OAuth, enrolment and credential stores: easy or bound to libraries.
- Garbage collection against concurrent pushes: the code itself promises a retry only.
- Two claims of one build by several worker processes: the statement that claims is atomic here.
- Reconcile.ReconcileConvergesIff: teardowns have no effect on the rows, and every enqueue is taken to be accepted; a refused one is dispatched again by the next pass.
- Reconcile.Reconciler.ReconcileAll: reports do not arrive during the method; the event model has them at any point.
- PassOnHosts.QuietMeansRunningIff: agents in docker mode whose commands succeed, each taken as one step; the service ids on an agent differ in their first eight characters, which hold no dash.
- DockerRedeploy.InterleavingsAgree: no docker call fails in it, and a namespace is taken as already trimmed of white space, which the redeploy does and the teardown does not.
- FixLock.OneFixPerService: error groups are inputs to a segment, since errorGrouping.ts is not part of this model.
- RegistryToken.TokenReadBack: a header or payload that is the JSON value null is not modelled; the original throws there.
- Cooldown.AcceptedAreSpaced: times are integers, as parsed from valid timestamps.
- Template.MissingExact: variables are a plain map, without inherited properties.
- BuildVars.VariableKeptIff: names are lower-cased for ASCII letters only.
- RangeHeader.RangeStandardIff: numbers in a header are exact, however long, and a list of ranges counts as the ranges in its order; a server may also merge or refuse overlapping ones. Other preconditions than If-Range do not bear on ranges and are left out.
- Order and aliasing of docker's and the database's listings: loops over listed sets take the elements in any order.

Nothing was executed: the proofs are about these models.
