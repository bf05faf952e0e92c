# Webport daemon and session supervisor: a verified model

This project models the parts of Webport whose correctness depends on state
and on the order of events, and proves what they promise.

- **Routes and leases.** The controller keeps three tables (`claims`,
  `clients`, `legacyIDs`) over a route store and publishes the store through a
  call that may fail. Every operation edits the tables, recomputes the manual
  routes, swaps them in, publishes, and rolls back on failure; a second
  producer reconciles discovered routes into the same store. `RouteDomain`,
  `RouteStore`, `Reconcile`, `Claims`, `ClaimOrders`, `Leases`,
  `ControllerState`, `ControllerInvariant`, `ControllerRefresh`,
  `ControllerRuns`, `ControllerEdges`, `ControllerScenarios`, `Controllers`; what each
  call changes, entry by entry, is in `ControllerEffects` and `ReconcileEffects`.
- **Planning.** Dependency checks, the closure of the selected services, cycle
  search, and the start order. `Planning`, `CycleSearch`, `Kahn`, `Receivers`,
  `PlanBuild`.
- **Supervision.** The event loop that starts services in plan order, takes
  their events from one FIFO channel, and cleans up; workers, routes and the
  caller's context act between any two of its steps, also inside a scheduling
  pass. `Supervision`, `SupervisorEffects`, `SupervisorInvariant`,
  `SupervisorSteps`, `SupervisorHistory`, `SupervisorLateStarts`,
  `SupervisorCleanup`, `ServiceScript`, `SupervisorLoop`.
- **Environment.** The memoised resolver of `${...}` references and its later
  expansion rounds. `Templates`, `EnvLookups`, `EnvMeaning`, `EnvResolver`,
  `EnvStages`, `EnvSolutions`, `EnvOpenLiterals`, `EnvRounds`.
- **Two concurrent protocols.** Lease renewal against stop (`LeaseRenewal`) and
  requests over session connections (`Hubs`, `HubEffects`).
- **Ports and output.** Port allocation and recheck (`Ports`, `PortsRecheck`,
  `PortsCollision`), line capture (`Capture`), log rotation (`Logs`) and the tail of recent lines
  (`LogTail`).

`Ordering`, `Graphs`, `Options` and `ByteStreams` hold what the other modules
share. `dafny verify dfyconfig.toml` checks the whole project.

## How to read it

Code that updates state step by step is a method or a class with the source's
own fields; its contract equates the new state with a function or a relation
of the old state, and the lemmas are about that function or relation over
whole runs. The concurrent parts are transition systems whose steps are one
critical section, channel operation or remote call each; a *run* is any
interleaving of them. Where the source iterates over a map, the model takes the
elements in an arbitrary order, so every contract holds for every order.

Those functions are not taken on trust: the modules named after effects, and
`EnvLookups` and `EnvSolutions`, say what each call or step does to fields, map
entries and characters without using the functions that compute it.

Time is an explicit `now`, `publish` is a boolean outcome, port probes are an
oracle that may answer differently each time, and a random draw is a stream.

Some promises of the code hold only under a condition. For these the exact
condition is proved, and an input or a run on the failing side is exhibited:

| promise | exact condition | failing input or run |
|---|---|---|
| a renewal succeeds and keeps the lease invariant | `ControllerEdges.ExpiredRenewal` | `ControllerScenarios.RepeatedCreateBlocks`, `ControllerScenarios.ExpiredRenewalClashes` |
| what is stored is what was published | `ControllerEdges.ExpiredRenewalIsUnpublished`, `ControllerEdges.AdoptionIsUnpublished` | `ControllerScenarios.ExpiredRenewalClashes`, `ControllerScenarios.AdoptionClashes` |
| a legacy heartbeat keeps the lease invariant | `ControllerEdges.LegacyAdoption` | `ControllerScenarios.AdoptionFails`, `ControllerScenarios.AdoptionClashes` |
| a live claim is served | `ControllerEdges.DirectDeleteServes` | `ControllerScenarios.DirectDeleteUnserves` |
| the daemon's routes are permanent | after a lease heartbeat `ControllerEdges.BeatenRouteLapses`, after a lease delete `ControllerEdges.SystemDeleteDrops` | `ControllerScenarios.SystemHeartbeatLapses`, `ControllerScenarios.SystemDeleteDropsRoute` |
| a failed call changes nothing | `ControllerRuns.FailedCallChangesNothing`, `ControllerInvariant.FailedTransaction` | `ControllerScenarios.RepeatedCreateBlocks`, `ControllerScenarios.FailedSystemDeleteBreaksIndex`, `ControllerScenarios.FailedCreateDropsFound` |
| the wanted routes do not depend on map order | `ClaimOrders.WantedSetIsUniqueExactly`, `ClaimOrders.LoopIsOrderIndependentExactly` | `ControllerScenarios.MixedClaims` |
| different routes have different hostnames | `RouteDomain.RouteHostsEqualExactly` | `RouteDomain.DomainIsNotInjective` |
| nothing starts after a cancellation | `SupervisorLateStarts.LateStartExactly` | `SupervisorHistory.StartAfterCancel` |
| `ExpandRuntime` substitutes in place | `EnvStages.ExpandRuntimeIsExact` | `EnvStages.DeferredNameMisplaced` |
| resolving in stages is resolving once | `EnvRounds.StagesAreExact` | `EnvOpenLiterals.OpenLiteralBreaksStages` |
| a recheck keeps ports distinct | `PortsCollision.DistinctExactlyWhenOutOfReach` | the same lemma |
| the tail is the longest allowed | `LogTail.NoteKeepsEverything`, `LogTail.NoteIsLongest` | `LogTail.TailForgetsLongLine` |

## Model

| member | source | states |
|---|---|---|
| `ControllerRuns.WholeRunInvariant` | internal/route/controller.go:102-345 | after any calls in forward time, interleaved with reconciles: the two indexes are exact inverses, unexpired claims are compatible, each has its manual route with its port, hostname and latest expiry, every manual route has a claim, no two stored routes share a hostname, revisions are right, and a ready controller has published exactly the manual routing it stores |
| `ControllerRuns.WholeRunUnderRouteNames` | internal/route/domain.go:15-45 | the same for the hostname rule in force, whatever the base domain, with no assumption about names left |
| `ControllerRuns.AnyRunCounts` | internal/route/controller.go:86-100 | after any calls at all, within the contract or not, `appliedRevision` has not passed `revision`, which counts the attempts to publish, and the controller is ready exactly when the latest attempt succeeded |
| `ControllerRuns.FailedCallChangesNothing` | internal/route/controller.go:102-345 | from any state that keeps the invariant, a failed register, create, delete, system-route or expire call leaves the manual routes as they were, and all three tables exactly, unless it repeats a client's create or deletes a system claim as a lease |
| `ControllerRuns.FailedRenewal` | internal/route/controller.go:205-214 | a repeated create fails only for an expired claim, and then leaves that claim renewed although its route was refused |
| `ControllerRuns.FailedSystemDelete` | internal/route/controller.go:296-312 | a failed lease delete of a system claim puts the claim back but files it under the empty client id, so the tables are no longer well indexed |
| `ControllerRuns.CallKeeps` | internal/route/controller.go:102-345 | each single call within the contract keeps the lease, revision and publication invariants, whatever its outcome |
| `ControllerInvariant.FailedTransaction` | internal/route/controller.go:443-450 | a failure restores tables and manual routes; the whole store is restored exactly when nothing was swapped in or no wanted id had been a discovered route |
| `ControllerInvariant.TransactKeeps` | internal/route/controller.go:391-457 | an applied, rejected or withdrawn edit of well-indexed tables keeps the lease invariant |
| `ControllerInvariant.ReadyMeans` | internal/route/controller.go:384-389 | the controller is ready exactly when something was published and the latest attempt succeeded |
| `ControllerRefresh.RefreshIsExact` | internal/route/controller.go:459-496 | when one claim of a route was added or given a new expiry, the refresh that follows keeps the route invariant exactly when no stored route of another id has the hostname |
| `ControllerRefresh.TargetsKept` | internal/route/controller.go:459-496 | filing a route leaves the published routing right exactly when the route was stored with this port and hostname |
| `ControllerRefresh.RenewalSucceeds` | internal/route/controller.go:205-214 | renewing an unexpired claim cannot fail |
| `ControllerRefresh.RenewKeeps` | internal/route/controller.go:459-496 | such a renewal keeps the invariant, needs no publication because no target changes, and leaves everything but dates alone |
| `ControllerInvariant.ReconcileKeeps` | internal/route/store.go:129-218 | a reconcile keeps the lease invariant and does not touch the published manual routing |
| `ControllerInvariant.TimeKeeps` | internal/route/controller.go:391-397 | the lease invariant survives the passing of time alone |
| `ControllerEdges.ExpiredRenewal` | internal/route/controller.go:205-214 | renewing an expired, unswept claim succeeds exactly when its hostname is buildable and, while another claim of the route is unexpired, the route is stored with its port and hostname; it keeps the lease invariant exactly when it succeeds, the claim is not the daemon's and no route of another id has the hostname |
| `ControllerEdges.ExpiredRenewalIsUnpublished` | internal/route/controller.go:205-214 | no renewal publishes, so a ready controller stays ready; what it published is still what it stores exactly when the call failed or the route was still stored with the claim's port and hostname |
| `ControllerEdges.DirectDeleteServes` | internal/route/controller.go:166-185 | a legacy delete of a route held only by leases bypasses the tables and leaves a claim unserved exactly when one of the route's claims is unexpired |
| `ControllerEdges.SystemHeartbeatBreaksExpiry` | internal/route/controller.go:283-292 | a lease heartbeat on a system claim makes the table entry malformed unless the new expiry happens to be the permanent one |
| `ControllerEdges.SystemHeartbeatLeaves` | internal/route/controller.go:283-292 | what it leaves is the daemon's claim with an ordinary expiry |
| `ControllerEdges.BeatenRouteLapses` | internal/route/controller.go:391-457 | after it, an applied transaction leaves the daemon's route in the store exactly when it comes before the new expiry or another unexpired claim asks for the route |
| `ControllerEdges.SweepsSpareSystem` | internal/route/controller.go:314-345 | while no sweep ever removes the expired claim itself |
| `ControllerEdges.SystemDeleteDrops` | internal/route/controller.go:296-312 | a lease delete of a system claim succeeds exactly when publishing does, and then leaves the daemon's route in the store exactly when another unexpired claim asks for it |
| `ControllerEdges.FailedRenewalBlocks` | internal/route/controller.go:279-294 | a renewal that fails keeps the new expiry and leaves two unexpired claims of the route that contradict each other, or one without a hostname; nothing can be applied to any tables at any time at which both are unexpired with the same demands |
| `ControllerEdges.LegacyAdoption` | internal/route/controller.go:132-160 | a legacy heartbeat on a route held only by leases succeeds exactly when the plain hostname is buildable and, while a claim of the route is unexpired, the stored one; it keeps the lease invariant exactly when it succeeds and no other route has the plain hostname, and a failure leaves incompatible claims behind |
| `ControllerEdges.AdoptionIsUnpublished` | internal/route/controller.go:132-160 | it publishes nothing, and what a ready controller published is still what it stores exactly when the call failed or the stored hostname was the plain one |
| `ControllerEdges.SystemHeartbeatExpires` | internal/route/controller.go:283-292 | with the system claim's own TTL the heartbeat expires it at once |
| `ControllerEdges.RemovalIsApplicable` | internal/route/controller.go:314-345 | taking claims away from a good state never makes the rest inapplicable |
| `ControllerEdges.SweepFailsOnlyInPublishing` | internal/route/controller.go:314-345 | a sweep that finds something succeeds exactly when publishing does |
| `ControllerScenarios.RouteNamesShare` | internal/route/domain.go:15-45 | for every base domain of at most 247 characters two validated routes share a plain hostname, so the runs of the next rows exist under the rule in force |
| `ControllerScenarios.ExpiredRenewalClashes` | internal/route/controller.go:279-294 | a run within the contract after which the heartbeat of a lapsed lease stores a second route under a live lease's hostname while the controller stays ready without having published it |
| `ControllerScenarios.RepeatedCreateBlocks` | internal/route/controller.go:205-214 | a run after which a repeated create fails, and every later apply with these tables fails until one of two claims lapses |
| `ControllerScenarios.AdoptionFails` | internal/route/controller.go:132-160 | a run after which a legacy heartbeat on a live lease under a subdomain fails and leaves incompatible claims |
| `ControllerScenarios.AdoptionClashes` | internal/route/controller.go:132-160 | a run after which a legacy heartbeat on a lapsed lease under a subdomain succeeds and takes another route's hostname, unpublished |
| `ControllerScenarios.DirectDeleteUnserves` | internal/route/controller.go:166-185 | a run after which a legacy delete leaves a live lease without its route |
| `ControllerScenarios.SystemHeartbeatLapses` | internal/route/controller.go:283-292 | a run after which one lease heartbeat on the daemon's claim makes the next create drop the daemon's route |
| `ControllerScenarios.SystemDeleteDropsRoute` | internal/route/controller.go:296-312 | a run after which one successful lease delete drops the daemon's route |
| `ControllerScenarios.MixedClaims` | internal/route/controller.go:391-428 | a run within the contract that ends in a state in which a client holds the daemon's route and the loop depends on the map order |
| `ControllerScenarios.FailedSystemDeleteBreaksIndex` | internal/route/controller.go:296-312 | a run after which a lease delete of the daemon's claim whose publication fails breaks the client index |
| `ControllerScenarios.FailedCreateDropsFound` | internal/route/controller.go:443-450 | a run after which a create whose publication fails takes a discovered route out of the store |
| `Claims.CollectManual` | internal/route/controller.go:391-428 | the loop over the claims goes through exactly when they are compatible, and then yields a wanted set, in any map order |
| `Claims.WantedSetIsUnique` | internal/route/controller.go:391-428 | without ids that mix system and client claims the wanted set does not depend on the map order |
| `Claims.WantedExpiry` | internal/route/controller.go:414-417 | a wanted route carries the maximum expiry of its unexpired claims |
| `ClaimOrders.WantedSetIsUniqueExactly` | internal/route/controller.go:391-428 | for well-indexed tables the wanted set is determined by the claims exactly when no route has both an unexpired system claim and another unexpired claim |
| `ClaimOrders.LoopIsOrderIndependentExactly` | internal/route/controller.go:391-428 | the loop, folded over compatible claims, gives the same manual routes in every map order exactly under the same condition |
| `ClaimOrders.FirstDecides` | internal/route/controller.go:424-426 | whichever claim of a route the map yields first decides whether the route is the daemon's |
| `Leases.KeysDistinct` | internal/route/controller.go:102-117 | legacy and system keys determine the route and never collide with each other or with a lease id |
| `Leases.RestoreOne` | internal/route/controller.go:314-345 | putting one swept claim back into the tables undoes taking it out |
| `Controllers.Controller.Initialize` | internal/route/controller.go:86-100 | counts an attempt and publishes the store as it is |
| `Controllers.Controller.RegisterLegacy` | internal/route/controller.go:102-130 | refines the register transaction; on success the returned route is the wanted one, and the stored one but for the creation stamp |
| `Controllers.Controller.HeartbeatLegacy` | internal/route/controller.go:132-160 | renews the legacy claim, or adopts a stored manual route, or refuses; keeps the indexes exact; on success the returned route carries the agreed port and hostname and the latest expiry, and is what was filed |
| `Controllers.Controller.DeleteLegacy` | internal/route/controller.go:162-195 | refines the delete transaction, or the direct delete with its own publication and rollback |
| `Controllers.Controller.CreateLease` | internal/route/controller.go:198-234 | a new client id gets its lease by a transaction, the same request renews it, another request is refused; on success the returned claim is the stored one with expiry now plus TTL, and the returned route the wanted or refreshed one as filed |
| `Controllers.Controller.SetSystemRoute` | internal/route/controller.go:238-259 | refines the system-route transaction with rollback to the previous claim or to none; on success the returned route is the wanted one as filed |
| `Controllers.Controller.DeleteSystemRoute` | internal/route/controller.go:262-277 | refines its transaction; deleting an absent route succeeds and changes nothing |
| `Controllers.Controller.HeartbeatLease` | internal/route/controller.go:279-294 | refines renewal, also on system claims, which only the weaker postcondition covers; on success returns the stored claim and the refreshed route as filed |
| `Controllers.Controller.DeleteLease` | internal/route/controller.go:296-312 | refines its transaction for client claims and the wrongly undone one for system claims; deleting an absent lease succeeds |
| `Controllers.Controller.Expire` | internal/route/controller.go:314-345 | removes exactly the expired non-system claims from all three tables, or puts every one back |
| `Controllers.Controller.ApplyLocked` | internal/route/controller.go:391-457 | applies exactly when the unexpired claims are pairwise compatible with buildable hostnames, no discovered route of another id has one of those hostnames, and publishing succeeds; rejects without effect exactly when the first part fails; meets the apply relation in each case |
| `Controllers.Controller.Publish` | internal/route/controller.go:443-456 | swap in, count, publish, and swap the previous manual set back on failure |
| `Controllers.Controller.RefreshRouteLocked` | internal/route/controller.go:459-496 | stores the route of the unexpired claims with the latest expiry exactly when they exist and agree |
| `ControllerEffects.RegisterEffect` | internal/route/controller.go:102-130 | succeeds exactly when the tables with the new claim can be applied and publishing works; then the claim with the given port and expiry now plus TTL and its index entry are filed, everything else in the tables is the same, and the routes follow the claims |
| `ControllerEffects.CreateEffect` | internal/route/controller.go:198-234 | the same for a new client's lease: claim, client entry, nothing else |
| `ControllerEffects.CreateRefused` | internal/route/controller.go:198-214 | an empty client id, or a known client that asks for another project, branch, port or subdomain, is refused without effect |
| `ControllerEffects.RepeatedCreateEffect` | internal/route/controller.go:205-214 | a repeated create moves exactly the expiry and TTL of the client's claim, and on success files its route with the latest expiry |
| `ControllerEffects.SetSystemEffect` | internal/route/controller.go:238-259 | files the daemon's permanent claim under its own key, nothing else, or restores the tables |
| `ControllerEffects.DeleteLegacyEffect` | internal/route/controller.go:162-195 | succeeds exactly when publishing does; then the legacy claim and its index entry are gone, every other claim and entry is the same, and the route stays manual exactly when another unexpired claim asks for it |
| `ControllerEffects.DirectDeleteEffect` | internal/route/controller.go:166-185 | a legacy delete past the tables takes exactly that route out of the store, or nothing when publishing fails |
| `ControllerEffects.DeleteLeaseEffect` | internal/route/controller.go:296-312 | the same as the legacy delete for a client's claim and its client entry |
| `ControllerEffects.DeleteDaemonLeaseEffect` | internal/route/controller.go:296-312 | the same for the daemon's claim when the delete succeeds |
| `ControllerEffects.DeleteSystemEffect` | internal/route/controller.go:262-277 | the same for the system-route delete, which restores the tables on failure |
| `ControllerEffects.NothingToDelete` | internal/route/controller.go:162-195 | deleting what is not there changes nothing; it is an error for a legacy route only |
| `ControllerEffects.ExpireEffect` | internal/route/controller.go:314-345 | a sweep that finds something takes exactly the expired non-system claims and their entries away, and the routes follow |
| `ControllerEffects.HeartbeatLeaseEffect` | internal/route/controller.go:279-294 | extends exactly that claim by the requested TTL, or its own when none is requested; an unknown or legacy lease is refused without effect |
| `ControllerEffects.HeartbeatLegacyEffect` | internal/route/controller.go:132-160 | the same for a legacy claim that is in the tables |
| `ControllerEffects.AdoptionEffect` | internal/route/controller.go:132-160 | a legacy heartbeat on a manual route without a legacy claim files one with the stored port and the requested or the default TTL; without a manual route it is refused without effect |
| `ControllerEffects.InitializeEffect` | internal/route/controller.go:86-100 | publishing the store as it is counts an attempt and changes neither the tables nor the store |
| `ControllerEffects.PublishedRouting` | internal/route/controller.go:443-456 | what a ready controller has published is the port and hostname of every manual route and nothing else |
| `Controllers.RollbackMeans` | internal/route/store.go:82-107 | `SetManual(previous)` after a manual set gives the old store without the discovered routes the set had overwritten |
| `RouteStore.Store.Add` | internal/route/store.go:32-47 | files the route under its id and keeps the creation time of a route already there |
| `RouteStore.Store.SetManual` | internal/route/store.go:82-107 | replaces the manual routes and returns exactly the previous ones |
| `ReconcileEffects.SetManualEffect` | internal/route/store.go:82-107 | afterwards exactly the given ids and the discovered ones are stored; discovered routes stay except where a manual route takes their id, and each given route keeps its fields, with its own creation time, else the stored one's, else the clock |
| `RouteStore.Store.ReconcileDiscovered` | internal/route/store.go:129-218 | the three loops compute the scan and commit functions, and `changed` is reported exactly when the store changed |
| `Reconcile.ReconcileRule` | internal/route/store.go:129-218 | an id is stored afterwards exactly when it is manual, or its hostname is not manual-owned, its candidates agree and no other eligible id has its hostname; manual routes are untouched and survivors carry their candidates' port, owner and hostname |
| `ReconcileEffects.StoredFromFirst` | internal/route/store.go:129-218 | a discovered route is stored from the first candidate of its id that no registered route opposes, with its port, upstream host, hostname and owner, without expiry, and with the creation time it was first stored with, else the candidate's, else the clock |
| `ReconcileEffects.ReconciledNeverExpires` | internal/route/store.go:149-150 | reconciling never stores a discovered route with an expiry |
| `ReconcileEffects.SilentMeansStored` | internal/route/store.go:144-190 | no conflict is reported exactly when every candidate's id ends up discovered |
| `Reconcile.OrderDoesNotMatter` | internal/route/store.go:129-218 | every permutation of the candidates gives the same surviving ids |
| `Reconcile.ReconcileIsIdempotent` | internal/route/store.go:129-218 | reconciling the same candidates again changes nothing |
| `Reconcile.TwoHostsOrderMatters` | internal/route/store.go:129-218 | were one id to come with two hostnames, the order could decide who survives |
| `ControllerInvariant.ScannedAreGood` | internal/discovery/scanner.go:79-87 | what the scanner hands over, with every hostname built from the id, has one lower-case hostname per id, so the daemon never meets the second case |
| `RouteDomain.DomainIsLower` | internal/route/domain.go:15-45 | a built hostname is in lower case, so the case-folding comparisons add nothing |
| `RouteDomain.HostnameIs` | internal/route/domain.go:15-45 | the hostname built is the lowered subdomain, or the slugs of project and branch joined by a hyphen with slash and underscore made hyphens, then a dot and the lowered base domain without outer dots; none is built exactly above 63 characters of label or 253 in all |
| `RouteDomain.RouteHostsEqualExactly` | internal/route/domain.go:15-45 | two built hostnames are equal exactly when their labels are, the lowered subdomain or the hyphen-joined slugs of project and branch, under every base domain |
| `RouteDomain.DomainIsNotInjective` | internal/route/domain.go:15-32 | which happens for different project and branch pairs without a subdomain |
| `Planning.ValidateDependencies` | internal/devsession/plan/plan.go:466-480 | accepts exactly the declarations in which every dependency is a known service listed once, and names a real offender otherwise |
| `Planning.DependencyClosure` | internal/devsession/plan/plan.go:482-498 | the least dependency-closed set containing the roots, also on cyclic graphs |
| `Planning.ClosureIsReachability` | internal/devsession/plan/plan.go:482-498 | a service is in the closure exactly when it is a root or reachable from one |
| `CycleSearch.CyclePath` | internal/devsession/plan/plan.go:500-542 | the reported path is a closed walk along `depends_on` inside the selection |
| `CycleSearch.Visit` | internal/devsession/plan/plan.go:500-542 | the depth-first search either reports a real cycle or finishes the service with all its dependencies before it |
| `Kahn.BuildTables` | internal/devsession/plan/plan.go:543-558 | the degree and dependents tables count exactly the edges inside the selection, and the ready list is the set of services without one |
| `Kahn.TopologicalOrder` | internal/devsession/plan/plan.go:500-577 | succeeds exactly for acyclic selections with a duplicate-free topological order of all of them; otherwise reports a real closed walk, and the second cycle error is never returned |
| `Kahn.StuckMeansComplete` | internal/devsession/plan/plan.go:573-575 | if any topological order exists, Kahn's loop stops only when everything was emitted |
| `Kahn.GreedyIsLeast` | internal/devsession/plan/plan.go:559-572 | the emitted order is lexicographically least among all topological orders |
| `Kahn.GreedyIsUnique` | internal/devsession/plan/plan.go:559-572 | the order is a function of the selection, whatever the map order |
| `Receivers.DependsOn` | internal/devsession/plan/routes.go:236-247 | the search with its never-cleared visited set decides reachability by a non-empty path, also on cyclic graphs |
| `Receivers.ExportReceivers` | internal/devsession/plan/routes.go:225-234 | the sorted list of the owner and all its transitive dependents |
| `PlanBuild.Build` | internal/devsession/plan/plan.go:122-186 | a plan is built exactly when the declarations are sound and no cycle lies among the roots and what they reach, and a reported cycle is one of those; a built plan has the least closure of the roots in its unique start order and meets all the supervisor needs |
| `SupervisorInvariant.NoStall` | internal/devsession/supervisor/supervisor.go:146-201 | a scheduling pass that leaves no worker active leaves no service pending |
| `SupervisorSteps.WaitingIsLive` | internal/devsession/supervisor/supervisor.go:146-238 | in every run the loop waits with nobody active only when every service is terminal, and with an empty queue only for workers that have not finished |
| `SupervisorHistory.BufferNeverFull` | internal/devsession/supervisor/supervisor.go:108-144 | in every state of every run, also in the middle of a scheduling pass while workers send, the buffer of 4n+1 has room apart from route-failure traffic |
| `SupervisorHistory.PassNeverBlocks` | internal/devsession/supervisor/supervisor.go:147-161 | so a pass that began always has its next step, a start or the end, unless route failures fill the channel |
| `SupervisorHistory.StartsAreOrdered` | internal/devsession/supervisor/supervisor.go:146-161 | in every run a start follows a consumed ready or success of each dependency |
| `SupervisorHistory.NoStartAfterFailure` | internal/devsession/supervisor/supervisor.go:146-161 | nothing starts after the loop took the first failure |
| `SupervisorHistory.LateStartsBelongToOnePass` | internal/devsession/supervisor/supervisor.go:146-161 | a start after a cancellation belongs to the one pass whose look at the context came before it, and no pass begins afterwards |
| `SupervisorLateStarts.LateStartExactly` | internal/devsession/supervisor/supervisor.go:146-161 | from a state in which the run's context is done, some continuation starts a service exactly when the loop is inside a pass, the rest of the pass comes to a pending service with usable dependencies, and the channel has room for its notice |
| `SupervisorHistory.NoStartAfterIdleCancel` | internal/devsession/supervisor/supervisor.go:146-161 | so nothing starts after a cancellation outside a pass |
| `SupervisorHistory.StartAfterCancel` | internal/devsession/supervisor/supervisor.go:146-161 | while for every plan with a service there is a run in which one starts after a cancellation inside a pass |
| `SupervisorSteps.StepMoves` | internal/devsession/supervisor/supervisor.go:137-238 | a service moves only pending to starting or blocked, starting to ready or terminal, ready to terminal |
| `SupervisorSteps.TerminalIsFinal` | internal/devsession/supervisor/supervisor.go:224-236 | a terminal state never changes |
| `SupervisorSteps.ActiveIsStartingOrReady` | internal/devsession/supervisor/supervisor.go:137-144 | `active` is the set of starting or ready services in every state of every run |
| `SupervisorSteps.RunInv` | internal/devsession/supervisor/supervisor.go:86-239 | tables, queue and workers agree per service in every interleaving |
| `SupervisorEffects.StepsAllowed` | internal/devsession/supervisor/supervisor.go:86-239 | which step is possible when, with a channel of four places for every service and one more |
| `SupervisorEffects.EnterEffect` | internal/devsession/supervisor/supervisor.go:146-147 | a pass begins exactly without an error and with neither context done |
| `SupervisorEffects.ScheduleEffect` | internal/devsession/supervisor/supervisor.go:148-160 | a turn starts its service exactly when that is pending with every dependency ready or successful, blocks it when some dependency failed, was blocked or stopped, and changes nothing else |
| `SupervisorEffects.ExitEffect` | internal/devsession/supervisor/supervisor.go:162-202 | the loop returns exactly when nobody is active and the session failed, or the context is done, or every service is terminal with nothing registered and no route active; the first two run the cleanup, and a failed session blocks what is pending |
| `SupervisorEffects.ConsumeEffect` | internal/devsession/supervisor/supervisor.go:204-238 | an event changes exactly its service's state, the active and registered sets, and the session's error when it is the first failure of a session not yet over |
| `SupervisorEffects.OtherEffects` | internal/devsession/supervisor/supervisor.go:204-239 | the notice of a done context cancels the run once, and what workers, routes and the caller do changes nothing the loop owns |
| `SupervisorCleanup.CleanupOrder` | internal/devsession/supervisor/supervisor.go:492-560 | routes are released first, then each registered shutdown command is handled exactly once, a dependent's before that of anything it transitively depends on |
| `SupervisorCleanup.RunShutdownCommands` | internal/devsession/supervisor/supervisor.go:492-546 | the loop handles all of them although earlier ones fail, and reports exactly the failed ones |
| `SupervisorCleanup.ReleaseRoutesAndShutdown` | internal/devsession/supervisor/supervisor.go:548-560 | the commands are handled even when the release fails, and an error is reported exactly when something failed |
| `SupervisorCleanup.CleanupSeesEverything` | internal/devsession/supervisor/supervisor.go:162-188 | when cleanup has run, every started worker's terminal event was consumed and no registered shutdown was missed in the channel |
| `SupervisorCleanup.CleanupOnce` | internal/devsession/supervisor/supervisor.go:162-188 | cleanup runs at most once |
| `SupervisorCleanup.NoCleanupNeeded` | internal/devsession/supervisor/supervisor.go:189-201 | returning without cleanup leaves nothing registered and nothing unfinished |
| `ServiceScript.ScriptsComplete` | internal/devsession/supervisor/supervisor.go:241-490 | on every path `runService` sends at most three events, each allowed by the worker automaton, and ends it |
| `ServiceScript.AcceptedAreScripts` | internal/devsession/supervisor/supervisor.go:241-490 | conversely, every complete sequence of events the worker automaton accepts is sent by `runService` on some course |
| `ServiceScript.OneTerminalEvent` | internal/devsession/supervisor/supervisor.go:241-490 | such a script holds exactly one terminal event, the last |
| `ServiceScript.OutcomeIs` | internal/devsession/supervisor/supervisor.go:241-490 | a service reports ready, success, a shutdown command or a stop exactly on the courses that allow it; a failed process never looks ready or successful |
| `SupervisorLoop.Loop.ScheduleService` | internal/devsession/supervisor/supervisor.go:148-160 | the body of the scheduling loop for one service is one turn of the transition system |
| `SupervisorLoop.Loop.Pass` | internal/devsession/supervisor/supervisor.go:147-161 | the loop over the order, with any actions of others before each turn, stays a run, decides every service, and is held up only by route failures |
| `SupervisorLoop.Loop.EnterTop` | internal/devsession/supervisor/supervisor.go:146-147 | the first look at the error and the run's context opens a pass or skips it |
| `SupervisorLoop.Loop.Exit` | internal/devsession/supervisor/supervisor.go:162-202 | the part between the pass and the `select`, with its own look at the caller's context, its three returns and the cleanup |
| `SupervisorLoop.Loop.Receive` | internal/devsession/supervisor/supervisor.go:204-238 | the receive arm is the consume step for every kind of event |
| `SupervisorLoop.Loop.Drive` | internal/devsession/supervisor/supervisor.go:86-239 | driving the loop by any schedule, with others acting between any two steps, yields a run of the transition system that keeps its invariants |
| `EnvResolver.Resolve` | internal/devsession/env/env.go:171-181 | succeeds exactly when every reference is defined and the reference graph is acyclic, and then returns the memo-free meaning of every entry, in any iteration order |
| `EnvResolver.Resolver.ResolveEnv` | internal/devsession/env/env.go:343-366 | terminates, restores `resolving` and `stack`, only adds right entries to the memo, and fails only where the meaning fails |
| `EnvResolver.Resolver.ResolveText` | internal/devsession/env/env.go:368-383 | replacing first occurrences one by one gives the segment-wise value and the joined sensitivity |
| `EnvResolver.Resolver.ResolveReference` | internal/devsession/env/env.go:385-432 | an environment reference comes through the memo; any other is kept when deferred, and else is the runtime's project, branch or scope, the numeral of the bound port, itself for a deferred unbound port, or the host or URL of the first route of the service if that is available, and an error otherwise |
| `EnvLookups.LookupStands` | internal/devsession/env/env.go:265-309 | the same of a reference expanded later, in both directions |
| `EnvLookups.ItoaWrites` | internal/devsession/env/env.go:279-279 | a port is written as its decimal numeral, most significant digit first, and in no other way |
| `EnvSolutions.ResolutionIsTheSolution` | internal/devsession/env/env.go:343-432 | resolution returns the one assignment of values in which every entry is its own text with each reference replaced, in place, by what it stands for or by the value assigned to the entry it names, with the sensitivity that follows; and it does so exactly when no entry refers to itself |
| `EnvSolutions.ReferenceAlone` | internal/devsession/env/env.go:343-432 | an entry that is one runtime reference has exactly what that denotes as its value |
| `EnvSolutions.ExpansionIsFilled` | internal/devsession/env/env.go:247-309 | the intended expansion is the text with every reference replaced by what it stands for or by the insensitive value it names |
| `EnvSolutions.RuntimeTextAlone` | internal/devsession/env/env.go:247-309 | `ExpandRuntime` of one reference alone gives exactly that |
| `EnvMeaning.SucceedsExactlyWhen` | internal/devsession/env/env.go:343-383 | the memo-free meaning of all entries exists exactly when every reference is defined and there is no cycle |
| `EnvMeaning.SensitivityIsReachability` | internal/devsession/env/env.go:343-383 | a value is sensitive exactly when it or something it transitively refers to is |
| `EnvStages.ExpandRuntime` | internal/devsession/env/env.go:247-263 | the loop over the references of the original text, each replacing the first occurrence of its own text |
| `EnvStages.ExpandRuntimeIsExact` | internal/devsession/env/env.go:247-263 | for values that hold runtime references only, it fails exactly when a reference has no value, and otherwise is segment-wise substitution exactly when no environment reference brings in, before a later one, a bound reference of the same text |
| `EnvStages.DeferredNameMisplaced` | internal/devsession/env/env.go:247-263 | which values resolved with deferred references do for every bound port |
| `EnvStages.ExpandRuntimeValues` | internal/devsession/env/env.go:53-63 | expands every value from the unexpanded map, or fails when one fails |
| `EnvStages.StagedSubstitutionIsFaithful` | internal/devsession/env/env.go:53-63 | resolving with deferred references and expanding in any number of rounds gives the values, sensitivity and success or failure of resolving once with everything bound, over literals without `${` |
| `EnvOpenLiterals.DeferredRoundIsExact` | internal/devsession/env/env.go:53-63 | for all entries, one deferred round gives what resolving once gives exactly when that fails or no entry has, with all it reaches, a literal `${` and no runtime reference; such an entry makes the round fail |
| `EnvRounds.StagesAreExact` | internal/devsession/env/env.go:53-63 | for all entries, settings and rounds that each know no more than the last, resolving and expanding round by round gives what resolving once gives exactly when that fails or no entry has, at the time of some round, come to hold a literal `${` and no reference; otherwise the stages fail |
| `EnvOpenLiterals.OpenLiteralBreaksStages` | internal/devsession/env/env.go:247-263 | and such an entry can resolve at once |
| `LeaseRenewal.StoppedMeansReleased` | internal/devsession/daemon/client.go:256-294 | in every interleaving, once the heartbeat and all stops have returned and releases succeeded, the daemon holds no lease of this manager |
| `LeaseRenewal.NoLaterRegistration` | internal/devsession/daemon/client.go:256-294 | and no later heartbeat registers one |
| `LeaseRenewal.StepKeeps` | internal/devsession/daemon/client.go:256-294 | each critical section and remote call keeps somebody responsible for the lease the daemon holds |
| `LeaseRenewal.UncheckedEndLeaks` | internal/devsession/daemon/client.go:256-282 | without the second look at `ok` after re-registration a lease would be left with nobody responsible |
| `LeaseRenewal.HeartbeatRenews` | internal/devsession/daemon/client.go:256-282 | an undisturbed heartbeat asks for the manager's own lease and, if the daemon holds it, changes nothing |
| `LeaseRenewal.HeartbeatRegisters` | internal/devsession/daemon/client.go:256-282 | otherwise it ends with the manager and the daemon holding the same lease |
| `LeaseRenewal.StopIsFinal` | internal/devsession/daemon/client.go:256-294 | after a stop no heartbeat is sent, and one under way hands its lease back |
| `LeaseRenewal.StopReleasesOnce` | internal/devsession/daemon/client.go:284-294 | the first stop releases the manager's lease and no other does anything |
| `LeaseRenewal.LeaseManager.HeartbeatEnd` | internal/devsession/daemon/client.go:256-282 | keeps the answered lease, or hands it back for release when a stop came in between |
| `LeaseRenewal.LeaseManager.StopBegin` | internal/devsession/daemon/client.go:284-294 | takes the lease to release once; later stops have nothing to do |
| `Hubs.OneFrameOneClose` | internal/hub/hub.go:69-159 | in every interleaving a waiter gets at most one frame, which its own connection answered under its own id, and is closed at most once |
| `Hubs.AnswersAreNotShared` | internal/hub/hub.go:122-133 | no two requests on one connection share an id |
| `Hubs.NobodyIsLeftWaiting` | internal/hub/hub.go:82-92 | once `Serve` of a connection ended nothing is pending on it, and every caller that has not returned finds its channel closed |
| `Hubs.EndedStaysEnded` | internal/hub/hub.go:69-133 | an ended connection is never listed again and takes no request |
| `Hubs.EndSparesReplacement` | internal/hub/hub.go:82-86 | the end of a connection takes exactly itself off the list, never its replacement |
| `Hubs.ReplacedAreClosed` | internal/hub/hub.go:76-81 | a connection still served but not listed has been closed |
| `Hubs.ChannelsAreReady` | internal/hub/hub.go:87-117 | `Serve` never sends on a closed channel, never blocks on the one-frame buffer and never closes a channel twice |
| `Hubs.ResponseReachesItsWaiter` | internal/hub/hub.go:108-117 | a response reaches exactly the waiter of its id, and an unknown id reaches nobody |
| `Hubs.ChannelsOnlyGrow` | internal/hub/hub.go:69-159 | no step takes back a frame, a close or a returned answer |
| `Hubs.ListedAreServed` | internal/hub/hub.go:39-65 | a listed connection is being served, under its own session id, and shows no control path or token |
| `Hubs.StepKeeps` | internal/hub/hub.go:69-159 | every critical section, channel operation and read keeps the registry invariant |
| `Hubs.Hub.RegisterPeer` | internal/hub/hub.go:69-81 | refuses exactly undecodable or nameless registrations, otherwise is the register step |
| `Hubs.Hub.EndPeer` | internal/hub/hub.go:82-92 | the deferred clean-up, closing the pending channels one by one in any order, is the end step |
| `Hubs.Hub.SendFrame` | internal/hub/hub.go:113-116 | sending a taken response is the delivery step |
| `Hubs.Hub.AwaitAnswer` | internal/hub/hub.go:143-151 | the receive arm returns the frame on the channel, or not-found when it was closed empty |
| `Hubs.Hub.BeginRequest` | internal/hub/hub.go:122-133 | is the request step and reports whether the session is connected |
| `Hubs.Hub.List` | internal/hub/hub.go:39-53 | exactly the live states of the listed connections, strictly sorted by worktree and session id |
| `HubEffects.ShownIsLatest` | internal/hub/hub.go:39-107 | in every history, what is listed for a session is the last registration or valid state frame of the connection that registered it last, without control path and token |
| `HubEffects.ListingIsLatest` | internal/hub/hub.go:69-92 | a session is listed exactly while the connection that registered it last is served |
| `HubEffects.StateEffect` | internal/hub/hub.go:99-107 | a state frame replaces the live state exactly when it decodes and names the connection's own session; any other changes nothing |
| `HubEffects.RegisterEffect` | internal/hub/hub.go:69-81 | a registration lists the new connection and closes the one listed before it, or is refused without effect |
| `HubEffects.ResponseEffect` | internal/hub/hub.go:108-117 | a response leaves `pending` and goes to the waiter of its id, if any |
| `HubEffects.DeliveryEffect` | internal/hub/hub.go:108-117 | delivering sends the frame once and closes the channel once |
| `HubEffects.EndEffect` | internal/hub/hub.go:82-92 | the end of a connection closes exactly the channels pending on it and unlists exactly itself |
| `HubEffects.RequestEffect` | internal/hub/hub.go:122-133 | a request takes the next id of the connection listed for the session, or finds none |
| `HubEffects.CancelEffect` | internal/hub/hub.go:134-146 | a failed write and a timeout forget exactly that request |
| `HubEffects.ReceiveEffect` | internal/hub/hub.go:143-151 | a waiting caller returns the frame on its channel, or the not-found error once that is closed empty |
| `Hubs.SortedIsUnique` | internal/hub/hub.go:46-51 | strictly sorted lists with the same entries are equal, so the list does not depend on map order |
| `Ports.ModeIsUnambiguous` | internal/devsession/ports/ports.go:210-242 | each mode is accepted for exactly one way of writing it, with its bounds |
| `Ports.FirstFreeIsLeast` | internal/devsession/ports/ports.go:258-268 | the port found is the least that is unreserved and was not probed busy; a failure means all were |
| `Ports.RandomIsWithinBounds` | internal/devsession/ports/ports.go:270-292 | the port found is unreserved, probed free and within the bounds, after at most the given number of draws |
| `Ports.ReserveFixed` | internal/devsession/ports/ports.go:50-66 | accepts, in any map order, exactly the configurations with legal modes and distinct legal fixed ports, and reserves those ports |
| `Ports.Resolve` | internal/devsession/ports/ports.go:37-102 | rejects exactly the unacceptable configurations; a success allocates every name soundly, with distinct legal ports and every fixed port honoured |
| `Ports.SoundMeansGood` | internal/devsession/ports/ports.go:68-101 | allocations that are each justified against fixed ports and earlier names are pairwise distinct, legal and honour the fixed ports |
| `Ports.OrderIsUnique` | internal/devsession/ports/ports.go:68-72 | there is one sorted order of the names, so allocation does not depend on map order |
| `Ordering.BeforeMeans` | internal/devsession/ports/ports.go:68-72 | names are ordered by their first difference, a proper prefix first |
| `PortsRecheck.Reallocate` | internal/devsession/ports/ports.go:108-184 | the loops compute the recheck function over the sorted names, with the ports of the other names reserved |
| `PortsRecheck.ReallocateMeans` | internal/devsession/ports/ports.go:108-184 | names not selected keep their allocation; a selected port stays if free and unclaimed, and moves only when absent, claimed or probed busy |
| `PortsRecheck.RecheckKeepsDistinct` | internal/devsession/ports/ports.go:108-184 | ports stay distinct when no selected dynamic name can reach the port of a later fixed name |
| `PortsRecheck.UnmixedIsOutOfReach` | internal/devsession/ports/ports.go:166-170 | in particular when the selected names do not mix fixed and dynamic modes |
| `PortsCollision.DistinctExactlyWhenOutOfReach` | internal/devsession/ports/ports.go:166-170 | the recheck keeps ports distinct in every world exactly when no selected dynamic name can reach the port of a fixed name handled after it, because the fixed arm never looks at claims |
| `Capture.CapturePipe` | internal/devsession/command/runner.go:237-269 | the events cut the concatenation of all reads after every newline and nowhere else, with the carriage return stripped from the line |
| `Capture.CutsAreUnique` | internal/devsession/command/runner.go:237-269 | there is one such cut, so the events do not depend on the sizes of the reads |
| `Capture.MirrorIsExact` | internal/devsession/command/runner.go:237-269 | the raw parts concatenate to the input, all but the last event end in their only newline, and an event is complete exactly when it does |
| `Logs.Sink.WriteOutput` | internal/devsession/logs/logs.go:187-219 | writes to the stream's own file or the combined one, rotating first exactly when the limit would be passed, and notes the line |
| `Logs.WriteEffect` | internal/devsession/logs/logs.go:187-266 | an event changes exactly one file, its stream's own or the combined one; it is appended, or starts the file anew when it would pass the limit, and then each of the kept backups is its predecessor and number 1 the file just closed |
| `Logs.Sink.Rotate` | internal/devsession/logs/logs.go:235-266 | the countdown loop of renames computes the shift of the backups |
| `Logs.RotatedAt` | internal/devsession/logs/logs.go:250-259 | after a rotation number 1 is the file just closed, every other kept number is its predecessor, and other files are not touched |
| `Logs.FilesHoldSuffix` | internal/devsession/logs/logs.go:187-266 | after any writes from no files the backups, oldest first, and the current file are a suffix of everything written, all of it while fewer backups exist than are kept, with gapless numbers up to the limit |
| `Logs.FilesStayBounded` | internal/devsession/logs/logs.go:196-204 | no file passes the limit when no single event does |
| `Logs.StreamsAreSeparate` | internal/devsession/logs/logs.go:187-208 | each file holds what was routed to it, in order, whatever the other streams wrote |
| `LogTail.TailIsRecent` | internal/devsession/logs/logs.go:209-219 | the tail is a suffix of the non-empty lines with at most 100 lines and 64 KiB |
| `LogTail.NoteKeepsEverything` | internal/devsession/logs/logs.go:209-219 | a line drops nothing beyond the hundredth line exactly when the byte counter, with the line, is within the limit |
| `LogTail.NoteIsLongest` | internal/devsession/logs/logs.go:209-219 | from the longest allowed suffix a line leads to the longest exactly when none fits or the counter minus what the limits ask to drop is within the limit |
| `LogTail.TailIsLongest` | internal/devsession/logs/logs.go:209-219 | the tail is the longest allowed suffix while at most 100 lines, or at most 64 KiB in all, were noted |
| `LogTail.TailForgetsLongLine` | internal/devsession/logs/logs.go:209-219 | after more than 64 Ki one-byte lines every line of 100 bytes or more leaves it empty |

## Left out

- The gap inside the controller between looking at discovered routes and `SetManual`: a controller operation and a reconcile are each one atomic step.
- `publish` as code: it is an outcome and a snapshot of the manual routing; a missing publisher is one that always succeeds.
- ControllerRuns.WholeRunInvariant: assumes positive TTLs, renewals of unexpired claims only, no lease call on system claims and legacy calls only on legacy-held ids; what happens outside is in `ControllerEdges` and `ControllerScenarios`.
- ControllerEffects.DeleteLegacyEffect: speaks of states that keep the lease invariant, as the other effects of deletes, sweeps and registrations do.
- Controllers.Controller.HeartbeatLease: for a system claim the contract gives the effect but not the table invariant, which the code then breaks.
- Reconcile.OrderDoesNotMatter: assumes one hostname per id among the candidates, which `ControllerInvariant.ScannedAreGood` proves of the scanner; `Reconcile.TwoHostsOrderMatters` shows why.
- Names are ASCII without a colon in the project, which registration validates; lowering is ASCII only, and sanitising is modelled on these characters.
- `newLeaseID`: the id is a parameter that is new and has no colon (base64url, section 5 of RFC 4648); its failure is not modelled. `time.Now` is a non-zero stamp.
- `Store.DeleteExpired`, the TTL checker and `Clear`, which nothing in the daemon calls.
- The texts of errors, and for the port configuration which name an error mentions.
- PlanBuild.Build: root selection, name and command checks, port and route references and the redacted views are not modelled; the roots are known services.
- Supervisor: a worker is its script of events; processes, readiness checks, signals, discovery and route activation are the choices of that script. Each service of a scheduling pass is a step of its own. The caller's context and the run's context derived from it are done at the same moment. Route failures may be queued at any time, and a worker's notice is queued together with its start.
- SupervisorHistory.BufferNeverFull: counts route failures apart, since a route manager may send any number of them.
- Environment values are sequences of literal and reference segments, so re-parsing where a substituted literal joins its neighbour is not modelled; project, branch and host names are taken as literals, and composing entries, dotenv parsing, shell rendering and exports are left out.
- EnvStages.StagedSubstitutionIsFaithful: assumes literals and bound values without `${`; `EnvRounds.StagesAreExact` does not, and gives the exact condition.
- `LeaseManager.Start` is taken as completed, heartbeats are sequential as `Run` calls them, and the HTTP client is an outcome. Stops may be any number.
- Hub request ids are unbounded here and 64 bits wide in the code. Framing, decoding and the socket are outcomes; the write of a request and its cancellation are one step each.
- Port probes and random draws are oracles, and a port is a number; the host and the context are inside the oracle. Which name holds a reserved port is used only in an error text and is not kept.
- PortsRecheck.ReallocateMeans: assumes that a name is selected once, as the only caller, which collects map keys, ensures.
- Log files whose opening, renaming or writing fails, the `append` and `truncate` modes over files left from earlier sessions, the terminal prefix, and the case of no sink, where output is discarded.
- HTTP handlers, sockets, the local CA, DNS, YAML, authentication, dashboards, the CLI and installers: plumbing around the parts above.
