# A model of the per-user container operator's protocol

The operator gives each user of an app a Workspace: a Deployment, a Service and a volume
of their own. Five kinds of actor share the Workspace's status through the Kubernetes
API: the reconciler, the admitter, the reaper, the reclaimer and the router replicas. This
project models what each of them does, call by call, and proves what holds over every
interleaving and every run.

- **The protocol.** `Api` holds the objects, `Reconciliation` one pass of the reconciler as
  a function of what it reads and which calls fail, `Protocol` the store, the actors' steps
  and runs. `PassFacts` proves the transition table of a pass, `PassEffects` what a pass does
  do, `StepFacts` how far a step reaches, `FleetSafety`, `SessionSafety`, `FailureRuns` and
  `LifecycleRuns` the theorems about runs.
- **The actors as they are written.** `WorkspaceController` is the reconciler over mutable
  objects, `Actors` the failover sweep, the reaper and the connection tracker, `Reclaimer`
  the reclaimer. Each method is proved to do to the store what the protocol's steps do.
- **Merge patches.** `MergePatch` is section 2 of RFC 7396 with the patch a client derives
  from two objects; `StatusPatches` and `TouchRuns` apply it to interleaved reads and
  patches of one status.
- **Reclamation.** `Reclaiming` is the choice, `ReclaimRuns` the non-atomic deletion with
  a failure or a crash at every point, `VolumeRuns` what becomes of the volumes.
- **The rest.** `Admission` and `Ordering` (FIFO admission), `Reaping` (the fresh count),
  `Backoff`, `Resolver` (the address cache), `FleetLimit`, `Identity`, `Lease`, and `Shell`
  (the seeder's quoting, read back by a reader for sections 2.2.1 and 2.2.2 of the Shell
  Command Language of POSIX.1-2017).

A run is any sequence of the actors' steps. One reconcile pass, one sweep of a workspace,
one publish and one activity update are single steps of `Protocol`; the reaper's read and
write are separate. `StatusPatches` takes every read and patch apart, `TouchRuns` those of
activity updates, `ReclaimRuns` every call of the reclaimer, `Resolver` the two halves of a
lookup, and `FleetLimit` the three calls of a request handler.

Times and durations are integers in nanoseconds and sizes are integers. The spec hash is
taken to be collision free and stands for its preimage; the user key's digest is a
parameter. Clocks, API results and failures are parameters of the steps.

Where the code differs from what is said of it:

- The reconnect backoff is capped doubling only for caps below 2^62 ns; at 2^62 the
  doubling wraps (`Backoff.LadderRefinesCappedDoubling`).
- If the patch of a start failure lands and the pass's final patch does not, a Starting
  workspace with a Deployment carries a backoff and releases its slot: the pass is said to
  tear (`PassFacts.PassKeepsPhaseInv` says exactly when, `PassFacts.PassCanTear` shows
  one).
- A scale-down that lands between a pass's read and its patch survives a wake
  (`StatusPatches.SplitPassKeepsScaleDown`); the theorems about phases take a pass as one
  step.
- A lookup that straddles the handling of a delete event caches a dead address
  (`Resolver.SplitLookupGoesStale`), although the comment on the cache rules this out.
- The reclaimer deletes claims by name, so a claim that replaced the stamped one meanwhile
  is deleted without a stamp (`ReclaimRuns.SuccessorIsDeletedUnstamped`).
- A volume bound after the pass read its claim is not flipped before the claim is deleted
  (`ReclaimRuns.LateBindingIsNotReleased`; `VolumeRuns.DeletesFlippedExactly` says exactly
  when one is).
- The enqueue time can be written twice, when two handlers have read that there is none
  (`FleetLimit.FirstTimeIsKept`).
- Recorded activity can move backwards when two replicas' touches overlap, although the
  comment on it promises last writer by time (`TouchRuns.ActivityCanGoBack`;
  `TouchRuns.RunKeepsActivityExactly` says exactly when).
- An open whose publish fails is never closed, so its count keeps the workspace from being
  scaled down (`SessionSafety.FailedOpenPinsTheWorkspace`).
- A candidate whose backoff has expired is admitted without taking a slot
  (`Admission.ExpiredBackoffTakesNoSlot`; `PassFacts.TornStartQueuesArmed` shows how one
  arises).
- Two overlapping publishes of one replica can leave an entry neither of them meant
  (`StatusPatches.OverlappingPublishesMix`).

## Model

| member | source | states |
|---|---|---|
| FleetSafety.ConcurrencyBound | internal/controller/admission.go:70-116 | In every state of every run, with any call failing, at most maxConcurrentStarts workspaces are Starting without an armed backoff (fixed limit). |
| FleetSafety.DeploymentBound | internal/controller/workspace_controller.go:300-460 | In every state of every run the Starting workspaces that have a Deployment, armed or not, are at most the limit plus the workspaces on which a pass tore; with a start failure's two patches as one step, at most the limit. |
| FleetSafety.EveryReachablePhase | internal/controller/workspace_controller.go:300-539 | In every state of every run, for each workspace on which no pass tore: Pending, Starting and Failed are not scaled down; Idle is, with its Deployment absent or at 0; a backoff is armed only on Failed, or on Starting without a Deployment. |
| FleetSafety.ReconciledPhase | internal/controller/workspace_controller.go:177-252 | A pass over a workspace that meets this invariant keeps it if and only if it does not tear. |
| PassFacts.PassKeepsPhaseInv | internal/controller/workspace_controller.go:353-448 | A pass breaks the invariant if and only if it is a Starting one that fails the start (storage settled, no call before failing, no ready replica, crash loop or deadline due) of a workspace with a Deployment, the failure's patch succeeds and the final patch does not. |
| PassFacts.RecordsExactlyThere | internal/controller/workspace_controller.go:353-448 | A start failure is recorded in exactly that branch. |
| PassFacts.PassCanTear | internal/controller/workspace_controller.go:247-252 | Such a pass exists: a start past its deadline whose final patch is refused. |
| PassFacts.PassMeetsTable | internal/controller/workspace_controller.go:177-252 | Whatever a pass reads and whichever calls fail, it makes only moves of the transition table: phases with their guards, the fields each transition may touch, Deployment, storage; the routers' fields stay. |
| FleetSafety.LandsOnWhatWasRead | internal/controller/reaper.go:277-285 | A conditional scale-down that goes through finds the very object that passed the reap predicate and changes scaledDown alone. |
| FleetSafety.StaleSnapshotNeverLands | internal/controller/reaper.go:190-214 | After any write to the workspace since the read, or its deletion, the scale-down has no effect, at once or after any further run. |
| SessionSafety.WakeStep | internal/controller/workspace_controller.go:486-509 | A step of any actor keeps a recorded wake or moves the workspace to Pending with scaledDown false; none moves a workspace with a wake to Idle. |
| SessionSafety.WakeIsNeverLost | internal/controller/workspace_controller.go:476-539 | Over whole runs, a wake that is gone was cleared by a step of the run that moved the workspace to Pending, not scaled down. |
| SessionSafety.NoLiveSessionIsReaped | internal/controller/reaper.go:190-285 | Over every run, failing publishes included, with the reaper's read and write apart: no scale-down that goes through hits a workspace on which a replica counts a connection, if it has published its present count there within two heartbeat intervals (fresh sum below 2^32); nothing is asked of other replicas. |
| SessionSafety.OnlyTheIdleAreReaped | internal/controller/reaper.go:190-236 | Over every run, whatever step turns scaledDown on is the reaper's, and finds a Ready workspace whose recorded lastActivity is more than idleTimeout before the pass began. |
| SessionSafety.RunKeepsConns | internal/router/connections.go:55-97 | In every reachable state no count is negative, and wherever a replica's last change of count was published to the present object, its entry is what it counts. |
| SessionSafety.CountsFailedOpens | internal/router/server.go:394-396 | What a replica counts is the connections whose callers will close them plus the opens whose publish failed, which nobody closes. |
| SessionSafety.FailedOpenPinsTheWorkspace | internal/router/connections.go:55-76 | After one failed open, heartbeats in time keep the workspace from ever being scaled down. |
| SessionSafety.ActivityNeverGoesBack | internal/router/connections.go:143-155 | With each touch as one step, recorded activity never moves backwards over any run of all the actors. |
| TouchRuns.SplitTouch | internal/router/connections.go:143-155 | What the patch of a touch does to a status that has moved on since its read. |
| TouchRuns.RunKeepsActivityExactly | internal/router/connections.go:143-155 | Over any run of interleaved reads and touches, activity never goes back if and only if every touch is no earlier than what is stored or no later than what it read. |
| TouchRuns.ActivityCanGoBack | internal/router/connections.go:143-155 | Two replicas read zero, one stores ten, the other then stores five. |
| TouchRuns.WholeTouchKeepsActivity | internal/router/connections.go:143-155 | A touch that writes right after it reads is the protocol's, and leaves the later of the two times. |
| LifecycleRuns.DeadlineAccounting | internal/controller/admission.go:207-249 | While a workspace starts with its Deployment, its deadline is the old one plus the leaderless intervals of the run's sweeps. |
| LifecycleRuns.DeadlineSurvivesFailover | internal/controller/workspace_controller.go:300-415 | From admission the deadline is admission time + startupTimeout + the intervals since, and a pass fails the start without a crash loop no earlier than that. |
| LifecycleRuns.ReconciledStorage | internal/controller/workspace_controller.go:630-737 | No pass lowers a claim's request or the largest observed size; one that finds the app smaller than that size touches neither Deployment nor claims and starts nothing. |
| LifecycleRuns.LargestNeverShrinks | internal/controller/workspace_controller.go:732-737 | Over every run the largest observed size never decreases. |
| LifecycleRuns.ShrinkStaysRefused | internal/controller/workspace_controller.go:313-322 | Once a size has been observed, any later app asking for less, edited or recreated, gets its workspace neither started nor touched. |
| LifecycleRuns.DeploymentsAreLastRender | internal/controller/workspace_controller.go:585-618 | In every state of every run a Deployment's template is the render of the app at the last create or ensure, its replicas the last wanted. |
| LifecycleRuns.ScaleCyclesKeepTheTemplate | internal/controller/render.go:151-267 | A Deployment's selector never changes, and under an app whose render is unchanged no run rewrites its template. |
| PassEffects.RenderFitsTogether | internal/controller/render.go:151-327 | The rendered Deployment selects the pods it makes, and they mount the claim made for them, with the app's template, path and seed. |
| PassEffects.HashTellsRendersApart | internal/controller/render.go:259-267 | The hash is the same exactly when everything rendered is. |
| PassFacts.EnsureDeploymentSyncs | internal/controller/workspace_controller.go:585-618 | An ensured Deployment has the current render with its hash, which it may not have carried, and the wanted replicas; a second call writes nothing; the template is rewritten exactly when the hash is missing or another one. |
| WorkspaceController.WorkspaceReconciler.Reconcile | internal/controller/workspace_controller.go:177-245 | A whole pass, finalizer and deletion included, changes the store exactly as the protocol's reconcile step does. |
| PassEffects.BeforeThePhase | internal/controller/workspace_controller.go:177-211 | What a pass does before it comes to a phase: deletion, finalizer, and a new workspace becoming Pending. |
| PassEffects.OutcomeReachesTheStore | internal/controller/workspace_controller.go:219-252 | What the handler came to is in the store after the pass, or with the last patch failing only a recorded failure. |
| WorkspaceController.WorkspaceReconciler.RunHandler | internal/controller/workspace_controller.go:219-252 | The phase switch and the one final patch, sent even after a handler's error: the new store, and when the pass reports an error. |
| WorkspaceController.WorkspaceReconciler.ReconcilePending | internal/controller/workspace_controller.go:300-345 | Admission, then Starting with its deadline, then storage, then the children, with every failing call's effect on the workspace in hand. |
| PassEffects.AdmittedStarts | internal/controller/workspace_controller.go:300-345 | An admitted workspace with its storage settled, and no failing call on its Deployment, is Starting with its deadline and with a Deployment of the current template at one replica (none only if newly made for a scaled-down one). |
| PassEffects.PendingLeavesExactly | internal/controller/workspace_controller.go:300-322 | Pending becomes Starting if and only if admitted and storage is not refused; a failing storage call leaves it Starting. |
| WorkspaceController.WorkspaceReconciler.ReconcileStarting | internal/controller/workspace_controller.go:353-415 | The exits of Starting in their order: storage refusal, ready replicas, orphan, crash loop, deadline. |
| PassEffects.StartingBecomesReadyExactly | internal/controller/workspace_controller.go:353-437 | Starting becomes Ready if and only if storage is settled, no call fails and the Deployment has a ready replica; then deadline, failures and waiting reason are cleared, the references set, and wake and backoff kept. |
| PassEffects.StartingFailsExactly | internal/controller/workspace_controller.go:378-415 | Short of that it becomes Failed if and only if it is armed without a Deployment, its pod's first waiting container loops in crashes, or its deadline has come. |
| PassEffects.StartingReports | internal/controller/workspace_controller.go:392-407 | While it goes on starting it reports its first waiting container's reason, or an attach conflict, or what it reported before. |
| WorkspaceController.WorkspaceReconciler.ReconcileReady | internal/controller/workspace_controller.go:476-512 | A wake comes before the scale-down; Idle only once the pods are gone. |
| PassEffects.ReadyLeavesExactly | internal/controller/workspace_controller.go:476-512 | Ready becomes Pending if and only if it has a wake, which clears wake and scale-down; and, no call failing, Idle if and only if it is scaled down without a wake and its pods are gone. |
| PassEffects.ReadyScalesDown | internal/controller/workspace_controller.go:495-497 | A scaled-down Ready workspace has its Deployment brought to no replicas. |
| WorkspaceController.WorkspaceReconciler.ReconcileIdle | internal/controller/workspace_controller.go:523-539 | A wake moves Idle to Pending; nothing else does. |
| PassEffects.IdleLeavesExactly | internal/controller/workspace_controller.go:523-539 | Idle becomes Pending if and only if it has a wake and the pass gets that far; its Deployment is not touched. |
| WorkspaceController.WorkspaceReconciler.ReconcileFailed | internal/controller/workspace_controller.go:454-460 | Failed is left for Pending only strictly after an armed backoff, which is cleared. |
| PassEffects.FailedLeavesExactly | internal/controller/workspace_controller.go:454-460 | Failed becomes Pending if and only if its backoff is strictly past, and nothing but the backoff changes with it. |
| WorkspaceController.WorkspaceReconciler.RecordStartFailure | internal/controller/admission.go:170-184 | One patch of exactly the two failure fields, against the stored status, copied back without touching the phase in hand; on error nothing changes. |
| FailureRuns.FailureStep | internal/controller/admission.go:170-184 | Any step of anyone either records a failure, which counts one up and arms the backoff for the wait that number asks for, or makes the workspace Ready, which sets the count to 0, or leaves the count alone. |
| FailureRuns.FailuresInARow | internal/controller/admission.go:135-184 | Over any run without becoming Ready, the step that records the k-th failure leaves k counted and the backoff armed until its clock plus min(5 s * 2^(k-1), backoffMax). |
| FailureRuns.SweepTouchesStartsOnly | internal/controller/admission.go:213-247 | The sweep changes Starting workspaces only: the deadline by the interval, or the count and the backoff. |
| FailureRuns.ReadyForgetsFailures | internal/controller/workspace_controller.go:421-437 | Becoming Ready sets the count to 0. |
| WorkspaceController.WorkspaceReconciler.EnsureDeployment | internal/controller/workspace_controller.go:585-618 | The in-place update of one Deployment, and no write when hash and replicas agree. |
| WorkspaceController.WorkspaceReconciler.ReconcilePVC | internal/controller/workspace_controller.go:630-669 | The shrink guard, then creation, adoption or refusal by the number of claims, with the conditions each sets. |
| PassEffects.StorageDecides | internal/controller/workspace_controller.go:630-669 | Storage lets a pass go on, is an error, or is refused under exactly these conditions on sizes, claims and failing calls; and which condition each refusal sets. |
| PassEffects.ClaimIsCreated | internal/controller/workspace_controller.go:645-665 | Without a claim, one of the app's size, class and access mode is created and its size put on record. |
| WorkspaceController.WorkspaceReconciler.ReconcileExistingClaim | internal/controller/workspace_controller.go:671-727 | Growth of a bound claim only, drift on a smaller app or other class or mode, and the observed size. |
| PassEffects.ClaimGrows | internal/controller/workspace_controller.go:671-737 | A claim grows to the app's size exactly if it is bound and smaller; the size on record covers what a bound claim has; drift is reported exactly for a larger claim or another class or mode. |
| PassEffects.StorageReachesTheOutcome | internal/controller/workspace_controller.go:300-539 | Wherever a pass comes to storage, what it made of claims and sizes is what it leaves. |
| Admission.TryAdmit | internal/controller/admission.go:70-116 | The loop, sort and walk decide admission: the workspace is in the head of the queue, the gate is open and its backoff is over. |
| Admission.FirstComeFirstAdmitted | internal/controller/admission.go:70-130 | When a Pending workspace is admitted, so is every Pending one out of backoff whose enqueuedAt, or creation without one, is earlier, or equal with an earlier place in the list; a closed migration gate admits nobody. |
| Admission.AdmitsNobodyElse | internal/controller/admission.go:70-82 | Nobody is admitted through a closed gate, before its backoff is over, without a free slot, or unless listed as Pending. |
| Admission.HowManyAreAdmitted | internal/controller/admission.go:84-116 | With the gate open and nobody in backoff, exactly min(max(0, limit - unarmed starts), pending) workspaces are admitted. |
| Ordering.SortByOrders | internal/controller/admission.go:102-104 | Whoever has the smaller key, or an equal one and stands first, stands first after sorting. |
| Admission.AcceptedIsHead | internal/controller/admission.go:84-116 | With the migration gate open, what is accepted is exactly the first min(slots, pending) of the queue, less those in backoff; without armed backoffs exactly those. |
| Admission.AdmittingOneLeavesTheRest | internal/controller/admission.go:84-116 | Admitting an accepted workspace leaves exactly the others accepted if and only if it carries no backoff, or nobody waits behind the slots, or the first who does is in backoff. |
| Admission.EveryOrderAdmitsTheSameSet | internal/controller/admission.go:84-116 | Whatever backoffs the candidates carry, every order of passes that leaves nothing to admit has admitted one and the same set. |
| Admission.AdmissibleIsAccepted | internal/controller/admission.go:84-116 | That set is what is accepted at the start if and only if, behind the slots, as many candidates as the head has expired backoffs are all in backoff; in any case it holds all of that. |
| Admission.ExpiredBackoffTakesNoSlot | internal/controller/admission.go:84-95 | With one slot, a candidate with an expired backoff is accepted, and then another one too, since its start takes no slot. |
| PassFacts.TornStartQueuesArmed | internal/controller/workspace_controller.go:421-437 | Such a candidate arises: a torn start that turns Ready and is woken is Pending with its backoff still armed. |
| Ordering.SortByIsStable | internal/controller/admission.go:102-104 | The order keeps workspaces of equal key in list order. |
| Ordering.SortByIsSorted | internal/controller/admission.go:102-104 | The order is ascending in the key. |
| Backoff.BackoffDuration | internal/controller/admission.go:135-150 | For every failure count and every 64-bit cap the loop yields min(5s * 2^(n-1), cap), without overflow. |
| Backoff.WatchDeletes | internal/router/resolve.go:198-243 | The wait after every session of the reconnect loop: the floor after a healthy one, else what the streak of failures leads to. |
| Backoff.WaitsExactly | internal/router/resolve.go:198-280 | After a session of the floor's length or more the wait is the floor; after a short or failed one with j such right before it, the floor doubled j times and capped (cap below 2^62 ns). |
| Backoff.LadderIsCapped | internal/router/resolve.go:274-280 | After j failures in a row the wait is min(floor * 2^j, cap), for every cap below 2^62 ns. |
| Backoff.LadderRefinesCappedDoubling | internal/router/resolve.go:274-280 | That holds for all j if and only if the cap is below 2^62 ns. |
| Backoff.WrapsPastTheCap | internal/router/resolve.go:274-280 | At 2^62 ns or more, whatever the floor, the doubling wraps in the end. |
| Shell.ReadSingleQuote | internal/controller/render.go:796-798 | Whatever follows it, a quoted string is read as exactly its own characters and ends neither word nor command. |
| Shell.QuotedIsOneWord | internal/controller/render.go:796-798 | A POSIX word reader reads the quoted string back as one word with the same value, if and only if the string is NUL-free. |
| Shell.SeedScriptWords | internal/controller/render.go:820-832 | The bare seed command is exactly the words cp, -an, from and staging with a slash, for every pair of NUL-free paths, and is refused otherwise. |
| Actors.Admitter.OnLeaseAcquired | internal/controller/admission.go:207-249 | The sweep's walk edits exactly the Starting workspaces before the first failing one, each as the sweep step says. |
| Actors.SweepIsARun | internal/controller/admission.go:207-249 | The walk is a run of protocol steps. |
| Actors.WriteEachAt | internal/controller/admission.go:213-247 | A walk over distinct names edits each of them once, from what was read, and touches no other. |
| Actors.Reaper.ScaleDown | internal/controller/reaper.go:277-285 | The write goes through exactly when the workspace is there at the version read; a conflict or a missing workspace changes nothing. |
| Actors.Reaper.ReapApp | internal/controller/reaper.go:190-214 | Every Ready, unscaled workspace idle for longer than idleTimeout, with nobody there and still at the version read, is scaled down unless its call fails, and only idle ones are; conflicts are no error, a missing workspace and a failing call are, and keep none of the others from it. |
| Actors.ReapIsARun | internal/controller/reaper.go:190-214 | A pass over snapshots that were read, failing calls included, is a run of protocol steps. |
| Actors.ConnectionTracker.Open | internal/router/connections.go:55-64 | The count goes up whether or not the publish succeeds, and the published entry is the new count. |
| Actors.ConnectionTracker.Close | internal/router/connections.go:68-76 | The count goes down, never below zero and never for a key never opened, and is published either way. |
| Actors.ConnectionTracker.HeartbeatAll | internal/router/connections.go:103-116 | Every count ever held is republished once, in any order, zero or not, and nothing else is written. |
| Actors.HeartbeatIsARun | internal/router/connections.go:103-116 | A round of heartbeats, failing ones included, is a run of protocol steps. |
| Actors.OpenAndCloseAreSteps | internal/router/connections.go:55-76 | Opening and closing, published or not, are protocol steps, in the store and in memory. |
| Actors.TouchActivity | internal/router/connections.go:143-155 | Activity is written only when it is later than what is on record. |
| Reaping.FreshConnectionCount | internal/controller/reaper.go:249-258 | The loop computes the sum of the fresh counts modulo 2^32, in whatever order the entries come. |
| Reaping.FreshTotalTake | internal/controller/reaper.go:249-258 | The sum does not depend on the order of the entries. |
| Reaping.CheckReapable | internal/controller/reaper.go:222-236 | The test, in the order the code makes it. |
| Reaping.ReapableExactly | internal/controller/reaper.go:222-258 | The test holds exactly of a Ready workspace, not scaled down, with lastActivity more than idleTimeout ago and no entry that counts a connection with a heartbeat of the last two intervals (counts not negative, fresh sum below 2^32; one way without that). |
| Reaping.SumCanWrapToZero | internal/controller/reaper.go:249-258 | Three positive counts within 32 bits can sum to a reapable zero: why the session theorem bounds the sum. |
| MergePatch.RoundTrip | internal/router/connections.go:82-97 | Patching the object that was read yields the object that was wanted, when that is null-free. |
| MergePatch.NothingToSend | internal/controller/workspace_controller.go:247-252 | The patch is empty exactly when there is nothing to change. |
| MergePatch.PatchIsLocal | internal/router/server.go:288-299 | A patch leaves every path at which base and result agree, and nothing above was replaced, as every target has it. |
| MergePatch.PatchTouchesTheRest | internal/router/server.go:288-299 | Conversely, at every other path some target is changed. |
| MergePatch.DisjointPatchesCommute | internal/router/connections.go:82-97 | Patches that meet only in objects both descend into give one document in either order. |
| StatusPatches.PublishesCommute | internal/router/connections.go:82-97 | Publishes under different pod names commute, whatever each had read and whatever they land on. |
| StatusPatches.LastPublishedSurvives | internal/router/connections.go:82-97 | Over every interleaving of reads, merge patches and conditional updates by any writers, the entry a replica published last is the one in the store (one publish of a replica in flight at a time). |
| StatusPatches.PublishLands | internal/router/connections.go:82-97 | A replica that read its entry as it still is publishes exactly what it meant. |
| StatusPatches.PublishLandsExactly | internal/router/connections.go:82-97 | In general it does so if and only if each field it leaves as read is still as read. |
| StatusPatches.OverlappingPublishesMix | internal/router/connections.go:55-97 | Two overlapping publishes of one replica can leave a fresh zero beside an open connection. |
| StatusPatches.OtherWritersLeaveEntries | internal/controller/workspace_controller.go:247-252 | Every pass, sweep, wake, enqueue, touch and scale-down wants the connection entries as its writer read them. |
| StatusPatches.UninterruptedPatch | internal/controller/admission.go:170-184 | With nothing between read and patch the store holds what the writer wanted: the protocol's writes as one step are these patches. |
| StatusPatches.PublishIsPublishDoc | internal/router/connections.go:86-92 | The protocol's publish and the document's publish are one. |
| StatusPatches.ConcurrentWakeSurvives | internal/router/server.go:337-344 | A wake landing between another writer's read and its patch outlives the patch unless that writer itself cleared a wake. |
| PassEffects.EditsWriteTheirField | internal/router/server.go:288-344 | A wake and an enqueue are recorded at their time and touch nothing else. |
| StatusPatches.SplitPassKeepsScaleDown | internal/controller/workspace_controller.go:476-512 | If a scale-down lands between a Ready pass's read and its patch, the workspace stays scaled down, and is left Pending if and only if the pass read a wake, its storage was settled and the policies let it through: why a pass is one step. |
| StatusPatches.EnqueuePatchReplaces | internal/router/server.go:288-299 | A handler that read no enqueue time sets its own, over whatever is there by then. |
| StatusPatches.SplitSweep | internal/controller/admission.go:213-247 | What the sweep's patch does to a start that has moved on since the list was read: the phase stays, the deadline is set from the one read, and an orphan is armed even if it has a Deployment by then. |
| Reclaiming.CheckReclaimable | internal/controller/reclaimer.go:252-266 | The test, in the order the code makes it. |
| Reclaiming.ReclaimableExactly | internal/controller/reclaimer.go:252-266 | The test holds exactly of a workspace not being deleted, Idle or Failed, with lastActivity at least minIdleAge ago and nobody there (counts not negative, fresh sum below 2^32; one way without that). |
| Reclaiming.Select | internal/controller/reclaimer.go:205-234 | The two scans, the stable sort and the cut compute the choice. |
| Reclaiming.SelectionSize | internal/controller/reclaimer.go:216-234 | Exactly min(max(0, live - target), reclaimable) are chosen, and a fleet at or above its target is not taken below it. |
| Reclaiming.SelectionIsLeastRecent | internal/controller/reclaimer.go:220-234 | The chosen are distinct, Idle or Failed, and idle for at least minIdleAge with nobody there; and none has a later lastActivity than one that is left and could have been chosen. |
| Reclaiming.SelectionCount | internal/controller/reclaimer.go:216-234 | How many are chosen, counted by those fields. |
| ReclaimRuns.ReclamationIsCrashSafe | internal/controller/reclaimer.go:268-319 | Where nobody else deletes claims and none is bound while being reclaimed: over every run with failures and crashes anywhere, a claim whose deletion was issued was stamped, had since had no live workspace, and had its volume at Delete when deleteVolumeData is set; no data is lost otherwise. |
| ReclaimRuns.DeletesStampedExactly | internal/controller/reclaimer.go:290-319 | In every run at all, the claim that is deleted bears the stamp if and only if it is still the claim the pass saw or set the stamp on. |
| VolumeRuns.DeletesFlippedExactly | internal/controller/reclaimer.go:290-319 | In every run with deleteVolumeData, when a pass is about to delete a claim its volume is flipped if and only if the claim is not bound, the volume is gone, or it is the volume the pass read with the claim. |
| VolumeRuns.VolumesFlippedExactly | internal/controller/reclaimer.go:335-414 | At every moment of every such run, the sweep's deletions included, a claim's volume is flipped if and only if it is unbound, gone, or some pass released that volume as read with that claim. |
| VolumeRuns.DataLostOnlyWhenReleased | internal/controller/reclaimer.go:335-355 | In every run, whoever deletes claims, data is lost only of a volume a pass released, and without deleteVolumeData never. |
| VolumeRuns.DeletesVacatedOnly | internal/controller/reclaimer.go:310-319 | In every run, a claim that is deleted and still the stamped one has had no live workspace at some time since its stamp. |
| ReclaimRuns.NextPassRemovesOrphan | internal/controller/reclaimer.go:381-414 | Once the workspace is gone, the next pass whose sweep ends without error has issued the deletion of its stamped claim, whatever happens meanwhile. |
| ReclaimRuns.LateBindingIsNotReleased | internal/controller/reclaimer.go:335-355 | A volume bound between read and deletion is not flipped, and its data stays. |
| ReclaimRuns.SuccessorIsDeletedUnstamped | internal/controller/reclaimer.go:310-317 | A claim that replaced one deleted by someone else mid-way is deleted unstamped, since the deletion goes by name. |
| Reclaimer.WorkspaceReclaimer.ReleaseVolume | internal/controller/reclaimer.go:335-355 | The flip, with its cases in which nothing is to do, and nothing changed on failure. |
| Reclaimer.WorkspaceReclaimer.MarkReclaiming | internal/controller/reclaimer.go:360-370 | The stamp, not written twice. |
| Reclaimer.WorkspaceReclaimer.ReclaimWorkspace | internal/controller/reclaimer.go:290-319 | A failed read, flip or stamp deletes nothing, a failed workspace deletion keeps the claim, a missing claim is an error after the workspace; and the calls are a run of the protocol. |
| Reclaimer.WorkspaceReclaimer.ReclaimOrphans | internal/controller/reclaimer.go:381-414 | Exactly the stamped claims without a listed workspace, not going already, are deleted; an error on one ends the pass after the rest. |
| Reclaimer.WorkspaceReclaimer.ReclaimApp | internal/controller/reclaimer.go:194-246 | The choice is the least recently used, out of use and with nobody there; a pass removes only chosen workspaces, and with no failing call exactly the chosen: the fleet shrinks by min(max(0, live - target), reclaimable), and exactly the orphans' claims and those of the chosen have their deletion issued. |
| Resolver.AddressResolver.Resolve | internal/router/resolve.go:80-100 | The cached address, else the live Service's, else an error and an unchanged cache. |
| Resolver.HasEndpoints | internal/router/resolve.go:116-135 | True exactly when some slice has an endpoint with an address that is not known to be unready. |
| Resolver.CacheIsCoherent | internal/router/resolve.go:80-164 | With lookups as one step, a cached address belongs to the live Service it was read from if and only if that Service's delete event is neither queued nor lost to a watch gap; then no other Service has the address. |
| Resolver.CachedAddressExactly | internal/router/resolve.go:80-100 | With lookups interleaved at will: if and only if that Service's own delete event is not queued, was not lost, and was not handled before the address was written. |
| Resolver.SplitLookupGoesStale | internal/router/resolve.go:90-98 | That case occurs: a dead address stays cached with the watch connected and nothing queued. |
| Resolver.WorkspaceEventIsNotEnough | internal/router/resolve.go:150-164 | The Workspace watch alone does not close a gap of the Service watch. |
| FleetLimit.EnsureWorkspace | internal/router/server.go:234-286 | A user whose Workspace is found is never refused; refusal happens exactly when it is not and the list has reached a positive limit; a lost creation race is served. |
| FleetLimit.EnsureEnqueuedAt | internal/router/server.go:288-299 | A handler that read a time writes nothing; one that read none stores its own, over whatever is stored by then. |
| FleetLimit.FirstTimeIsKept | internal/router/server.go:288-299 | The first time stored is kept over every later run if and only if no other handler has read that there is none when it is stored. |
| FleetLimit.EnsureFollowsSteps | internal/router/server.go:234-286 | A handler's lookup, check and creation are the three steps below, whatever others do in between: when it is refused and when it creates. |
| FleetLimit.FleetStaysBounded | internal/router/server.go:247-286 | Over every interleaving of k handlers with deletions and failures, a fleet within the limit never exceeds it by more than k - 1. |
| FleetLimit.BoundIsReached | internal/router/server.go:247-286 | For every limit and every k some interleaving reaches that bound. |
| FleetLimit.RefusedBesideOwnCreation | internal/router/server.go:238-253 | A user can be refused whose Workspace another of their requests has created since the lookup. |
| Identity.Extract | internal/identity/identity.go:61-101 | The checks and the scan give the verdict of the first check that fails, with its status. |
| Identity.AcceptsExactly | internal/identity/identity.go:61-101 | Accepted is exactly a single printable-ASCII value without comma, not all spaces, not too long, not the reserved one, passed on whole. |
| Identity.RejectsExactly | internal/identity/identity.go:61-101 | Each rejection's reason, in the order of the checks, with its status. |
| Identity.BlankExactly | internal/identity/identity.go:81-83 | What counts as white space. |
| Identity.SharedRequest | internal/router/server.go:72-82 | True exactly for GET or HEAD of a path listed as it stands. |
| Identity.SelectIdentity | internal/router/server.go:98-132 | Who a request is served as, or the status it is refused with. |
| Identity.SharedExactly | internal/router/server.go:98-132 | The shared identity is served if and only if the caller is authenticated, no identity header is there, the method only reads and the path is listed. |
| Identity.PreimageIsInjective | internal/identity/userkey.go:16-19 | Equal preimages have equal namespace, app and identity, for NUL-free namespaces and apps. |
| Identity.KeysAgreeOnEightBytes | internal/identity/userkey.go:16-19 | Keys are equal exactly when the first eight bytes of the digests are. |
| Identity.UserKeyReads | internal/identity/userkey.go:16-19 | A key is u- and the first eight bytes of the digest in lower-case hexadecimal. |
| Identity.ChildNameSplits | internal/identity/userkey.go:21-23 | A child name splits into app and 18-character key in one way only. |
| Identity.UsersAreApart | internal/router/server.go:98-135 | Two served requests reach one user's resources exactly when they are to one app with one identity header, or both none (no digest collision between the two). |
| Lease.RecognisesExactlyItsPod | cmd/controller.go:159-161 | For names without underscore the last holder is recognised exactly when it was this pod, in whatever process. |
| Lease.SweepAddsTheGap | cmd/controller.go:174-182 | A re-acquisition by the same pod, or the first of all, extends no deadline; one by another pod extends it by exactly the time since the last renewal. |

## Left out

- FleetSafety.ConcurrencyBound: takes a reconcile pass as one step, as the manager runs one worker; SplitPassKeepsScaleDown shows what a reaper's write in the middle of a pass does.
- SessionSafety.NoLiveSessionIsReaped: a publish, successful or not, is a single step, and the fresh sum of the reaped workspace is below 2^32; a replica that has not published its present count there in time is outside it.
- SessionSafety.ActivityNeverGoesBack: a touch's read and patch are one step; TouchRuns takes them apart.
- Actors.Admitter.OnLeaseAcquired: the list it reads and each patch are one step with nothing in between, although it runs beside the reconciler; SplitSweep says what a patch does when something comes between.
- StatusPatches.LastPublishedSurvives: a replica has one publish in flight at a time; the code does not serialise the publishes of one replica.
- ReclaimRuns.ReclamationIsCrashSafe: assumes that nobody else deletes claims, that a claim is gone before the next attempt on its name, and that no volume is bound to a claim that is stamped or being read; outside that, DeletesStampedExactly and the exact conditions of VolumeRuns hold.
- VolumeRuns.VolumesFlippedExactly: a volume is bound to one claim at most, as the cluster's binder keeps it; volume policies are changed by nobody but the reclaimer.
- Reclaimer.WorkspaceReclaimer.ReclaimApp: chooses from the list it read; the deletion is unconditional, so a workspace that wakes after the list is still deleted, and nothing here says otherwise.
- Resolver.CacheIsCoherent: one port, as a router has one; a cached address is returned whatever port is asked for.
- Reap and Reclaim: the per-app interval gates, the loop over apps and the lastPass maps; each pass is modelled for one app that is due.
- The fleet is one app in one namespace, and a Workspace has the name of its children, as ChildName gives it; a claim list by label is the list kept under that name.
- Wakes and enqueue times are written by the routers at any time, which includes every time the code writes them; coldStartHold's wait, classify and the proxying of requests are not modelled.
- Services and NetworkPolicies: only whether creating them fails, not what they contain; the network policies of Starting, Ready and Idle are always allowed to be created.
- The pod template: spec.workspace is copied as a whole, so probes, volumes and defaults inside it are one value; server-side defaulting is not modelled.
- Timestamps have no second truncation, and differences of times do not saturate.
- StatusPatches.UninterruptedPatch: the three storage conditions are one list of flags; condition reasons, messages and times are left out.
- Shell.SeedScriptWords: the directory form of the seed script, with its loop and globs, is built by the model but not read back.
- The lease snapshot itself, taken once at process start, is a parameter; so is the credential check of the routers.
- Metrics, events, requeue intervals, garbage collection by owner reference, RBAC, flag parsing, ValidateApp and the PerUserApp controller: outside the protocol or settled by one branch each.
