/** What one pass of the workspace reconciler does to one Workspace, its Deployment
    and its claims, as functions of what the pass reads. A pass is described with every
    API call that can fail: `faults` names the calls that do. */
module Reconciliation {
  import opened Api
  import Admission
  import Backoff

  datatype Fault =
    | GetFails | UpdateFails | AppGetFails
    | AdmitListFails
    | ClaimListFails | ClaimCreateFails | ClaimNameTaken | ClaimPatchFails
    | DeploymentCreateFails | DeploymentGetFails | DeploymentPatchFails
    | ServiceFails | PolicyFails | PodListFails
    | RecordFails | StatusPatchFails

  /** What a pass finds outside the store: the app, the workspace's pods, the ready
      replicas its Deployment reports, and which calls fail. */
  datatype Env = Env(app: App, pods: seq<Pod>, readyReplicas: int, faults: set<Fault>)

  // ---------------------------------------------------------------- rendering

  function Labels(app: App, name: Name): PodLabels { PodLabels(app.name, name) }

  function RenderTemplate(app: App, name: Name): PodTemplate {
    PodTemplate(Labels(app, name), app.template, name, app.mountPath, app.seed)
  }

  function RenderHash(app: App, name: Name): SpecHash {
    SpecHash(Labels(app, name), RenderTemplate(app, name))
  }

  function RenderDeployment(app: App, name: Name, scaledDown: bool): Deployment {
    Deployment(Labels(app, name), RenderTemplate(app, name), Some(if scaledDown then 0 else 1),
               Some(RenderHash(app, name)), 0)
  }

  function RenderClaim(app: App, name: Name): Claim {
    Claim(name, app.size, false, None, app.storageClass, true)
  }

  // ------------------------------------------------------------------ storage

  function RaiseLargest(st: StorageStatus, size: int): StorageStatus {
    if st.largestObservedSize.None? || size > st.largestObservedSize.value
    then st.(largestObservedSize := Some(size))
    else st
  }

  datatype StorageOutcome = StorageOutcome(st: StorageStatus, claims: seq<Claim>, refused: bool, failed: bool)

  /** The size a bound claim really has. */
  function BoundSize(c: Claim): int { if c.capacity.Some? then c.capacity.value else c.request }

  function ObserveBound(st: StorageStatus, c: Claim): StorageStatus {
    if c.bound then RaiseLargest(st, BoundSize(c)) else st
  }

  function ExistingClaim(st: StorageStatus, c: Claim, app: App, faults: set<Fault>): StorageOutcome {
    var st := st.(pvcRef := c.name);
    if app.size > c.request then
      if !c.bound then StorageOutcome(st, [c], false, false)
      else if ClaimPatchFails in faults then StorageOutcome(st, [c], true, true)
      else
        var grown := c.(request := app.size);
        var st := RaiseLargest(st, app.size).(specDrift := false);
        StorageOutcome(ObserveBound(st, grown), [grown], false, false)
    else
      var drift := app.size < c.request || c.storageClass != app.storageClass || !c.readWriteOncePod;
      StorageOutcome(ObserveBound(st.(specDrift := drift), c), [c], false, false)
  }

  predicate ShrinkRefused(st: StorageStatus, app: App) {
    st.largestObservedSize.Some? && app.size < st.largestObservedSize.value
  }

  function ReconcileStorage(st: StorageStatus, claims: seq<Claim>, name: Name, app: App, faults: set<Fault>): StorageOutcome {
    if ShrinkRefused(st, app) then StorageOutcome(st.(shrinkRejected := true), claims, true, false)
    else ClaimStep(st.(shrinkRejected := false), claims, name, app, faults)
  }

  /** What is there decides: nothing, one claim or several. */
  function ClaimStep(st: StorageStatus, claims: seq<Claim>, name: Name, app: App, faults: set<Fault>): StorageOutcome {
    if ClaimListFails in faults then StorageOutcome(st, claims, true, true)
    else if |claims| == 0 then
      var st := st.(ambiguousVolume := false);
      if ClaimCreateFails in faults then StorageOutcome(st, claims, true, true)
      else
        var st := RaiseLargest(st.(pvcRef := name), app.size).(specDrift := false);
        StorageOutcome(st, if ClaimNameTaken in faults then claims else [RenderClaim(app, name)], false, false)
    else if |claims| == 1 then ExistingClaim(st.(ambiguousVolume := false), claims[0], app, faults)
    else StorageOutcome(st.(ambiguousVolume := true), claims, true, false)
  }

  // --------------------------------------------------------------- deployment

  /** `synced` when the Deployment is there and the call left it as wanted. */
  datatype DeploymentOutcome = DeploymentOutcome(dep: Option<Deployment>, failed: bool, synced: bool, writes: nat)

  function EnsureDeployment(dep: Option<Deployment>, name: Name, app: App, want: int, faults: set<Fault>): DeploymentOutcome {
    if DeploymentGetFails in faults then DeploymentOutcome(dep, true, false, 0)
    else if dep.None? then DeploymentOutcome(dep, false, false, 0)
    else
      var d := dep.value;
      var stale := d.hash != Some(RenderHash(app, name));
      if !stale && d.replicas == Some(want) then DeploymentOutcome(dep, false, true, 0)
      else if DeploymentPatchFails in faults then DeploymentOutcome(dep, true, false, 0)
      else
        var d := if stale
                 then d.(template := RenderTemplate(app, name), hash := Some(RenderHash(app, name)), rollouts := d.rollouts + 1)
                 else d;
        DeploymentOutcome(Some(d.(replicas := Some(want))), false, true, 1)
  }

  // ----------------------------------------------------------- phase handlers

  /** The outcome of a phase handler before the final status patch. `recorded` when a
      start failure was recorded, which persists its two fields at once; `synced` holds
      the replica count last asked for when the Deployment was created or ensured. */
  datatype Handled = Handled(
    st: Status,
    dep: Option<Deployment>,
    claims: seq<Claim>,
    failed: bool,
    recorded: bool,
    synced: Option<int>)

  function Unchanged(st: Status, dep: Option<Deployment>, claims: seq<Claim>, failed: bool): Handled {
    Handled(st, dep, claims, failed, false, None)
  }

  // Each handler but the Failed one is given the outcome s of the storage step it runs.

  function HandlePending(s: StorageOutcome, st: Status, dep: Option<Deployment>, claims: seq<Claim>, name: Name,
                         admitted: bool, now: int, env: Env): Handled {
    if AdmitListFails in env.faults && Admission.Considered(st, env.app, now) then Unchanged(st, dep, claims, true)
    else if AdmitListFails in env.faults || !admitted then Unchanged(st, dep, claims, false)
    else HandleAdmitted(s, st, dep, name, now, env)
  }

  /** An admitted workspace is Starting before any child is created. */
  function HandleAdmitted(s: StorageOutcome, st: Status, dep: Option<Deployment>, name: Name, now: int, env: Env): Handled {
    var st := st.(phase := Starting, startDeadline := Some(now + env.app.startupTimeout), storage := s.st);
    if s.failed then Unchanged(st, dep, s.claims, true)
    else if s.refused then
      Unchanged(st.(phase := Pending, startDeadline := None), dep, s.claims, false)
    else CreateChildren(st, dep, s.claims, name, env)
  }

  /** Create the Deployment, or bring the existing one up to date. */
  function CreateChildren(st: Status, dep: Option<Deployment>, claims: seq<Claim>, name: Name, env: Env): Handled {
    if DeploymentCreateFails in env.faults then Unchanged(st, dep, claims, true)
    else if dep.None? then
      var created := RenderDeployment(env.app, name, st.scaledDown);
      Handled(st, Some(created), claims, ChildrenFail(env), false, created.replicas)
    else
      var d := EnsureDeployment(dep, name, env.app, 1, env.faults);
      Handled(st, d.dep, claims, d.failed || ChildrenFail(env), false, if d.synced then Some(1) else None)
  }

  predicate ChildrenFail(env: Env) { ServiceFails in env.faults || PolicyFails in env.faults }

  function FirstWaitingReason(containers: seq<Option<Waiting>>): Waiting {
    if containers == [] then NoReason
    else if containers[0].Some? then containers[0].value
    else FirstWaitingReason(containers[1..])
  }

  predicate VolumeConflict(pod: Pod) {
    pod.pending && pod.containers == [] && false in pod.conditions
  }

  function TransitionToReady(st: Status, name: Name, pods: seq<Pod>): Status {
    st.(phase := Ready, startDeadline := None, consecutiveFailures := 0,
        report := Report(NoReason, if pods != [] then pods[0].name else st.report.podRef, name),
        storage := st.storage.(pvcRef := name))
  }

  /** The two fields a recorded start failure writes. */
  function RecordFailure(st: Status, now: int, app: App): Status {
    var failures := st.consecutiveFailures + 1;
    st.(consecutiveFailures := failures,
        backoffUntil := Some(now + Backoff.StartBackoff(failures, app.backoffMax)))
  }

  function FailStarting(st: Status, dep: Option<Deployment>, claims: seq<Claim>, now: int, env: Env): Handled {
    var failed := st.(phase := Failed);
    if RecordFails in env.faults then Unchanged(failed, dep, claims, false)
    else Handled(RecordFailure(failed, now, env.app), dep, claims, false, true, None)
  }

  function HandleStarting(s: StorageOutcome, st: Status, dep: Option<Deployment>, name: Name,
                          now: int, env: Env): Handled {
    var st := st.(storage := s.st);
    if s.failed || s.refused then Unchanged(st, dep, s.claims, s.failed)
    else if PolicyFails in env.faults || PodListFails in env.faults || DeploymentGetFails in env.faults then
      Unchanged(st, dep, s.claims, true)
    else if dep.Some? && env.readyReplicas >= 1 then
      Unchanged(TransitionToReady(st, name, env.pods), dep, s.claims, false)
    else if dep.None? && st.backoffUntil.Some? then
      Unchanged(st.(phase := Failed), dep, s.claims, false)
    else
      HandleNotReady(st, dep, s.claims, now, env)
  }

  /** The rest of the Starting handler: the pod's waiting reason and the deadline. */
  function HandleNotReady(st: Status, dep: Option<Deployment>, claims: seq<Claim>, now: int, env: Env): Handled {
    var reason := WaitingReason(env.pods);
    if reason.CrashLoopBackOff? then FailStarting(st, dep, claims, now, env)
    else
      var waiting := if !reason.NoReason? then reason
                     else if env.pods != [] && VolumeConflict(env.pods[0]) then RWOPConflict
                     else st.report.waitingReason;
      var st := st.(report := st.report.(waitingReason := waiting));
      if st.startDeadline.Some? && now >= st.startDeadline.value
      then FailStarting(st, dep, claims, now, env)
      else Unchanged(st, dep, claims, false)
  }

  function WaitingReason(pods: seq<Pod>): Waiting {
    if pods == [] then NoReason else FirstWaitingReason(pods[0].containers)
  }

  function WakeUp(st: Status): Status {
    st.(wakeRequestedAt := None, scaledDown := false, phase := Pending)
  }

  function HandleReady(s: StorageOutcome, st: Status, dep: Option<Deployment>, name: Name, env: Env): Handled {
    var st := st.(storage := s.st);
    if s.failed || s.refused then Unchanged(st, dep, s.claims, s.failed)
    else if PolicyFails in env.faults then Unchanged(st, dep, s.claims, true)
    else if st.wakeRequestedAt.Some? then Unchanged(WakeUp(st), dep, s.claims, false)
    else if st.scaledDown then
      var d := EnsureDeployment(dep, name, env.app, 0, env.faults);
      var synced := if d.synced then Some(0) else None;
      if d.failed || PodListFails in env.faults then Handled(st, d.dep, s.claims, true, false, synced)
      else Handled(if env.pods == [] then st.(phase := Idle) else st, d.dep, s.claims, false, false, synced)
    else Unchanged(st, dep, s.claims, false)
  }

  function HandleIdle(s: StorageOutcome, st: Status, dep: Option<Deployment>, env: Env): Handled {
    var st := st.(storage := s.st);
    if s.failed || s.refused then Unchanged(st, dep, s.claims, s.failed)
    else if PolicyFails in env.faults then Unchanged(st, dep, s.claims, true)
    else Unchanged(if st.wakeRequestedAt.Some? then WakeUp(st) else st, dep, s.claims, false)
  }

  function HandleFailed(st: Status, dep: Option<Deployment>, claims: seq<Claim>, now: int): Handled {
    Unchanged(if st.backoffUntil.Some? && now > st.backoffUntil.value
              then st.(phase := Pending, backoffUntil := None) else st,
              dep, claims, false)
  }

  function Handle(st: Status, dep: Option<Deployment>, claims: seq<Claim>, name: Name,
                  admitted: bool, now: int, env: Env): Handled
    requires st.phase != Unset
  {
    var s := ReconcileStorage(st.storage, claims, name, env.app, env.faults);
    match st.phase
    case Pending => HandlePending(s, st, dep, claims, name, admitted, now, env)
    case Starting => HandleStarting(s, st, dep, name, now, env)
    case Ready => HandleReady(s, st, dep, name, env)
    case Idle => HandleIdle(s, st, dep, env)
    case Failed => HandleFailed(st, dep, claims, now)
  }

  /** The status in the store after the pass: the handler's when the final patch lands,
      otherwise the old one with whatever a recorded start failure already wrote. */
  function Persisted(before: Status, h: Handled, faults: set<Fault>): Status {
    if StatusPatchFails !in faults then h.st
    else if h.recorded then
      before.(consecutiveFailures := h.st.consecutiveFailures, backoffUntil := h.st.backoffUntil)
    else before
  }

  function PatchCount(before: Status, h: Handled, faults: set<Fault>): nat {
    (if h.recorded then 1 else 0) + (if StatusPatchFails !in faults && h.st != before then 1 else 0)
  }
}
