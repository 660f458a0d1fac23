/** The objects the operator keeps in the Kubernetes API: Workspaces with their
    status, the PerUserApp they belong to, and the per-user child objects.
    Times and durations are integers in nanoseconds; storage sizes are integers. */
module Api {

  datatype Option<+T> = None | Some(value: T)

  /** A Workspace and its Deployment, Service and claim share one name. */
  type Name = string

  const NANOS_PER_SECOND := 1_000_000_000

  datatype Phase = Unset | Pending | Starting | Ready | Idle | Failed

  /** One router replica's view of a Workspace's live connections. */
  datatype ConnectionEntry = ConnectionEntry(count: int, heartbeatAt: int)

  /** Why a container waits, as kubelet reports it, or the value the operator derives
      for a ReadWriteOncePod attach conflict; NoReason is the empty string. */
  datatype Waiting = NoReason | CrashLoopBackOff | RWOPConflict | OtherReason(text: string)

  /** The storage part of a status: the claim, the largest size it has been observed
      at, and whether each of the three storage conditions is set. */
  datatype StorageStatus = StorageStatus(
    pvcRef: string,
    largestObservedSize: Option<int>,
    specDrift: bool,
    shrinkRejected: bool,
    ambiguousVolume: bool)

  /** The part of a status only the routers write, apart from the wake request. */
  datatype Traffic = Traffic(
    lastActivity: Option<int>,
    connections: map<string, ConnectionEntry>,
    enqueuedAt: Option<int>)

  /** The part of a status that only reports. */
  datatype Report = Report(waitingReason: Waiting, podRef: string, serviceRef: string)

  datatype Status = Status(
    phase: Phase,
    scaledDown: bool,
    wakeRequestedAt: Option<int>,
    consecutiveFailures: int,
    backoffUntil: Option<int>,
    startDeadline: Option<int>,
    traffic: Traffic,
    report: Report,
    storage: StorageStatus)

  const EMPTY_STATUS :=
    Status(Unset, false, None, 0, None, None, Traffic(None, map[], None), Report(NoReason, "", ""),
           StorageStatus("", None, false, false, false))

  datatype Workspace = Workspace(
    name: Name,
    created: int,
    deleting: bool,
    finalizer: bool,
    status: Status)

  /** An object in the store, with the version its last write was given. */
  datatype Stored = Stored(version: nat, ws: Workspace)

  datatype Seed = Seed(stagingMountPath: string, from: string)

  datatype Reclaim = Reclaim(
    enabled: bool,
    targetWorkspaces: int,
    minIdleAge: int,
    interval: int,
    deleteVolumeData: bool)

  /** A PerUserApp. `template` stands for spec.workspace, which is only ever copied
      into the pod template; `migrated` is false while a MigrationComplete condition
      is present and not True. */
  datatype App = App(
    name: string,
    migrated: bool,
    template: string,
    size: int,
    storageClass: string,
    mountPath: string,
    seed: Option<Seed>,
    maxConcurrentStarts: int,
    startupTimeout: int,
    backoffMax: int,
    idleTimeout: int,
    reapInterval: int,
    heartbeatInterval: int,
    reclaim: Option<Reclaim>)

  datatype PodLabels = PodLabels(app: string, user: Name)

  /** The rendered pod template, reduced to the parts that vary. A seed stands for the
      init container that runs Shell.SeedScript on it. */
  datatype PodTemplate = PodTemplate(
    labels: PodLabels,
    workspace: string,
    claimName: string,
    mountPath: string,
    seed: Option<Seed>)

  /** The spec-hash annotation. SHA-256 over the marshalled spec, replicas removed,
      is taken to be collision free, so the digest is represented by its preimage. */
  datatype SpecHash = SpecHash(selector: PodLabels, template: PodTemplate)

  /** `rollouts` counts how often the template of this object has been rewritten. */
  datatype Deployment = Deployment(
    selector: PodLabels,
    template: PodTemplate,
    replicas: Option<int>,
    hash: Option<SpecHash>,
    rollouts: nat)

  /** A PersistentVolumeClaim; `readWriteOncePod` when that is its one access mode. */
  datatype Claim = Claim(
    name: string,
    request: int,
    bound: bool,
    capacity: Option<int>,
    storageClass: string,
    readWriteOncePod: bool)

  /** The parts of a pod the reconciler reads: each container status is the waiting
      reason when the container waits, each condition whether its status is True. */
  datatype Pod = Pod(
    name: string,
    pending: bool,
    containers: seq<Option<Waiting>>,
    conditions: seq<bool>)

  function Min(a: int, b: int): int { if a <= b then a else b }

  function Max(a: int, b: int): int { if a >= b then a else b }

  ghost predicate DistinctNames(list: seq<Workspace>) {
    forall i, j :: 0 <= i < j < |list| ==> list[i].name != list[j].name
  }
}
