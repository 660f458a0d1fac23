/** The protocol the operator's actors run over one shared store, for one app's fleet:
    the reconciler, the admitter, the reaper with its separate read and conditional
    write, the router replicas, the failover sweep, and the cluster around them. A run
    is any sequence of their actions. */
module Protocol {
  import opened Api
  import opened Reconciliation
  import Admission
  import Reaping

  // -------------------------------------------------------------------- store

  /** The API server's state. Versions are drawn from one counter, as etcd's are. */
  datatype Store = Store(
    nextVersion: nat,
    objs: map<Name, Stored>,
    deps: map<Name, Deployment>,
    claims: map<Name, seq<Claim>>)

  function DeploymentOf(s: Store, n: Name): Option<Deployment> {
    if n in s.deps then Some(s.deps[n]) else None
  }

  function ClaimsOf(s: Store, n: Name): seq<Claim> {
    if n in s.claims then s.claims[n] else []
  }

  function Put(s: Store, n: Name, ws: Workspace): Store {
    s.(nextVersion := s.nextVersion + 1, objs := s.objs[n := Stored(s.nextVersion, ws)])
  }

  function PutStatus(s: Store, n: Name, st: Status): Store
    requires n in s.objs
  {
    Put(s, n, s.objs[n].ws.(status := st))
  }

  /** A status write: a patch without a difference is not sent. */
  function WriteStatus(s: Store, n: Name, st: Status): Store
    requires n in s.objs
  {
    if st == s.objs[n].ws.status then s else PutStatus(s, n, st)
  }

  /** `order` names every workspace of the fleet once. */
  predicate Lists(order: seq<Name>, objs: map<Name, Stored>) {
    && (forall i, j :: 0 <= i < j < |order| ==> order[i] != order[j])
    && (forall i :: 0 <= i < |order| ==> order[i] in objs)
    && (forall n :: n in objs ==> n in order)
  }

  function Listed(order: seq<Name>, objs: map<Name, Stored>): (list: seq<Workspace>)
    requires forall i :: 0 <= i < |order| ==> order[i] in objs
    ensures |list| == |order|
    ensures forall i :: 0 <= i < |order| ==> list[i] == objs[order[i]].ws
  {
    if order == [] then []
    else Listed(order[..|order| - 1], objs) + [objs[order[|order| - 1]].ws]
  }

  predicate Admitted(s: Store, n: Name, now: int, app: App, order: seq<Name>)
    requires n in s.objs
  {
    Lists(order, s.objs) && Admission.Admits(Listed(order, s.objs), s.objs[n].ws, app, now)
  }

  /** One reconcile pass over the store, the phase handlers apart. */
  predicate Handles(s: Store, n: Name, env: Env) {
    && n in s.objs
    && GetFails !in env.faults && AppGetFails !in env.faults
    && !s.objs[n].ws.deleting && s.objs[n].ws.finalizer
    && s.objs[n].ws.status.phase != Unset
  }

  function PassOf(s: Store, n: Name, now: int, env: Env, order: seq<Name>): Handled
    requires Handles(s, n, env)
  {
    Handle(s.objs[n].ws.status, DeploymentOf(s, n), ClaimsOf(s, n), n,
           Admitted(s, n, now, env.app, order), now, env)
  }

  function Commit(s: Store, n: Name, h: Handled, faults: set<Fault>): Store
    requires n in s.objs
  {
    var ws := s.objs[n].ws;
    var writes := PatchCount(ws.status, h, faults);
    s.(nextVersion := s.nextVersion + writes,
       objs := if writes == 0 then s.objs
               else s.objs[n := Stored(s.nextVersion + writes - 1, ws.(status := Persisted(ws.status, h, faults)))],
       deps := if h.dep.Some? then s.deps[n := h.dep.value] else s.deps,
       claims := if h.claims == ClaimsOf(s, n) then s.claims else s.claims[n := h.claims])
  }

  /** The store after a pass whose phase handler, if it is reached, comes to h. */
  function ReconcileWith(s: Store, n: Name, env: Env, h: Handled): Store {
    if n !in s.objs || GetFails in env.faults then s
    else
      var ws := s.objs[n].ws;
      if ws.deleting then
        if ws.finalizer && UpdateFails !in env.faults then s.(objs := s.objs - {n}) else s
      else if !ws.finalizer then
        if UpdateFails in env.faults then s else Put(s, n, ws.(finalizer := true))
      else if ws.status.phase == Unset then
        if StatusPatchFails in env.faults then s else PutStatus(s, n, ws.status.(phase := Pending))
      else if AppGetFails in env.faults then s
      else Commit(s, n, h, env.faults)
  }

  /** The handler's outcome; a pass that reaches no handler has none to speak of. */
  function OutcomeOf(s: Store, n: Name, now: int, env: Env, order: seq<Name>): Handled {
    if Handles(s, n, env) then PassOf(s, n, now, env, order) else Unchanged(EMPTY_STATUS, None, [], false)
  }

  function ReconcileStore(s: Store, n: Name, now: int, env: Env, order: seq<Name>): Store {
    ReconcileWith(s, n, env, OutcomeOf(s, n, now, env, order))
  }

  // -------------------------------------------------------------------- world

  /** What a reaper pass that began at `passNow` read for one workspace. */
  datatype Snapshot = Snapshot(passNow: int, name: Name, version: nat, ws: Workspace)

  /** The store and the memories beside it. `conns` are the replicas' in-memory counts,
      keyed by pod and workspace, and `snaps` what reaper passes have read. `beats` and
      `synced` are history: when each replica last published the count it has to the
      present object, and what the Deployment was last created or ensured to be. */
  datatype World = World(
    now: int,
    store: Store,
    conns: map<(string, Name), int>,
    snaps: set<Snapshot>,
    beats: map<(string, Name), int>,
    synced: map<Name, (PodTemplate, int)>)

  /** A status write by an actor other than the reconciler and the reaper. */
  datatype Edit =
    | Sweep(app: App, leaderless: int)
    | Enqueue(at: int)
    | Wake(at: int)
    | Touch(at: int)

  datatype ConnEvent = Open | Close | Heartbeat

  datatype Action =
    | Tick(elapsed: nat)
    | CreateWorkspace(name: Name)
    | RequestDelete(name: Name)
    | Reconcile(name: Name, env: Env, order: seq<Name>)
    | EditStatus(name: Name, edit: Edit)
    | Connection(name: Name, pod: string, event: ConnEvent)
    | PublishFails(name: Name, pod: string, event: ConnEvent)
    | ReapRead(name: Name, passNow: int)
    | ScaleDown(name: Name, snap: Snapshot, app: App)
    | DeploymentGone(name: Name)
    | ClaimsChanged(name: Name, claims: seq<Claim>)

  function NewWorkspace(n: Name, now: int): Workspace { Workspace(n, now, false, false, EMPTY_STATUS) }

  /** Beats are about the object that is there: they end with the object. */
  function Surviving(beats: map<(string, Name), int>, s: Store): map<(string, Name), int> {
    map k | k in beats && k.1 in s.objs :: beats[k]
  }

  function ReconcileWorld(w: World, n: Name, env: Env, h: Handled): World {
    var store := ReconcileWith(w.store, n, env, h);
    w.(store := store,
       beats := Surviving(w.beats, store),
       synced := if Handles(w.store, n, env) && h.synced.Some?
                 then w.synced[n := (RenderTemplate(env.app, n), h.synced.value)] else w.synced)
  }

  /** The failover sweep's treatment of one workspace. */
  function SweepStatus(st: Status, dep: Option<Deployment>, app: App, now: int, leaderless: int): Status {
    if st.phase != Starting then st
    else if dep.None? then RecordFailure(st, now, app)
    else if st.startDeadline.None? then st
    else st.(startDeadline := Some(st.startDeadline.value + leaderless))
  }

  function StatusOf(w: World, n: Name): Status
    requires n in w.store.objs
  {
    w.store.objs[n].ws.status
  }

  function TouchStatus(st: Status, at: int): Status {
    if st.traffic.lastActivity.Some? && st.traffic.lastActivity.value >= at then st
    else st.(traffic := st.traffic.(lastActivity := Some(at)))
  }

  function Edited(st: Status, dep: Option<Deployment>, now: int, edit: Edit): Status {
    match edit
    case Sweep(app, leaderless) => SweepStatus(st, dep, app, now, leaderless)
    case Enqueue(at) => st.(traffic := st.traffic.(enqueuedAt := Some(at)))
    case Wake(at) => st.(wakeRequestedAt := Some(at))
    case Touch(at) => TouchStatus(st, at)
  }

  function PublishStatus(st: Status, pod: string, entry: ConnectionEntry): Status {
    st.(traffic := st.traffic.(connections := st.traffic.connections[pod := entry]))
  }

  /** A key that was never opened reads as zero. */
  function CountOf(w: World, k: (string, Name)): int { if k in w.conns then w.conns[k] else 0 }

  function NextCount(w: World, pod: string, n: Name, event: ConnEvent): int {
    var count := CountOf(w, (pod, n));
    match event
    case Open => count + 1
    case Close => Max(count - 1, 0)
    case Heartbeat => count
  }

  /** The reaper's conditional write goes through only on the version it read. */
  ghost predicate Lands(w: World, snap: Snapshot, app: App) {
    && snap in w.snaps
    && Reaping.IsReapable(snap.ws.status, app, snap.passNow)
    && snap.name in w.store.objs
    && w.store.objs[snap.name].version == snap.version
  }

  /** The status writes of the actors other than the reconciler. */
  ghost predicate WritesStatus(w: World, a: Action) {
    match a
    case EditStatus(n, _) => n in w.store.objs
    case Connection(n, pod, event) => n in w.store.objs && (event.Heartbeat? ==> (pod, n) in w.conns)
    case ScaleDown(n, snap, app) => n == snap.name && Lands(w, snap, app)
    case _ => false
  }

  ghost function NewStatus(w: World, a: Action): Status
    requires WritesStatus(w, a)
  {
    var st := StatusOf(w, a.name);
    match a
    case EditStatus(n, edit) => Edited(st, DeploymentOf(w.store, n), w.now, edit)
    case Connection(n, pod, event) => PublishStatus(st, pod, ConnectionEntry(NextCount(w, pod, n, event), w.now))
    case ScaleDown(_, snap, _) => snap.ws.status.(scaledDown := true)
  }

  ghost function NextStore(w: World, a: Action): Store {
    var s := w.store;
    if WritesStatus(w, a) then WriteStatus(s, a.name, NewStatus(w, a))
    else match a
      case CreateWorkspace(n) => if n in s.objs then s else Put(s, n, NewWorkspace(n, w.now))
      case RequestDelete(n) =>
        if n !in s.objs then s
        else if s.objs[n].ws.finalizer then Put(s, n, s.objs[n].ws.(deleting := true))
        else s.(objs := s.objs - {n})
      case DeploymentGone(n) => s.(deps := s.deps - {n})
      case ClaimsChanged(n, claims) => s.(claims := s.claims[n := claims])
      case _ => s
  }

  /** What a connection event leaves in memory; closing what was never opened counts
      nothing. */
  function Counted(w: World, pod: string, n: Name, event: ConnEvent): map<(string, Name), int> {
    if event.Heartbeat? || (event.Close? && (pod, n) !in w.conns) then w.conns
    else w.conns[(pod, n) := NextCount(w, pod, n, event)]
  }

  /** Opening and closing count in memory whether or not the publish goes through. */
  function NextConns(w: World, a: Action): map<(string, Name), int> {
    match a
    case Connection(n, pod, event) => Counted(w, pod, n, event)
    case PublishFails(n, pod, event) => Counted(w, pod, n, event)
    case _ => w.conns
  }

  /** A count that changed and was not published is not what the entry says; a heartbeat
      that fails leaves the earlier one standing. */
  ghost function NextBeats(w: World, a: Action): map<(string, Name), int> {
    if a.Connection? && WritesStatus(w, a) then w.beats[(a.pod, a.name) := w.now]
    else if a.PublishFails? && !a.event.Heartbeat? then Surviving(w.beats - {(a.pod, a.name)}, NextStore(w, a))
    else Surviving(w.beats, NextStore(w, a))
  }

  function NextSnaps(w: World, a: Action): set<Snapshot> {
    match a
    case ReapRead(n, passNow) =>
      if n !in w.store.objs || passNow > w.now then w.snaps
      else w.snaps + {Snapshot(passNow, n, w.store.objs[n].version, w.store.objs[n].ws)}
    case _ => w.snaps
  }

  /** An action of any actor but the reconciler. */
  ghost function ApplyOther(w: World, a: Action): World {
    World(if a.Tick? then w.now + a.elapsed else w.now,
          NextStore(w, a), NextConns(w, a), NextSnaps(w, a), NextBeats(w, a), w.synced)
  }

  ghost function Apply(w: World, a: Action): World {
    if a.Reconcile?
    then ReconcileWorld(w, a.name, a.env, OutcomeOf(w.store, a.name, w.now, a.env, a.order))
    else ApplyOther(w, a)
  }

  ghost function Run(w: World, actions: seq<Action>): World
    decreases |actions|
  {
    if actions == [] then w else Run(Apply(w, actions[0]), actions[1..])
  }

  /** An empty fleet; claims may already be there, as a migration leaves them. */
  ghost predicate Initial(w: World) {
    && w.store.objs == map[] && w.store.deps == map[]
    && w.conns == map[] && w.snaps == {} && w.beats == map[] && w.synced == map[]
  }
}
