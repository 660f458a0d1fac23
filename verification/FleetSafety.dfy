/** Safety over whole runs of the protocol: what holds in every reachable state, and what
    no step of any run can do. */
module FleetSafety {
  import opened Api
  import opened Reconciliation
  import opened PassFacts
  import opened Protocol
  import opened StepFacts
  import Admission
  import Ordering
  import Reaping

  // ------------------------------------------------- optimistic concurrency

  /** A version names one state of one object: whoever read the object at the version it
      still has, has read what is there. */
  ghost predicate VersionsInv(w: World) {
    && (forall n :: n in w.store.objs ==> w.store.objs[n].version < w.store.nextVersion)
    && (forall snap :: snap in w.snaps ==>
          && snap.version < w.store.nextVersion
          && snap.passNow <= w.now
          && (snap.name in w.store.objs && w.store.objs[snap.name].version == snap.version ==>
                w.store.objs[snap.name].ws == snap.ws))
  }

  lemma StepKeepsVersions(w: World, a: Action)
    requires VersionsInv(w)
    ensures VersionsInv(Apply(w, a))
  {
    ApplyEvolves(w, a);
    var w' := Apply(w, a);
    forall snap | snap in w'.snaps
      ensures snap.version < w'.store.nextVersion && snap.passNow <= w'.now
      ensures snap.name in w'.store.objs && w'.store.objs[snap.name].version == snap.version ==>
                w'.store.objs[snap.name].ws == snap.ws
    {
    }
  }

  /** A conditional write that goes through finds exactly the object the reaper judged. */
  lemma LandsOnWhatWasRead(w: World, snap: Snapshot, app: App)
    requires VersionsInv(w) && Lands(w, snap, app)
    ensures w.store.objs[snap.name].ws == snap.ws
    ensures Reaping.IsReapable(StatusOf(w, snap.name), app, snap.passNow)
    ensures StatusOf(Apply(w, ScaleDown(snap.name, snap, app)), snap.name) == StatusOf(w, snap.name).(scaledDown := true)
  {
  }

  /** Once any write has gone to a workspace, or it has been deleted, snapshots taken before
      can never land again, whatever happens in between. */
  lemma {:induction false} StaleSnapshotNeverLands(w: World, a: Action, rest: seq<Action>, snap: Snapshot, app: App)
    requires VersionsInv(w) && snap in w.snaps
    requires snap.name in w.store.objs
    requires snap.name in Apply(w, a).store.objs ==> Apply(w, a).store.objs[snap.name] != w.store.objs[snap.name]
    ensures var w' := Run(Apply(w, a), rest);
      !Lands(w', snap, app) && Apply(w', ScaleDown(snap.name, snap, app)).store == w'.store
  {
    ApplyEvolves(w, a);
    StepKeepsVersions(w, a);
    NewerStaysNewer(Apply(w, a), rest, snap);
  }

  ghost predicate Outdated(w: World, snap: Snapshot) {
    && snap.version < w.store.nextVersion
    && (snap.name in w.store.objs ==> w.store.objs[snap.name].version > snap.version)
  }

  lemma {:induction false} NewerStaysNewer(w: World, actions: seq<Action>, snap: Snapshot)
    requires Outdated(w, snap)
    ensures Outdated(Run(w, actions), snap)
    decreases |actions|
  {
    if actions != [] {
      ApplyEvolves(w, actions[0]);
      NewerStaysNewer(Apply(w, actions[0]), actions[1..], snap);
    }
  }

  // -------------------------------------------------------------- deployments

  /** Every Deployment is what it was last created or ensured to be. */
  ghost predicate SyncedInv(w: World) {
    forall n :: n in w.store.deps ==>
      && HashMatches(Some(w.store.deps[n]))
      && n in w.synced
      && w.store.deps[n].template == w.synced[n].0
      && w.store.deps[n].replicas == Some(w.synced[n].1)
  }

  lemma SyncedAt(w: World, a: Action, n: Name)
    requires SyncedInv(w) && n in Apply(w, a).store.deps
    ensures var w' := Apply(w, a);
      && HashMatches(Some(w'.store.deps[n]))
      && n in w'.synced
      && w'.store.deps[n].template == w'.synced[n].0
      && w'.store.deps[n].replicas == Some(w'.synced[n].1)
  {
    if a.Tick? || a.name != n {
      OthersKept(w, a, n);
    } else if a.Reconcile? {
      ReconciledDeployment(w, n, a.env, a.order);
    } else {
      OtherActorsKeepDeployment(w, a, n);
    }
  }

  /** What a pass leaves behind as the Deployment and its history. */
  lemma ReconciledDeployment(w: World, n: Name, env: Env, order: seq<Name>)
    requires SyncedInv(w)
    ensures var w' := Apply(w, Reconcile(n, env, order));
      var h := OutcomeOf(w.store, n, w.now, env, order);
      if Handles(w.store, n, env) && h.synced.Some? then
        && DeploymentOf(w'.store, n) == h.dep
        && w'.synced == w.synced[n := (RenderTemplate(env.app, n), h.synced.value)]
        && h.dep.Some? && HashMatches(h.dep)
        && h.dep.value.template == RenderTemplate(env.app, n) && h.dep.value.replicas == h.synced
      else
        DeploymentOf(w'.store, n) == DeploymentOf(w.store, n) && w'.synced == w.synced
  {
    hide OutcomeOf;
    var h := OutcomeOf(w.store, n, w.now, env, order);
    if Handles(w.store, n, env) {
      OutcomeMeetsTable(w, n, env, order);
      ReconcileAt(w, n, env, h);
    } else if n in w.store.objs {
      ReconcileAt(w, n, env, h);
    }
  }

  lemma OtherActorsKeepDeployment(w: World, a: Action, n: Name)
    requires !a.Reconcile?
    ensures n in Apply(w, a).store.deps ==> n in w.store.deps && Apply(w, a).store.deps[n] == w.store.deps[n]
    ensures Apply(w, a).synced == w.synced
  {
  }

  lemma StepKeepsSynced(w: World, a: Action)
    requires SyncedInv(w)
    ensures SyncedInv(Apply(w, a))
  {
    forall n | n in Apply(w, a).store.deps
      ensures && HashMatches(Some(Apply(w, a).store.deps[n]))
              && n in Apply(w, a).synced
              && Apply(w, a).store.deps[n].template == Apply(w, a).synced[n].0
              && Apply(w, a).store.deps[n].replicas == Some(Apply(w, a).synced[n].1)
    {
      SyncedAt(w, a, n);
    }
  }

  /** The two invariants no fault and no interleaving can break. */
  ghost predicate Inv(w: World) { VersionsInv(w) && SyncedInv(w) }

  lemma StepKeepsInv(w: World, a: Action)
    requires Inv(w)
    ensures Inv(Apply(w, a))
  {
    StepKeepsVersions(w, a);
    StepKeepsSynced(w, a);
  }

  // ------------------------------------------------------------------- phases

  /** The phase of every workspace agrees with its other fields and its Deployment, but
      for the torn ones. */
  ghost predicate PhasesInv(w: World, torn: set<Name>) {
    forall n :: n in w.store.objs && n !in torn ==> PhaseInv(StatusOf(w, n), DeploymentOf(w.store, n))
  }

  /** The action is a pass that tears. */
  ghost predicate TearsAt(w: World, a: Action) {
    && a.Reconcile? && Handles(w.store, a.name, a.env)
    && Tears(StatusOf(w, a.name), DeploymentOf(w.store, a.name), ClaimsOf(w.store, a.name), a.name, w.now, a.env)
  }

  lemma PhaseAt(w: World, a: Action, n: Name)
    requires Inv(w) && n in Apply(w, a).store.objs && !(TearsAt(w, a) && a.name == n)
    requires n in w.store.objs ==> PhaseInv(StatusOf(w, n), DeploymentOf(w.store, n))
    ensures PhaseInv(StatusOf(Apply(w, a), n), DeploymentOf(Apply(w, a).store, n))
  {
    if n !in w.store.objs {
      NewPhase(w, a, n);
    } else if a.Tick? || a.name != n {
      OthersKept(w, a, n);
    } else if a.Reconcile? {
      ReconciledPhase(w, n, a.env, a.order);
    } else {
      OtherActorsKeepPhase(w, a, n);
    }
  }

  lemma NewPhase(w: World, a: Action, n: Name)
    requires n !in w.store.objs && n in Apply(w, a).store.objs
    ensures PhaseInv(StatusOf(Apply(w, a), n), DeploymentOf(Apply(w, a).store, n))
  {
    hide OutcomeOf;
  }

  /** A pass keeps the phase invariant of its workspace if and only if it does not tear. */
  lemma ReconciledPhase(w: World, n: Name, env: Env, order: seq<Name>)
    requires Inv(w) && n in w.store.objs && PhaseInv(StatusOf(w, n), DeploymentOf(w.store, n))
    ensures var a := Reconcile(n, env, order);
      var w' := Apply(w, a);
      n in w'.store.objs ==>
        (PhaseInv(StatusOf(w', n), DeploymentOf(w'.store, n)) <==> !TearsAt(w, a))
    ensures TearsAt(w, Reconcile(n, env, order)) ==> n in Apply(w, Reconcile(n, env, order)).store.objs
  {
    hide PassOf;
    hide Tears;
    var h := OutcomeOf(w.store, n, w.now, env, order);
    if Handles(w.store, n, env) {
      OutcomeMeetsTable(w, n, env, order);
      OutcomeKeepsPhaseInv(w, n, env, order);
    }
    ReconcileAt(w, n, env, h);
  }

  lemma OutcomeKeepsPhaseInv(w: World, n: Name, env: Env, order: seq<Name>)
    requires Inv(w) && Handles(w.store, n, env) && PhaseInv(StatusOf(w, n), DeploymentOf(w.store, n))
    ensures var h := OutcomeOf(w.store, n, w.now, env, order);
      PhaseInv(Persisted(StatusOf(w, n), h, env.faults), h.dep) <==> !TearsAt(w, Reconcile(n, env, order))
  {
    hide Tears;
    PassKeepsPhaseInv(StatusOf(w, n), DeploymentOf(w.store, n), ClaimsOf(w.store, n), n,
                      Admitted(w.store, n, w.now, env.app, order), w.now, env);
  }

  lemma OtherActorsKeepPhase(w: World, a: Action, n: Name)
    requires VersionsInv(w) && !a.Reconcile? && n in w.store.objs && n in Apply(w, a).store.objs
    requires PhaseInv(StatusOf(w, n), DeploymentOf(w.store, n))
    ensures PhaseInv(StatusOf(Apply(w, a), n), DeploymentOf(Apply(w, a).store, n))
  {
    if WritesStatus(w, a) && a.name == n {
      WrittenPhase(w, a);
    }
  }

  /** The status writes of the routers, the sweep and the reaper. */
  lemma WrittenPhase(w: World, a: Action)
    requires VersionsInv(w) && WritesStatus(w, a) && PhaseInv(StatusOf(w, a.name), DeploymentOf(w.store, a.name))
    ensures PhaseInv(NewStatus(w, a), DeploymentOf(w.store, a.name))
  {
    if a.ScaleDown? {
      LandsOnWhatWasRead(w, a.snap, a.app);
    }
  }

  /** The workspaces on which a pass of the run tears. */
  ghost function TornIn(w: World, actions: seq<Action>): set<Name>
    decreases |actions|
  {
    if actions == [] then {}
    else TornBy(w, actions[0]) + TornIn(Apply(w, actions[0]), actions[1..])
  }

  ghost function TornBy(w: World, a: Action): set<Name> { if TearsAt(w, a) then {a.name} else {} }

  lemma StepKeepsPhases(w: World, a: Action, torn: set<Name>)
    requires Inv(w) && PhasesInv(w, torn)
    ensures PhasesInv(Apply(w, a), torn + TornBy(w, a))
  {
    hide Apply;
    hide TearsAt;
    forall n | n in Apply(w, a).store.objs && n !in torn + TornBy(w, a)
      ensures PhaseInv(StatusOf(Apply(w, a), n), DeploymentOf(Apply(w, a).store, n))
    {
      PhaseAt(w, a, n);
    }
  }

  lemma {:induction false} RunKeepsPhases(w: World, actions: seq<Action>, torn: set<Name>)
    requires Inv(w) && PhasesInv(w, torn)
    ensures Inv(Run(w, actions)) && PhasesInv(Run(w, actions), torn + TornIn(w, actions))
    decreases |actions|
  {
    hide Apply;
    hide TornBy;
    if actions != [] {
      var a, rest := actions[0], actions[1..];
      StepKeepsInv(w, a);
      StepKeepsPhases(w, a, torn);
      RunKeepsPhases(Apply(w, a), rest, torn + TornBy(w, a));
      assert torn + TornIn(w, actions) == torn + TornBy(w, a) + TornIn(Apply(w, a), rest);
    }
  }

  /** In every state any run reaches, for every workspace on which no pass of the run tore:
      Pending, Starting and Failed workspaces are not scaled down; an Idle one is, and its
      Deployment is gone or at zero; and a backoff is armed only on a Failed workspace, or
      a Starting one without a Deployment. */
  lemma EveryReachablePhase(w: World, actions: seq<Action>)
    requires Initial(w)
    ensures PhasesInv(Run(w, actions), TornIn(w, actions))
  {
    RunKeepsPhases(w, actions, {});
    assert {} + TornIn(w, actions) == TornIn(w, actions);
  }

  /** The two patches that record a start failure land together or not at all. */
  ghost predicate Atomic(actions: seq<Action>) {
    forall i :: 0 <= i < |actions| && actions[i].Reconcile? && StatusPatchFails in actions[i].env.faults ==>
      RecordFails in actions[i].env.faults
  }

  lemma {:induction false} AtomicNeverTears(w: World, actions: seq<Action>)
    requires Atomic(actions)
    ensures TornIn(w, actions) == {}
    decreases |actions|
  {
    hide Apply;
    hide FailsStart;
    if actions != [] {
      AtomicNeverTears(Apply(w, actions[0]), actions[1..]);
    }
  }

  // ------------------------------------------------------------- start slots

  /** The workspaces that are Starting without an armed backoff. */
  ghost function Occupants(objs: map<Name, Stored>): set<Name> {
    set n | n in objs && objs[n].ws.status.phase == Starting && objs[n].ws.status.backoffUntil.None?
  }

  ghost function OccupantsIn(order: seq<Name>, objs: map<Name, Stored>): set<Name> {
    set n | n in order && n in objs && Admission.Occupies(objs[n].ws.status)
  }

  lemma OccupantsInSnoc(front: seq<Name>, last: Name, objs: map<Name, Stored>)
    requires last in objs
    ensures OccupantsIn(front + [last], objs)
         == OccupantsIn(front, objs) + if Admission.Occupies(objs[last].ws.status) then {last} else {}
  {
    assert forall n :: n in front + [last] <==> n in front || n == last;
  }

  lemma {:induction false} OccupiedCounts(order: seq<Name>, objs: map<Name, Stored>)
    requires forall i, j :: 0 <= i < j < |order| ==> order[i] != order[j]
    requires forall i :: 0 <= i < |order| ==> order[i] in objs
    ensures Admission.Occupied(Listed(order, objs)) == |OccupantsIn(order, objs)|
  {
    if order != [] {
      var front, last := order[..|order| - 1], order[|order| - 1];
      assert order == front + [last];
      OccupiedCounts(front, objs);
      assert last !in OccupantsIn(front, objs);
      OccupantsInSnoc(front, last, objs);
      hide OccupantsIn;
      hide Admission.Occupied;
      assert Listed(order, objs) == Listed(front, objs) + [objs[last].ws];
      Admission.ListSnoc(Listed(front, objs), objs[last].ws);
    } else {
      assert OccupantsIn(order, objs) == {};
    }
  }

  /** The admission decision is taken with a free slot in hand. */
  lemma AdmittedHasFreeSlot(s: Store, n: Name, now: int, app: App, order: seq<Name>)
    requires n in s.objs && Admitted(s, n, now, app, order)
    ensures |Occupants(s.objs)| < app.maxConcurrentStarts
  {
    Admission.AdmitsNeedsSlot(Listed(order, s.objs), s.objs[n].ws, app, now);
    OccupiedCounts(order, s.objs);
    AllListed(order, s.objs);
  }

  lemma AllListed(order: seq<Name>, objs: map<Name, Stored>)
    requires Lists(order, objs)
    ensures OccupantsIn(order, objs) == Occupants(objs)
  {
  }

  /** The one way to become an occupant is an admission. */
  lemma NewOccupant(w: World, a: Action, n: Name)
    requires Inv(w) && n in Occupants(Apply(w, a).store.objs) && n !in Occupants(w.store.objs)
    ensures a.Reconcile? && a.name == n && n in w.store.objs && Admitted(w.store, n, w.now, a.env.app, a.order)
  {
    if a.Tick? || a.name != n {
      OthersKept(w, a, n);
    } else if a.Reconcile? {
      ReconciledOccupant(w, n, a.env, a.order);
    } else {
      OtherActorsAdmitNone(w, a, n);
    }
  }

  lemma ReconciledOccupant(w: World, n: Name, env: Env, order: seq<Name>)
    requires Inv(w) && n in Occupants(Apply(w, Reconcile(n, env, order)).store.objs)
    ensures n in Occupants(w.store.objs) || (n in w.store.objs && Admitted(w.store, n, w.now, env.app, order))
  {
    hide OutcomeOf;
    var h := OutcomeOf(w.store, n, w.now, env, order);
    if Handles(w.store, n, env) {
      OutcomeMeetsTable(w, n, env, order);
      ReconcileAt(w, n, env, h);
      OccupiesOnlyByAdmission(StatusOf(w, n), DeploymentOf(w.store, n), ClaimsOf(w.store, n), n,
                              Admitted(w.store, n, w.now, env.app, order), w.now, env, h);
    } else if n in w.store.objs {
      ReconcileAt(w, n, env, h);
    }
  }

  lemma OtherActorsAdmitNone(w: World, a: Action, n: Name)
    requires !a.Reconcile? && n in Occupants(Apply(w, a).store.objs)
    ensures n in Occupants(w.store.objs)
  {
  }

  ghost predicate FixedLimit(actions: seq<Action>, limit: nat) {
    forall i :: 0 <= i < |actions| && actions[i].Reconcile? ==> actions[i].env.app.maxConcurrentStarts == limit
  }

  lemma StepKeepsLimit(w: World, a: Action, limit: nat)
    requires Inv(w) && |Occupants(w.store.objs)| <= limit
    requires a.Reconcile? ==> a.env.app.maxConcurrentStarts == limit
    ensures |Occupants(Apply(w, a).store.objs)| <= limit
  {
    var before, after := Occupants(w.store.objs), Occupants(Apply(w, a).store.objs);
    if n :| n in after && n !in before {
      NewOccupant(w, a, n);
      AdmittedHasFreeSlot(w.store, n, w.now, a.env.app, a.order);
      forall m | m in after ensures m in before + {n} {
        if m !in before {
          NewOccupant(w, a, m);
        }
      }
      Ordering.SubsetSize(after, before + {n});
    } else {
      Ordering.SubsetSize(after, before);
    }
  }

  lemma {:induction false} RunKeepsLimit(w: World, actions: seq<Action>, limit: nat)
    requires Inv(w) && |Occupants(w.store.objs)| <= limit && FixedLimit(actions, limit)
    ensures |Occupants(Run(w, actions).store.objs)| <= limit
    decreases |actions|
  {
    if actions != [] {
      StepKeepsInv(w, actions[0]);
      StepKeepsLimit(w, actions[0], limit);
      RunKeepsLimit(Apply(w, actions[0]), actions[1..], limit);
    }
  }

  /** In every state of any run, with any faults, at most maxConcurrentStarts workspaces
      are Starting without an armed backoff. */
  lemma ConcurrencyBound(w: World, actions: seq<Action>, limit: nat)
    requires Initial(w) && FixedLimit(actions, limit)
    ensures |Occupants(Run(w, actions).store.objs)| <= limit
  {
    assert Occupants(w.store.objs) == {};
    RunKeepsLimit(w, actions, limit);
  }

  /** The Starting workspaces that really have a Deployment to start. */
  ghost function StartingPods(s: Store): set<Name> {
    set n | n in s.objs && s.objs[n].ws.status.phase == Starting && n in s.deps
  }

  /** In every state of any run the bound also holds for the workspaces that have a
      Deployment, armed or not, but for those on which a pass of the run tore; with start
      failures recorded atomically there are none. */
  lemma DeploymentBound(w: World, actions: seq<Action>, limit: nat)
    requires Initial(w) && FixedLimit(actions, limit)
    ensures |StartingPods(Run(w, actions).store)| <= limit + |TornIn(w, actions)|
    ensures Atomic(actions) ==> |StartingPods(Run(w, actions).store)| <= limit
  {
    hide TornIn;
    ConcurrencyBound(w, actions, limit);
    EveryReachablePhase(w, actions);
    var s, torn := Run(w, actions).store, TornIn(w, actions);
    forall n | n in StartingPods(s) && n !in torn ensures n in Occupants(s.objs) {
      assert PhaseInv(s.objs[n].ws.status, DeploymentOf(s, n));
    }
    Ordering.SubsetSize(StartingPods(s), Occupants(s.objs) + torn);
    if Atomic(actions) {
      AtomicNeverTears(w, actions);
    }
  }
}
