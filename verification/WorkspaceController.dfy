/** The API server as the controllers use it, and the workspace reconciler in the form
    it has: handlers that assign the fields of the workspace in hand, write children as
    they go, and one status patch at the end. */
module WorkspaceController {
  import opened Api
  import opened Reconciliation
  import opened Protocol
  import Admission
  import Backoff

  datatype UpdateAnswer = Written | Conflict | NotFound

  class ApiServer {
    var nextVersion: nat
    var objs: map<Name, Stored>
    var deps: map<Name, Deployment>
    var claims: map<Name, seq<Claim>>

    constructor ()
      ensures View() == Store(0, map[], map[], map[])
    {
      nextVersion, objs, deps, claims := 0, map[], map[], map[];
    }

    ghost function View(): Store
      reads this
    {
      Store(nextVersion, objs, deps, claims)
    }

    /** A merge patch of the whole status, as one step. */
    method PatchStatus(n: Name, st: Status)
      requires n in objs
      modifies this`nextVersion, this`objs
      ensures View() == PutStatus(old(View()), n, st)
    {
      objs := objs[n := Stored(nextVersion, objs[n].ws.(status := st))];
      nextVersion := nextVersion + 1;
    }

    /** A write that changes nothing is not stored. */
    method ChangeStatus(n: Name, st: Status)
      requires n in objs
      modifies this`nextVersion, this`objs
      ensures View() == WriteStatus(old(View()), n, st)
    {
      if st != objs[n].ws.status {
        PatchStatus(n, st);
      }
    }

    /** A status update that is refused unless the version is still the one read. */
    method UpdateStatus(n: Name, version: nat, st: Status) returns (answer: UpdateAnswer)
      modifies this`nextVersion, this`objs
      ensures answer == if n !in old(objs) then NotFound else if old(objs[n].version) != version then Conflict else Written
      ensures View() == if answer == Written then WriteStatus(old(View()), n, st) else old(View())
    {
      if n !in objs {
        return NotFound;
      }
      if objs[n].version != version {
        return Conflict;
      }
      ChangeStatus(n, st);
      return Written;
    }
  }

  /** The copy of a workspace a pass works on. */
  class WorkspaceObject {
    const name: Name
    var status: Status

    constructor (name: Name, status: Status)
      ensures this.name == name && this.status == status
    {
      this.name := name;
      this.status := status;
    }
  }

  class WorkspaceReconciler {
    const api: ApiServer

    constructor (api: ApiServer)
      ensures this.api == api
    {
      this.api := api;
    }

    /** Nothing but the child objects named n has changed, and they are dep and claims. */
    twostate predicate ChildrenAre(n: Name, dep: Option<Deployment>, claims: seq<Claim>)
      reads api
    {
      && DeploymentOf(api.View(), n) == dep
      && ClaimsOf(api.View(), n) == claims
      && api.deps == (if dep.Some? then old(api.deps)[n := dep.value] else old(api.deps))
      && api.claims == (if claims == ClaimsOf(old(api.View()), n) then old(api.claims) else old(api.claims)[n := claims])
    }

    method RaiseLargestObserved(ws: WorkspaceObject, candidate: int)
      modifies ws
      ensures ws.status == old(ws.status).(storage := RaiseLargest(old(ws.status.storage), candidate))
    {
      var largest := ws.status.storage.largestObservedSize;
      if largest.None? || candidate > largest.value {
        ws.status := ws.status.(storage := ws.status.storage.(largestObservedSize := Some(candidate)));
      }
    }

    method ReconcileExistingClaim(ws: WorkspaceObject, app: App, faults: set<Fault>) returns (refused: bool, failed: bool)
      requires |ClaimsOf(api.View(), ws.name)| == 1
      modifies ws, api`claims
      ensures var o := ExistingClaim(old(ws.status.storage), ClaimsOf(old(api.View()), ws.name)[0], app, faults);
        && ws.status == old(ws.status).(storage := o.st)
        && refused == o.refused && failed == o.failed
        && ChildrenAre(ws.name, DeploymentOf(old(api.View()), ws.name), o.claims)
    {
      var existing := api.claims[ws.name][0];
      assert api.claims[ws.name] == [existing];
      ws.status := ws.status.(storage := ws.status.storage.(pvcRef := existing.name));
      if app.size > existing.request {
        if existing.bound {
          if ClaimPatchFails in faults {
            return true, true;
          }
          existing := existing.(request := app.size);
          api.claims := api.claims[ws.name := [existing]];
          RaiseLargestObserved(ws, app.size);
          ws.status := ws.status.(storage := ws.status.storage.(specDrift := false));
        }
      } else if app.size == existing.request {
        var mismatch := existing.storageClass != app.storageClass || !existing.readWriteOncePod;
        ws.status := ws.status.(storage := ws.status.storage.(specDrift := mismatch));
      } else {
        ws.status := ws.status.(storage := ws.status.storage.(specDrift := true));
      }
      if existing.bound {
        var capacity := if existing.capacity.Some? then existing.capacity.value else existing.request;
        RaiseLargestObserved(ws, capacity);
      }
      return false, false;
    }

    /** No claim is there: create it, taking one that meanwhile has the name for ours. */
    method CreateClaim(ws: WorkspaceObject, app: App, faults: set<Fault>) returns (failed: bool)
      requires ClaimsOf(api.View(), ws.name) == []
      modifies ws, api`claims
      ensures failed == (ClaimCreateFails in faults)
      ensures failed ==> ws.status == old(ws.status) && api.claims == old(api.claims)
      ensures !failed ==>
        && ws.status == old(ws.status).(storage := RaiseLargest(old(ws.status.storage).(pvcRef := ws.name), app.size).(specDrift := false))
        && ChildrenAre(ws.name, DeploymentOf(old(api.View()), ws.name),
                       if ClaimNameTaken in faults then [] else [RenderClaim(app, ws.name)])
    {
      if ClaimCreateFails in faults {
        return true;
      }
      if ClaimNameTaken !in faults {
        api.claims := api.claims[ws.name := [RenderClaim(app, ws.name)]];
      }
      ws.status := ws.status.(storage := ws.status.storage.(pvcRef := ws.name));
      RaiseLargestObserved(ws, app.size);
      ws.status := ws.status.(storage := ws.status.storage.(specDrift := false));
      return false;
    }

    /** Without a size to protect, what is there decides: nothing, one claim or several. */
    method AdoptOrCreateClaim(ws: WorkspaceObject, app: App, faults: set<Fault>) returns (refused: bool, failed: bool)
      modifies ws, api`claims
      ensures var o := ClaimStep(old(ws.status.storage), ClaimsOf(old(api.View()), ws.name), ws.name, app, faults);
        && ws.status == old(ws.status).(storage := o.st)
        && refused == o.refused && failed == o.failed
        && ChildrenAre(ws.name, DeploymentOf(old(api.View()), ws.name), o.claims)
    {
      hide ExistingClaim;
      hide RaiseLargest;
      hide RenderClaim;
      if ClaimListFails in faults {
        return true, true;
      }
      var claims := if ws.name in api.claims then api.claims[ws.name] else [];
      if |claims| == 0 {
        ws.status := ws.status.(storage := ws.status.storage.(ambiguousVolume := false));
        failed := CreateClaim(ws, app, faults);
        refused := failed;
      } else if |claims| == 1 {
        ws.status := ws.status.(storage := ws.status.storage.(ambiguousVolume := false));
        refused, failed := ReconcileExistingClaim(ws, app, faults);
      } else {
        ws.status := ws.status.(storage := ws.status.storage.(ambiguousVolume := true));
        return true, false;
      }
    }

    /** Create the claim if there is none, grow it if the app grew, and refuse a shrink or
        an ambiguous volume. */
    method ReconcilePVC(ws: WorkspaceObject, app: App, faults: set<Fault>) returns (refused: bool, failed: bool)
      modifies ws, api`claims
      ensures var o := ReconcileStorage(old(ws.status.storage), ClaimsOf(old(api.View()), ws.name), ws.name, app, faults);
        && ws.status == old(ws.status).(storage := o.st)
        && refused == o.refused && failed == o.failed
        && ChildrenAre(ws.name, DeploymentOf(old(api.View()), ws.name), o.claims)
    {
      hide ClaimStep;
      var largest := ws.status.storage.largestObservedSize;
      if largest.Some? && app.size < largest.value {
        ws.status := ws.status.(storage := ws.status.storage.(shrinkRejected := true));
        return true, false;
      }
      ws.status := ws.status.(storage := ws.status.storage.(shrinkRejected := false));
      refused, failed := AdoptOrCreateClaim(ws, app, faults);
    }

    /** Bring an existing Deployment to the current render and the wanted replicas,
        writing only when one of them differs. */
    method EnsureDeployment(name: Name, app: App, want: int, faults: set<Fault>) returns (failed: bool, ghost synced: bool)
      modifies api`deps
      ensures var o := Reconciliation.EnsureDeployment(DeploymentOf(old(api.View()), name), name, app, want, faults);
        && failed == o.failed && synced == o.synced
        && ChildrenAre(name, o.dep, ClaimsOf(old(api.View()), name))
        && (o.writes == 0 ==> api.deps == old(api.deps))
    {
      if DeploymentGetFails in faults {
        return true, false;
      }
      if name !in api.deps {
        return false, false;
      }
      var dep := api.deps[name];
      var hash := RenderHash(app, name);
      var stale := dep.hash != Some(hash);
      var scaled := dep.replicas != Some(want);
      if !stale && !scaled {
        return false, true;
      }
      if DeploymentPatchFails in faults {
        return true, false;
      }
      if stale {
        dep := dep.(template := RenderTemplate(app, name), hash := Some(hash), rollouts := dep.rollouts + 1);
      }
      dep := dep.(replicas := Some(want));
      api.deps := api.deps[name := dep];
      return false, true;
    }

    /** Record a start failure: one patch of the two fields it owns, copied back onto the
        workspace in hand, whose phase change it neither sees nor undoes. */
    method RecordStartFailure(ws: WorkspaceObject, app: App, now: int, faults: set<Fault>) returns (failed: bool)
      requires ws.name in api.objs && Backoff.IsInt64(app.backoffMax)
      modifies ws, api`objs, api`nextVersion
      ensures failed == (RecordFails in faults)
      ensures failed ==> ws.status == old(ws.status) && api.View() == old(api.View())
      ensures !failed ==>
        && ws.status == RecordFailure(old(ws.status), now, app)
        && api.View() == PutStatus(old(api.View()), ws.name,
             old(api.objs[ws.name].ws.status).(consecutiveFailures := ws.status.consecutiveFailures, backoffUntil := ws.status.backoffUntil))
    {
      if RecordFails in faults {
        return true;
      }
      var failures := ws.status.consecutiveFailures + 1;
      var delay := Backoff.BackoffDuration(failures, app.backoffMax);
      var until := Some(now + delay);
      var stored := api.objs[ws.name].ws.status;
      api.PatchStatus(ws.name, stored.(consecutiveFailures := failures, backoffUntil := until));
      ws.status := ws.status.(consecutiveFailures := failures, backoffUntil := until);
      return false;
    }

    /** The store while a pass over n is under way: what a recorded failure wrote is
        there, the rest of the status is not yet. */
    ghost function MidPass(s: Store, n: Name, h: Handled): Store
      requires n in s.objs
    {
      if h.recorded then
        PutStatus(s, n, s.objs[n].ws.status.(consecutiveFailures := h.st.consecutiveFailures, backoffUntil := h.st.backoffUntil))
      else s
    }

    /** A handler came to h: the workspace in hand, its children and what was recorded. */
    twostate predicate CameTo(ws: WorkspaceObject, failed: bool, h: Handled)
      requires old(ws.name in api.objs)
      reads ws, api
    {
      && ws.status == h.st && failed == h.failed
      && ChildrenAre(ws.name, h.dep, h.claims)
      && api.objs == MidPass(old(api.View()), ws.name, h).objs
      && api.nextVersion == MidPass(old(api.View()), ws.name, h).nextVersion
    }

    ghost function StorageStep(ws: WorkspaceObject, env: Env): StorageOutcome
      reads ws, api
    {
      ReconcileStorage(ws.status.storage, ClaimsOf(api.View(), ws.name), ws.name, env.app, env.faults)
    }

    /** Create the Deployment, or bring the one already there up to date. */
    method EnsureChildren(ws: WorkspaceObject, env: Env) returns (failed: bool)
      requires ws.name in api.objs
      modifies api`deps
      ensures CameTo(ws, failed,
        CreateChildren(ws.status, DeploymentOf(old(api.View()), ws.name), ClaimsOf(old(api.View()), ws.name), ws.name, env))
    {
      if DeploymentCreateFails in env.faults {
        return true;
      }
      if ws.name !in api.deps {
        api.deps := api.deps[ws.name := RenderDeployment(env.app, ws.name, ws.status.scaledDown)];
      } else {
        var ensureFailed, synced := EnsureDeployment(ws.name, env.app, 1, env.faults);
        if ensureFailed {
          return true;
        }
      }
      return ServiceFails in env.faults || PolicyFails in env.faults;
    }

    /** Once admitted, a workspace is Starting before any child is created. */
    method Start(ws: WorkspaceObject, env: Env, now: int) returns (failed: bool)
      requires ws.name in api.objs
      modifies ws, api`deps, api`claims
      ensures CameTo(ws, failed,
        HandleAdmitted(old(StorageStep(ws, env)), old(ws.status), DeploymentOf(old(api.View()), ws.name), ws.name, now, env))
    {
      hide ReconcileStorage;
      hide CreateChildren;
      ws.status := ws.status.(phase := Starting, startDeadline := Some(now + env.app.startupTimeout));
      var refused, storageFailed := ReconcilePVC(ws, env.app, env.faults);
      if storageFailed {
        return true;
      } else if refused {
        ws.status := ws.status.(phase := Pending, startDeadline := None);
        return false;
      }
      failed := EnsureChildren(ws, env);
    }

    method ReconcilePending(ws: WorkspaceObject, env: Env, now: int, order: seq<Name>) returns (failed: bool)
      requires ws.name in api.objs && Lists(order, api.objs)
      modifies ws, api`deps, api`claims
      ensures CameTo(ws, failed,
        HandlePending(old(StorageStep(ws, env)), old(ws.status), DeploymentOf(old(api.View()), ws.name), ClaimsOf(old(api.View()), ws.name),
                      ws.name, Admission.Admits(Listed(order, old(api.objs)), old(api.objs[ws.name].ws), env.app, now), now, env))
    {
      hide ReconcileStorage;
      hide HandleAdmitted;
      hide Admission.Admits;
      if AdmitListFails in env.faults {
        return Admission.Considered(ws.status, env.app, now);
      }
      var admitted := Admission.TryAdmit(Listed(order, api.objs), api.objs[ws.name].ws, env.app, now);
      if !admitted {
        return false;
      }
      failed := Start(ws, env, now);
    }

    method FailStarting(ws: WorkspaceObject, env: Env, now: int)
      requires ws.name in api.objs && Backoff.IsInt64(env.app.backoffMax)
      modifies ws, api`objs, api`nextVersion
      ensures CameTo(ws, false, Reconciliation.FailStarting(old(ws.status), DeploymentOf(old(api.View()), ws.name), ClaimsOf(old(api.View()), ws.name), now, env))
    {
      ws.status := ws.status.(phase := Failed);
      var failed := RecordStartFailure(ws, env.app, now, env.faults);
    }

    /** The rest of the Starting handler: the pod's waiting reason and the deadline. */
    method CheckProgress(ws: WorkspaceObject, env: Env, now: int)
      requires ws.name in api.objs && Backoff.IsInt64(env.app.backoffMax)
      modifies ws, api`objs, api`nextVersion
      ensures CameTo(ws, false,
        HandleNotReady(old(ws.status), DeploymentOf(old(api.View()), ws.name), ClaimsOf(old(api.View()), ws.name), now, env))
    {
      hide Reconciliation.FailStarting;
      if env.pods != [] {
        var reason := FirstWaitingReason(env.pods[0].containers);
        if reason.CrashLoopBackOff? {
          FailStarting(ws, env, now);
          return;
        } else if !reason.NoReason? {
          ws.status := ws.status.(report := ws.status.report.(waitingReason := reason));
        } else if VolumeConflict(env.pods[0]) {
          ws.status := ws.status.(report := ws.status.report.(waitingReason := RWOPConflict));
        }
      }
      if ws.status.startDeadline.Some? && now >= ws.status.startDeadline.value {
        FailStarting(ws, env, now);
      }
    }

    method ReconcileStarting(ws: WorkspaceObject, env: Env, now: int) returns (failed: bool)
      requires ws.name in api.objs && Backoff.IsInt64(env.app.backoffMax)
      modifies ws, api
      ensures CameTo(ws, failed,
        HandleStarting(old(StorageStep(ws, env)), old(ws.status), DeploymentOf(old(api.View()), ws.name), ws.name, now, env))
    {
      hide ReconcileStorage;
      hide HandleNotReady;
      hide TransitionToReady;
      var refused, storageFailed := ReconcilePVC(ws, env.app, env.faults);
      if storageFailed {
        return true;
      } else if refused {
        return false;
      }
      if PolicyFails in env.faults || PodListFails in env.faults || DeploymentGetFails in env.faults {
        return true;
      }
      if ws.name in api.deps {
        if env.readyReplicas >= 1 {
          ws.status := TransitionToReady(ws.status, ws.name, env.pods);
          return false;
        }
      } else if ws.status.backoffUntil.Some? {
        ws.status := ws.status.(phase := Failed);
        return false;
      }
      CheckProgress(ws, env, now);
      return false;
    }

    method ReconcileReady(ws: WorkspaceObject, env: Env) returns (failed: bool)
      requires ws.name in api.objs
      modifies ws, api`deps, api`claims
      ensures CameTo(ws, failed,
        HandleReady(old(StorageStep(ws, env)), old(ws.status), DeploymentOf(old(api.View()), ws.name), ws.name, env))
    {
      var refused, storageFailed := ReconcilePVC(ws, env.app, env.faults);
      if storageFailed {
        return true;
      } else if refused {
        return false;
      }
      if PolicyFails in env.faults {
        return true;
      }
      if ws.status.wakeRequestedAt.Some? {
        ws.status := ws.status.(wakeRequestedAt := None, scaledDown := false, phase := Pending);
        return false;
      }
      if ws.status.scaledDown {
        var ensureFailed, synced := EnsureDeployment(ws.name, env.app, 0, env.faults);
        if ensureFailed {
          return true;
        }
        if PodListFails in env.faults {
          return true;
        }
        if |env.pods| == 0 {
          ws.status := ws.status.(phase := Idle);
        }
      }
      return false;
    }

    method ReconcileIdle(ws: WorkspaceObject, env: Env) returns (failed: bool)
      requires ws.name in api.objs
      modifies ws, api`claims
      ensures CameTo(ws, failed,
        HandleIdle(old(StorageStep(ws, env)), old(ws.status), DeploymentOf(old(api.View()), ws.name), env))
    {
      var refused, storageFailed := ReconcilePVC(ws, env.app, env.faults);
      if storageFailed {
        return true;
      } else if refused {
        return false;
      }
      if PolicyFails in env.faults {
        return true;
      }
      if ws.status.wakeRequestedAt.Some? {
        ws.status := ws.status.(wakeRequestedAt := None, scaledDown := false, phase := Pending);
      }
      return false;
    }

    method ReconcileFailed(ws: WorkspaceObject, now: int)
      requires ws.name in api.objs
      modifies ws
      ensures CameTo(ws, false,
        HandleFailed(old(ws.status), DeploymentOf(old(api.View()), ws.name), ClaimsOf(old(api.View()), ws.name), now))
    {
      if ws.status.backoffUntil.Some? && now > ws.status.backoffUntil.value {
        ws.status := ws.status.(phase := Pending, backoffUntil := None);
      }
    }

    /** The phase switch. */
    method Dispatch(ws: WorkspaceObject, env: Env, now: int, order: seq<Name>) returns (failed: bool)
      requires Handles(api.View(), ws.name, env) && Lists(order, api.objs) && Backoff.IsInt64(env.app.backoffMax)
      requires ws.status == api.objs[ws.name].ws.status
      modifies ws, api
      ensures CameTo(ws, failed, PassOf(old(api.View()), ws.name, now, env, order))
    {
      hide ReconcileStorage;
      hide HandlePending;
      hide HandleStarting;
      hide HandleReady;
      hide HandleIdle;
      hide HandleFailed;
      hide Admission.Admits;
      match ws.status.phase {
        case Pending => failed := ReconcilePending(ws, env, now, order);
        case Starting => failed := ReconcileStarting(ws, env, now);
        case Ready => failed := ReconcileReady(ws, env);
        case Idle => failed := ReconcileIdle(ws, env);
        case Failed =>
          ReconcileFailed(ws, now);
          failed := false;
      }
    }

    /** The handler and the one patch at the end, which is sent even when the handler
        failed. */
    method RunHandler(n: Name, env: Env, now: int, order: seq<Name>) returns (failed: bool)
      requires Handles(api.View(), n, env) && Lists(order, api.objs) && Backoff.IsInt64(env.app.backoffMax)
      modifies api
      ensures var h := PassOf(old(api.View()), n, now, env, order);
        && api.View() == Commit(old(api.View()), n, h, env.faults)
        && (failed <==> h.failed || (StatusPatchFails in env.faults && h.st != old(api.objs[n].ws.status)))
    {
      hide PassOf;
      var ws := new WorkspaceObject(n, api.objs[n].ws.status);
      var base := ws.status;
      failed := Dispatch(ws, env, now, order);
      if ws.status != base {
        if StatusPatchFails in env.faults {
          failed := true;
        } else {
          api.PatchStatus(n, ws.status);
        }
      }
    }

    /** One reconcile pass does to the store exactly what the protocol's reconcile step
        says it does. */
    method Reconcile(n: Name, env: Env, now: int, order: seq<Name>)
      requires Lists(order, api.objs) && Backoff.IsInt64(env.app.backoffMax)
      modifies api
      ensures api.View() == ReconcileStore(old(api.View()), n, now, env, order)
    {
      if n !in api.objs || GetFails in env.faults {
        return;
      }
      var ws := api.objs[n].ws;
      if ws.deleting {
        if ws.finalizer && UpdateFails !in env.faults {
          api.objs := api.objs - {n};
        }
        return;
      }
      if !ws.finalizer {
        if UpdateFails !in env.faults {
          api.objs := api.objs[n := Stored(api.nextVersion, ws.(finalizer := true))];
          api.nextVersion := api.nextVersion + 1;
        }
        return;
      }
      if ws.status.phase == Unset {
        if StatusPatchFails !in env.faults {
          api.PatchStatus(n, ws.status.(phase := Pending));
        }
        return;
      }
      if AppGetFails in env.faults {
        return;
      }
      var failed := RunHandler(n, env, now, order);
    }
  }
}
