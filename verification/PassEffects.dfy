/** What a pass does do, told by the fields it reads and writes: under which conditions each
    phase is left, and what becomes of the Deployment, the claim and the report. */
module PassEffects {
  import opened Api
  import opened Reconciliation
  import opened PassFacts
  import opened Protocol
  import Backoff

  // ------------------------------------------------------------------- storage

  predicate TooSmall(st: StorageStatus, app: App) {
    st.largestObservedSize.Some? && app.size < st.largestObservedSize.value
  }

  /** The app is no smaller than the volume has been, there is one claim at most, and the
      one call that may be needed on it succeeds. */
  predicate StorageSettled(st: StorageStatus, claims: seq<Claim>, app: App, faults: set<Fault>) {
    && !TooSmall(st, app) && ClaimListFails !in faults && |claims| <= 1
    && (|claims| == 0 ==> ClaimCreateFails !in faults)
    && (|claims| == 1 && claims[0].bound && claims[0].request < app.size ==> ClaimPatchFails !in faults)
  }

  /** The app is no smaller than the volume has been, and a call on the claims fails. */
  predicate StorageErrs(st: StorageStatus, claims: seq<Claim>, app: App, faults: set<Fault>) {
    && !TooSmall(st, app)
    && (|| ClaimListFails in faults
        || (|claims| == 0 && ClaimCreateFails in faults)
        || (|claims| == 1 && claims[0].bound && claims[0].request < app.size && ClaimPatchFails in faults))
  }

  /** Storage lets a pass go on exactly when it is settled, and is an error exactly when a
      call fails; a shrink and an ambiguous volume are refused without one, and say so. */
  lemma StorageDecides(st: StorageStatus, claims: seq<Claim>, name: Name, app: App, faults: set<Fault>)
    ensures var s := ReconcileStorage(st, claims, name, app, faults);
      && (!s.failed && !s.refused <==> StorageSettled(st, claims, app, faults))
      && (s.failed <==> StorageErrs(st, claims, app, faults))
      && (s.st.shrinkRejected <==> TooSmall(st, app))
      && (!TooSmall(st, app) && ClaimListFails !in faults ==> (s.st.ambiguousVolume <==> |claims| > 1))
      && (s.failed || s.refused ==> s.claims == claims && s.st.largestObservedSize == st.largestObservedSize)
  {
  }

  function AtLeast(size: Option<int>, floor: int): Option<int> {
    if size.Some? && size.value >= floor then size else Some(floor)
  }

  /** Without a claim, one of the app's size, class and name is created, unless its name is
      taken; and its size is on record. */
  lemma ClaimIsCreated(st: StorageStatus, name: Name, app: App, faults: set<Fault>)
    requires StorageSettled(st, [], app, faults)
    ensures var s := ReconcileStorage(st, [], name, app, faults);
      && s.claims == (if ClaimNameTaken in faults then [] else [Claim(name, app.size, false, None, app.storageClass, true)])
      && s.st.pvcRef == name && s.st.largestObservedSize == AtLeast(st.largestObservedSize, app.size) && !s.st.specDrift
  {
  }

  /** A claim that is there grows to the app's size if it is bound and smaller, and is
      otherwise left alone. The size on record covers what a bound claim has, and drift is
      reported when the claim is larger than the app or of another class or mode. */
  lemma ClaimGrows(st: StorageStatus, c: Claim, name: Name, app: App, faults: set<Fault>)
    requires StorageSettled(st, [c], app, faults)
    ensures var s := ReconcileStorage(st, [c], name, app, faults);
      var grows := c.bound && c.request < app.size;
      && s.claims == [if grows then c.(request := app.size) else c]
      && s.st.pvcRef == c.name
      && (!c.bound ==> s.st.largestObservedSize == st.largestObservedSize)
      && (c.bound && !grows ==>
            s.st.largestObservedSize == AtLeast(st.largestObservedSize, if c.capacity.Some? then c.capacity.value else c.request))
      && (grows ==>
            s.st.largestObservedSize
              == AtLeast(AtLeast(st.largestObservedSize, app.size), if c.capacity.Some? then c.capacity.value else app.size))
      && (app.size <= c.request ==>
            (s.st.specDrift <==> app.size < c.request || c.storageClass != app.storageClass || !c.readWriteOncePod))
      && (grows ==> !s.st.specDrift)
      && (!c.bound && c.request < app.size ==> s.st.specDrift == st.specDrift)
  {
  }

  // ----------------------------------------------------------------- rendering

  /** What is rendered fits together: the Deployment selects the pods it makes, of this app
      and user; they mount the claim that is made for them, at the app's path; and a
      Deployment that is made runs one pod, or none when scaled down. */
  lemma RenderFitsTogether(app: App, name: Name, scaledDown: bool)
    ensures var d := RenderDeployment(app, name, scaledDown);
      && d.selector == d.template.labels && d.template.labels.app == app.name && d.template.labels.user == name
      && d.template.claimName == RenderClaim(app, name).name && d.template.mountPath == app.mountPath
      && d.template.workspace == app.template && d.template.seed == app.seed
      && d.replicas == Some(if scaledDown then 0 else 1)
      && HashMatches(Some(d)) && d.hash.Some?
  {
  }

  /** The fingerprint tells any two renders apart. */
  lemma HashTellsRendersApart(app: App, other: App, name: Name)
    ensures RenderHash(app, name) == RenderHash(other, name) <==>
      && app.name == other.name && app.template == other.template
      && app.mountPath == other.mountPath && app.seed == other.seed
  {
  }

  predicate Rendered(d: Deployment, app: App, name: Name) {
    d.template == PodTemplate(PodLabels(app.name, name), app.template, name, app.mountPath, app.seed)
  }

  // ----------------------------------------------------------- the waiting reason

  /** The first container that waits does so for this reason. */
  predicate WaitsFor(containers: seq<Option<Waiting>>, reason: Waiting) {
    exists i :: 0 <= i < |containers| && containers[i] == Some(reason) && forall j :: 0 <= j < i ==> containers[j].None?
  }

  predicate NobodyWaits(containers: seq<Option<Waiting>>) { forall i :: 0 <= i < |containers| ==> containers[i].None? }

  lemma {:induction false} FirstWaitingIs(containers: seq<Option<Waiting>>)
    ensures NobodyWaits(containers) ==> FirstWaitingReason(containers).NoReason?
    ensures !NobodyWaits(containers) ==> WaitsFor(containers, FirstWaitingReason(containers))
  {
    if containers != [] && containers[0].None? {
      FirstWaitingIs(containers[1..]);
      if !NobodyWaits(containers[1..]) {
        var i :| 0 <= i < |containers[1..]| && containers[1..][i] == Some(FirstWaitingReason(containers))
              && forall j :: 0 <= j < i ==> containers[1..][j].None?;
        assert containers[i + 1] == Some(FirstWaitingReason(containers));
        assert forall j :: 0 <= j < i + 1 ==> containers[j].None? by {
          forall j | 0 <= j < i + 1 ensures containers[j].None? {
            assert j > 0 ==> containers[j] == containers[1..][j - 1];
          }
        }
      } else {
        forall i | 0 <= i < |containers| ensures containers[i].None? {
          assert i > 0 ==> containers[i] == containers[1..][i - 1];
        }
      }
    } else if containers != [] {
      assert containers[0] == Some(FirstWaitingReason(containers));
    }
  }

  lemma WaitsForOne(containers: seq<Option<Waiting>>, a: Waiting, b: Waiting)
    requires WaitsFor(containers, a) && WaitsFor(containers, b)
    ensures a == b
  {
  }

  /** The first pod's first waiting container waits in a crash loop. */
  predicate CrashLoops(pods: seq<Pod>) { pods != [] && WaitsFor(pods[0].containers, CrashLoopBackOff) }

  lemma CrashLoopsExactly(pods: seq<Pod>)
    ensures CrashLoops(pods) <==> WaitingReason(pods).CrashLoopBackOff?
  {
    if pods != [] {
      var containers := pods[0].containers;
      FirstWaitingIs(containers);
      if CrashLoops(pods) && !NobodyWaits(containers) {
        WaitsForOne(containers, CrashLoopBackOff, FirstWaitingReason(containers));
      }
    }
  }

  // ------------------------------------------------------------------- Pending

  /** An admitted workspace whose storage is settled, with no call failing that is made on
      its Deployment, is Starting with its deadline and with a current Deployment at one
      replica: made so, or brought to it. A newly made one is at none only where the
      workspace is scaled down, which no Pending one is. */
  lemma AdmittedStarts(st: Status, dep: Option<Deployment>, claims: seq<Claim>, name: Name, now: int, env: Env)
    requires st.phase == Pending && HashMatches(dep)
    requires AdmitListFails !in env.faults && StorageSettled(st.storage, claims, env.app, env.faults)
    requires DeploymentCreateFails !in env.faults
    requires dep.Some? ==> DeploymentGetFails !in env.faults && DeploymentPatchFails !in env.faults
    ensures var h := Handle(st, dep, claims, name, true, now, env);
      && h.st.phase == Starting && h.st.startDeadline == Some(now + env.app.startupTimeout)
      && h.dep.Some? && Rendered(h.dep.value, env.app, name)
      && h.dep.value.replicas == Some(if dep.None? && st.scaledDown then 0 else 1)
      && (dep.None? ==> h.dep.value.selector == PodLabels(env.app.name, name))
      && (h.failed <==> ServiceFails in env.faults || PolicyFails in env.faults)
      && !h.recorded
  {
    hide ReconcileStorage;
    StorageDecides(st.storage, claims, name, env.app, env.faults);
  }

  /** A Pending workspace becomes Starting if and only if it is admitted and its storage is
      not refused: when a storage call fails it is Starting nonetheless. */
  lemma PendingLeavesExactly(st: Status, dep: Option<Deployment>, claims: seq<Claim>, name: Name, admitted: bool, now: int, env: Env)
    requires st.phase == Pending
    ensures var h := Handle(st, dep, claims, name, admitted, now, env);
      && (h.st.phase == Pending || h.st.phase == Starting)
      && (h.st.phase == Starting <==>
            && admitted && AdmitListFails !in env.faults
            && (StorageSettled(st.storage, claims, env.app, env.faults) || StorageErrs(st.storage, claims, env.app, env.faults)))
      && (!admitted ==> h.st == st && h.dep == dep && h.claims == claims)
  {
    hide ReconcileStorage;
    hide CreateChildren;
    StorageDecides(st.storage, claims, name, env.app, env.faults);
    ChildrenKeepStatus(st.(phase := Starting, startDeadline := Some(now + env.app.startupTimeout),
                           storage := ReconcileStorage(st.storage, claims, name, env.app, env.faults).st),
                       dep, ReconcileStorage(st.storage, claims, name, env.app, env.faults).claims, name, env);
  }

  lemma ChildrenKeepStatus(st: Status, dep: Option<Deployment>, claims: seq<Claim>, name: Name, env: Env)
    ensures CreateChildren(st, dep, claims, name, env).st == st
  {
  }

  // ------------------------------------------------------------------ Starting

  predicate StartingGoesOn(st: Status, claims: seq<Claim>, env: Env) {
    && StorageSettled(st.storage, claims, env.app, env.faults)
    && PolicyFails !in env.faults && PodListFails !in env.faults && DeploymentGetFails !in env.faults
  }

  predicate HasReadyReplica(dep: Option<Deployment>, env: Env) { dep.Some? && env.readyReplicas > 0 }

  /** A Starting workspace becomes Ready if and only if its storage is settled, no call
      fails and its Deployment has a ready replica; then the start is over: no deadline,
      no failures counted, no waiting reason, and references to what serves it. */
  lemma StartingBecomesReadyExactly(st: Status, dep: Option<Deployment>, claims: seq<Claim>, name: Name, admitted: bool, now: int, env: Env)
    requires st.phase == Starting
    ensures var h := Handle(st, dep, claims, name, admitted, now, env);
      && (h.st.phase == Ready <==> StartingGoesOn(st, claims, env) && HasReadyReplica(dep, env))
      && (h.st.phase == Ready ==>
            && h.st.startDeadline.None? && h.st.consecutiveFailures == 0
            && h.st.report == Report(NoReason, if env.pods != [] then env.pods[0].name else st.report.podRef, name)
            && h.st.storage.pvcRef == name
            && h.st.wakeRequestedAt == st.wakeRequestedAt && h.st.backoffUntil == st.backoffUntil)
  {
    hide ReconcileStorage;
    hide Backoff.StartBackoff;
    StorageDecides(st.storage, claims, name, env.app, env.faults);
  }

  /** It becomes Failed if and only if, short of that, it is armed without a Deployment,
      its pod loops in crashes, or its deadline has come. */
  lemma StartingFailsExactly(st: Status, dep: Option<Deployment>, claims: seq<Claim>, name: Name, admitted: bool, now: int, env: Env)
    requires st.phase == Starting
    ensures var h := Handle(st, dep, claims, name, admitted, now, env);
      h.st.phase == Failed <==>
        && StartingGoesOn(st, claims, env) && !HasReadyReplica(dep, env)
        && (|| (dep.None? && st.backoffUntil.Some?)
            || CrashLoops(env.pods)
            || (st.startDeadline.Some? && st.startDeadline.value <= now))
  {
    hide ReconcileStorage;
    hide Backoff.StartBackoff;
    hide FirstWaitingReason;
    StorageDecides(st.storage, claims, name, env.app, env.faults);
    CrashLoopsExactly(env.pods);
  }

  predicate Conflicts(pod: Pod) { pod.pending && |pod.containers| == 0 && exists i :: 0 <= i < |pod.conditions| && !pod.conditions[i] }

  /** While it goes on starting, it reports why its first pod waits: the first waiting
      container's reason, or an attach conflict when the pod is pending with no containers
      and a condition that is not met; and otherwise what it reported before. */
  lemma StartingReports(st: Status, dep: Option<Deployment>, claims: seq<Claim>, name: Name, admitted: bool, now: int, env: Env, reason: Waiting)
    requires st.phase == Starting && StartingGoesOn(st, claims, env)
    requires Handle(st, dep, claims, name, admitted, now, env).st.phase == Starting
    ensures var after := Handle(st, dep, claims, name, admitted, now, env).st.report.waitingReason;
      && (env.pods != [] && WaitsFor(env.pods[0].containers, reason) && !reason.NoReason? ==> after == reason)
      && (env.pods != [] && Conflicts(env.pods[0]) ==> after == RWOPConflict)
      && (env.pods == [] || (NobodyWaits(env.pods[0].containers) && !Conflicts(env.pods[0])) ==> after == st.report.waitingReason)
  {
    hide ReconcileStorage;
    hide Backoff.StartBackoff;
    StorageDecides(st.storage, claims, name, env.app, env.faults);
    if env.pods != [] {
      var containers := env.pods[0].containers;
      FirstWaitingIs(containers);
      if WaitsFor(containers, reason) && !NobodyWaits(containers) {
        WaitsForOne(containers, reason, FirstWaitingReason(containers));
      }
    }
    hide FirstWaitingReason;
  }

  // ------------------------------------------------------- Ready, Idle and Failed

  predicate GoesOn(st: Status, claims: seq<Claim>, env: Env) {
    StorageSettled(st.storage, claims, env.app, env.faults) && PolicyFails !in env.faults
  }

  /** A Ready workspace becomes Pending if and only if it has a wake and the pass gets that
      far; then the wake is served and the scale-down undone. A scaled-down one without a
      wake becomes Idle if and only if its Deployment, if there is one, could be brought to
      no replicas, and its pods are gone. */
  lemma ReadyLeavesExactly(st: Status, dep: Option<Deployment>, claims: seq<Claim>, name: Name, admitted: bool, now: int, env: Env)
    requires st.phase == Ready
    ensures var h := Handle(st, dep, claims, name, admitted, now, env);
      && (h.st.phase == Ready || h.st.phase == Pending || h.st.phase == Idle)
      && (h.st.phase == Pending <==> GoesOn(st, claims, env) && st.wakeRequestedAt.Some?)
      && (h.st.phase == Pending ==> h.st.wakeRequestedAt.None? && !h.st.scaledDown && h.dep == dep)
      && (DeploymentGetFails !in env.faults && DeploymentPatchFails !in env.faults && PodListFails !in env.faults ==>
            (h.st.phase == Idle <==>
              GoesOn(st, claims, env) && st.wakeRequestedAt.None? && st.scaledDown && env.pods == []))
      && (h.st.phase == Idle ==> h.st.scaledDown && (dep.Some? ==> h.dep.Some? && h.dep.value.replicas == Some(0)))
  {
    hide ReconcileStorage;
    StorageDecides(st.storage, claims, name, env.app, env.faults);
  }

  /** A scaled-down Ready workspace has its Deployment brought to no replicas before its
      pods are looked at. */
  lemma ReadyScalesDown(st: Status, dep: Option<Deployment>, claims: seq<Claim>, name: Name, admitted: bool, now: int, env: Env)
    requires st.phase == Ready && st.scaledDown && st.wakeRequestedAt.None? && GoesOn(st, claims, env) && HashMatches(dep)
    requires dep.Some? && DeploymentGetFails !in env.faults && DeploymentPatchFails !in env.faults
    ensures var h := Handle(st, dep, claims, name, admitted, now, env);
      h.dep.Some? && h.dep.value.replicas == Some(0) && Rendered(h.dep.value, env.app, name)
  {
    hide ReconcileStorage;
    StorageDecides(st.storage, claims, name, env.app, env.faults);
  }

  lemma IdleLeavesExactly(st: Status, dep: Option<Deployment>, claims: seq<Claim>, name: Name, admitted: bool, now: int, env: Env)
    requires st.phase == Idle
    ensures var h := Handle(st, dep, claims, name, admitted, now, env);
      && (h.st.phase == Idle || h.st.phase == Pending) && h.dep == dep
      && (h.st.phase == Pending <==> GoesOn(st, claims, env) && st.wakeRequestedAt.Some?)
      && (h.st.phase == Pending ==> h.st.wakeRequestedAt.None? && !h.st.scaledDown)
  {
    hide ReconcileStorage;
    StorageDecides(st.storage, claims, name, env.app, env.faults);
  }

  /** A Failed workspace is left for Pending if and only if it is armed and its backoff is
      strictly past; then it is disarmed, and nothing else changes. */
  lemma FailedLeavesExactly(st: Status, dep: Option<Deployment>, claims: seq<Claim>, name: Name, admitted: bool, now: int, env: Env)
    requires st.phase == Failed
    ensures var h := Handle(st, dep, claims, name, admitted, now, env);
      && (h.st.phase == Pending <==> st.backoffUntil.Some? && st.backoffUntil.value < now)
      && h.st == (if h.st.phase == Pending then st.(phase := Pending, backoffUntil := None) else st)
      && h.dep == dep && h.claims == claims && !h.failed
  {
  }

  /** Wherever a pass comes to storage, what it made of the claims and of the sizes on
      record is what it leaves. */
  lemma StorageReachesTheOutcome(st: Status, dep: Option<Deployment>, claims: seq<Claim>, name: Name, admitted: bool, now: int, env: Env)
    requires st.phase == Starting || st.phase == Ready || st.phase == Idle
          || (st.phase == Pending && admitted && AdmitListFails !in env.faults)
    ensures var s := ReconcileStorage(st.storage, claims, name, env.app, env.faults);
      var h := Handle(st, dep, claims, name, admitted, now, env);
      && h.claims == s.claims
      && (h.st.storage == s.st || (h.st.phase == Ready && h.st.storage == s.st.(pvcRef := name)))
      && (s.failed ==> h.failed)
  {
    hide ReconcileStorage;
    hide Backoff.StartBackoff;
    hide FirstWaitingReason;
  }

  // --------------------------------------------------------- before the handler

  /** What a pass does before it comes to a phase: the object that is being deleted is let
      go, one without the finalizer is given it, and a new one is Pending. */
  lemma BeforeThePhase(s: Store, n: Name, now: int, env: Env, order: seq<Name>)
    requires n in s.objs && GetFails !in env.faults
    ensures var ws, s' := s.objs[n].ws, ReconcileStore(s, n, now, env, order);
      && (ws.deleting && ws.finalizer && UpdateFails !in env.faults ==> n !in s'.objs)
      && (ws.deleting && (!ws.finalizer || UpdateFails in env.faults) ==> s' == s)
      && (!ws.deleting && !ws.finalizer && UpdateFails !in env.faults ==> n in s'.objs && s'.objs[n].ws == ws.(finalizer := true))
      && (!ws.deleting && ws.finalizer && ws.status.phase == Unset && StatusPatchFails !in env.faults ==>
            n in s'.objs && s'.objs[n].ws == ws.(status := ws.status.(phase := Pending)))
  {
  }

  /** And what it then leaves in the store is what its handler came to, as far as its
      patches land: all of it, or with the last one failing only a recorded failure. */
  lemma OutcomeReachesTheStore(s: Store, n: Name, now: int, env: Env, order: seq<Name>)
    requires Handles(s, n, env)
    ensures var h, s' := PassOf(s, n, now, env, order), ReconcileStore(s, n, now, env, order);
      && n in s'.objs
      && (StatusPatchFails !in env.faults ==> s'.objs[n].ws == s.objs[n].ws.(status := h.st))
      && (StatusPatchFails in env.faults ==>
            s'.objs[n].ws.status == if h.recorded
              then s.objs[n].ws.status.(consecutiveFailures := h.st.consecutiveFailures, backoffUntil := h.st.backoffUntil)
              else s.objs[n].ws.status)
      && (h.dep.Some? ==> n in s'.deps && s'.deps[n] == h.dep.value)
      && ClaimsOf(s', n) == h.claims
  {
    hide PassOf;
  }

  /** A wake and an enqueue are recorded at their time, and touch nothing else. */
  lemma EditsWriteTheirField(st: Status, dep: Option<Deployment>, now: int, at: int)
    ensures Edited(st, dep, now, Wake(at)) == st.(wakeRequestedAt := Some(at))
    ensures var st' := Edited(st, dep, now, Enqueue(at));
      st'.traffic.enqueuedAt == Some(at) && st' == st.(traffic := st.traffic.(enqueuedAt := Some(at)))
  {
  }
}
