/** What every pass of the reconciler keeps, whatever it reads and whichever of its
    calls fail: the phase transition table it implements, and what follows from it. */
module PassFacts {
  import opened Api
  import opened Reconciliation
  import Admission

  // -------------------------------------------------------------- the table

  /** The phase transitions, each with its guard. */
  predicate PhaseMoves(st: Status, dep: Option<Deployment>, admitted: bool, now: int, env: Env, h: Handled) {
    || h.st.phase == st.phase
    || (st.phase == Pending && h.st.phase == Starting && admitted)
    || (st.phase == Starting && h.st.phase == Ready && dep.Some?)
    || (st.phase == Starting && h.st.phase == Failed && FailureDue(st, dep, now, env, h.recorded))
    || (st.phase == Ready && h.st.phase == Idle && st.scaledDown && st.wakeRequestedAt.None?
        && (h.dep.Some? ==> h.dep.value.replicas == Some(0)))
    || ((st.phase == Ready || st.phase == Idle) && h.st.phase == Pending && st.wakeRequestedAt.Some?)
    || (st.phase == Failed && h.st.phase == Pending && st.backoffUntil.Some? && now > st.backoffUntil.value)
  }

  predicate FailureDue(st: Status, dep: Option<Deployment>, now: int, env: Env, recorded: bool) {
    || WaitingReason(env.pods).CrashLoopBackOff?
    || (st.startDeadline.Some? && now >= st.startDeadline.value)
    || (dep.None? && st.backoffUntil.Some? && !recorded)
  }

  predicate Woken(st: Status, after: Status) {
    st.wakeRequestedAt.Some? && (st.phase == Ready || st.phase == Idle) && after.phase == Pending
  }

  /** The remaining lifecycle fields, by the transition taken. */
  predicate FieldMoves(st: Status, dep: Option<Deployment>, now: int, env: Env, h: Handled) {
    && (if Woken(st, h.st) then h.st.wakeRequestedAt.None? && !h.st.scaledDown
        else h.st.wakeRequestedAt == st.wakeRequestedAt && h.st.scaledDown == st.scaledDown)
    && (h.recorded ==>
          && RecordFails !in env.faults
          && st.phase == Starting && h.st.phase == Failed && h.st.backoffUntil.Some? && h.dep == dep)
    && (!h.recorded ==>
          h.st.backoffUntil == if st.phase == Failed && h.st.phase == Pending then None else st.backoffUntil)
    && (h.st.phase == Starting ==>
          h.st.startDeadline == if st.phase == Pending then Some(now + env.app.startupTimeout) else st.startDeadline)
  }

  /** The annotation, if there is one, fingerprints the template that is there. */
  predicate HashMatches(dep: Option<Deployment>) {
    dep.Some? && dep.value.hash.Some? ==> dep.value.hash.value.template == dep.value.template
  }

  /** The Deployment stays as it is, or comes to have the app's current render and the
      replica count the pass asked for; the selector and an unchanged template stay. */
  predicate DeploymentMoves(st: Status, dep: Option<Deployment>, name: Name, admitted: bool, env: Env, h: Handled) {
    && HashMatches(h.dep)
    && (h.synced.Some? ==>
          (st.phase == Pending && admitted) || (st.phase == Ready && st.scaledDown && h.synced == Some(0)))
    && (h.synced.None? ==> h.dep == dep)
    && (h.synced.Some? ==>
          && h.dep.Some? && h.dep.value.replicas == h.synced
          && h.dep.value.template == RenderTemplate(env.app, name) && h.dep.value.hash == Some(RenderHash(env.app, name)))
    && (dep.Some? ==> h.dep.Some? && h.dep.value.selector == dep.value.selector)
    && (dep.Some? && dep.value.hash == Some(RenderHash(env.app, name)) ==>
          h.dep.value == dep.value.(replicas := h.dep.value.replicas))
  }

  predicate SizeAtLeast(size: Option<int>, floor: Option<int>) {
    floor.Some? ==> size.Some? && size.value >= floor.value
  }

  /** Claims are created only where there was none, and otherwise only ever grow. */
  predicate ClaimsOnlyGrow(before: seq<Claim>, after: seq<Claim>) {
    if before == [] then |after| <= 1
    else
      && |after| == |before|
      && forall i :: 0 <= i < |before| ==>
           && after[i].request >= before[i].request
           && after[i] == before[i].(request := after[i].request)
  }

  /** Sizes only grow, and an app smaller than the volume has been changes nothing. */
  predicate StorageMoves(st: Status, dep: Option<Deployment>, claims: seq<Claim>, env: Env, h: Handled) {
    && SizeAtLeast(h.st.storage.largestObservedSize, st.storage.largestObservedSize)
    && ClaimsOnlyGrow(claims, h.claims)
    && (ShrinkRefused(st.storage, env.app) ==>
          && h.dep == dep && h.synced.None? && h.claims == claims
          && (h.st.phase == Starting ==> st.phase == Starting))
  }

  predicate Table(st: Status, dep: Option<Deployment>, claims: seq<Claim>, name: Name,
                  admitted: bool, now: int, env: Env, h: Handled) {
    && h.st.traffic == st.traffic
    && PhaseMoves(st, dep, admitted, now, env, h)
    && FieldMoves(st, dep, now, env, h)
    && DeploymentMoves(st, dep, name, admitted, env, h)
    && StorageMoves(st, dep, claims, env, h)
  }

  // ------------------------------------------------- every handler meets it

  /** The part of the table the storage step answers for. */
  predicate StorageOk(s: StorageOutcome, st: StorageStatus, claims: seq<Claim>, app: App) {
    && SizeAtLeast(s.st.largestObservedSize, st.largestObservedSize)
    && ClaimsOnlyGrow(claims, s.claims)
    && (ShrinkRefused(st, app) ==> s.refused && !s.failed && s.claims == claims)
  }

  lemma ExistingClaimOnlyGrows(st: StorageStatus, c: Claim, app: App, faults: set<Fault>)
    ensures var s := ExistingClaim(st, c, app, faults);
      SizeAtLeast(s.st.largestObservedSize, st.largestObservedSize) && ClaimsOnlyGrow([c], s.claims)
  {
  }

  lemma StorageOnlyGrows(st: StorageStatus, claims: seq<Claim>, name: Name, app: App, faults: set<Fault>)
    ensures StorageOk(ReconcileStorage(st, claims, name, app, faults), st, claims, app)
  {
    if |claims| == 1 {
      assert claims == [claims[0]];
      var cleared := st.(shrinkRejected := false, ambiguousVolume := false);
      ExistingClaimOnlyGrows(cleared, claims[0], app, faults);
    }
  }

  /** An ensured Deployment has the current render with its fingerprint, which it may not
      have carried before, and the wanted replicas; its selector is the one it was created
      with; a second call writes nothing; and the template is rewritten exactly when the
      fingerprint is missing or another one. */
  lemma EnsureDeploymentSyncs(d: Deployment, name: Name, app: App, want: int, faults: set<Fault>)
    requires HashMatches(Some(d))
    ensures var o := EnsureDeployment(Some(d), name, app, want, faults);
      && o.dep.Some? && HashMatches(o.dep)
      && o.dep.value.selector == d.selector
      && (o.failed ==> o.dep == Some(d))
      && (o.synced <==> !o.failed)
      && (o.synced ==>
            && o.dep.value.template == RenderTemplate(app, name)
            && o.dep.value.hash == Some(RenderHash(app, name))
            && o.dep.value.replicas == Some(want)
            && EnsureDeployment(o.dep, name, app, want, faults).dep == o.dep
            && EnsureDeployment(o.dep, name, app, want, faults).writes == 0)
      && (d.hash == Some(RenderHash(app, name)) ==> o.dep.value == d.(replicas := o.dep.value.replicas))
      && (o.synced ==> o.dep.value.rollouts == d.rollouts + if d.hash == Some(RenderHash(app, name)) then 0 else 1)
  {
  }

  lemma CreateChildrenSyncs(st: Status, pending: Status, dep: Option<Deployment>, claims: seq<Claim>, name: Name, env: Env)
    requires HashMatches(dep) && pending.phase == Pending
    ensures var h := CreateChildren(st, dep, claims, name, env);
      && DeploymentMoves(pending, dep, name, true, env, h)
      && h == Handled(st, h.dep, claims, h.failed, false, h.synced)
  {
    if dep.Some? {
      EnsureDeploymentSyncs(dep.value, name, env.app, 1, env.faults);
    }
  }

  lemma PendingMeetsTable(s: StorageOutcome, st: Status, dep: Option<Deployment>, claims: seq<Claim>, name: Name,
                          admitted: bool, now: int, env: Env)
    requires st.phase == Pending && HashMatches(dep) && StorageOk(s, st.storage, claims, env.app)
    ensures Table(st, dep, claims, name, admitted, now, env, HandlePending(s, st, dep, claims, name, admitted, now, env))
  {
    if AdmitListFails in env.faults || !admitted {
      assert ClaimsOnlyGrow(claims, claims);
    } else if !s.failed && !s.refused {
      var started := st.(phase := Starting, startDeadline := Some(now + env.app.startupTimeout), storage := s.st);
      CreateChildrenSyncs(started, st, dep, s.claims, name, env);
      var h := CreateChildren(started, dep, s.claims, name, env);
      assert HandlePending(s, st, dep, claims, name, admitted, now, env) == h;
      assert PhaseMoves(st, dep, admitted, now, env, h);
      assert FieldMoves(st, dep, now, env, h);
      assert StorageMoves(st, dep, claims, env, h);
    }
  }

  /** The moves of a Starting workspace whose storage is settled and which is not Ready. */
  lemma NotReadyMoves(st: Status, dep: Option<Deployment>, claims: seq<Claim>, now: int, env: Env, admitted: bool)
    requires st.phase == Starting
    ensures var h := HandleNotReady(st, dep, claims, now, env);
      && PhaseMoves(st, dep, admitted, now, env, h)
      && FieldMoves(st, dep, now, env, h)
      && h == Handled(h.st, dep, claims, false, h.recorded, None)
      && h.st.storage == st.storage && h.st.traffic == st.traffic
  {
  }

  lemma StartingMeetsTable(s: StorageOutcome, st: Status, dep: Option<Deployment>, claims: seq<Claim>, name: Name,
                           admitted: bool, now: int, env: Env)
    requires st.phase == Starting && HashMatches(dep) && StorageOk(s, st.storage, claims, env.app)
    ensures Table(st, dep, claims, name, admitted, now, env, HandleStarting(s, st, dep, name, now, env))
  {
    NotReadyMoves(st.(storage := s.st), dep, s.claims, now, env, admitted);
    var h := HandleStarting(s, st, dep, name, now, env);
    assert h.dep == dep && h.synced.None? && h.claims == s.claims && h.st.traffic == st.traffic;
    assert PhaseMoves(st, dep, admitted, now, env, h);
    assert FieldMoves(st, dep, now, env, h);
  }

  lemma ReadyMeetsTable(s: StorageOutcome, st: Status, dep: Option<Deployment>, claims: seq<Claim>, name: Name,
                        admitted: bool, now: int, env: Env)
    requires st.phase == Ready && HashMatches(dep) && StorageOk(s, st.storage, claims, env.app)
    ensures Table(st, dep, claims, name, admitted, now, env, HandleReady(s, st, dep, name, env))
  {
    if dep.Some? {
      EnsureDeploymentSyncs(dep.value, name, env.app, 0, env.faults);
    }
  }

  lemma IdleMeetsTable(s: StorageOutcome, st: Status, dep: Option<Deployment>, claims: seq<Claim>, name: Name,
                       admitted: bool, now: int, env: Env)
    requires st.phase == Idle && HashMatches(dep) && StorageOk(s, st.storage, claims, env.app)
    ensures Table(st, dep, claims, name, admitted, now, env, HandleIdle(s, st, dep, env))
  {
  }

  lemma FailedMeetsTable(st: Status, dep: Option<Deployment>, claims: seq<Claim>, name: Name,
                         admitted: bool, now: int, env: Env)
    requires st.phase == Failed && HashMatches(dep)
    ensures Table(st, dep, claims, name, admitted, now, env, HandleFailed(st, dep, claims, now))
  {
    assert ClaimsOnlyGrow(claims, claims);
  }

  /** Whatever it reads and whichever calls fail, a pass only makes moves of the table. */
  lemma PassMeetsTable(st: Status, dep: Option<Deployment>, claims: seq<Claim>, name: Name,
                       admitted: bool, now: int, env: Env)
    requires st.phase != Unset && HashMatches(dep)
    ensures Table(st, dep, claims, name, admitted, now, env, Handle(st, dep, claims, name, admitted, now, env))
  {
    var s := ReconcileStorage(st.storage, claims, name, env.app, env.faults);
    StorageOnlyGrows(st.storage, claims, name, env.app, env.faults);
    match st.phase
    case Pending => PendingMeetsTable(s, st, dep, claims, name, admitted, now, env);
    case Starting => StartingMeetsTable(s, st, dep, claims, name, admitted, now, env);
    case Ready => ReadyMeetsTable(s, st, dep, claims, name, admitted, now, env);
    case Idle => IdleMeetsTable(s, st, dep, claims, name, admitted, now, env);
    case Failed => FailedMeetsTable(st, dep, claims, name, admitted, now, env);
  }

  // ------------------------------------------------- consequences of the table

  /** What the phase says about the other fields and the Deployment. */
  predicate PhaseInv(st: Status, dep: Option<Deployment>) {
    && (st.phase != Ready && st.phase != Idle ==> !st.scaledDown)
    && (st.phase == Idle ==> st.scaledDown && (dep.Some? ==> dep.value.replicas == Some(0)))
    && (st.backoffUntil.Some? ==> st.phase == Failed || (st.phase == Starting && dep.None?))
  }

  /** A recorded start failure whose phase change was lost, on a workspace that has a
      Deployment. */
  predicate Torn(h: Handled, faults: set<Fault>) {
    h.recorded && StatusPatchFails in faults && h.dep.Some?
  }

  lemma KeepsPhaseInvUnlessTorn(st: Status, dep: Option<Deployment>, claims: seq<Claim>, name: Name,
                                admitted: bool, now: int, env: Env, h: Handled)
    requires Table(st, dep, claims, name, admitted, now, env, h) && PhaseInv(st, dep)
    ensures PhaseInv(Persisted(st, h, env.faults), h.dep) <==> !Torn(h, env.faults)
  {
  }

  /** The branch of the Starting handler that fails the start: it is reached when the
      storage is settled, every call before it succeeds and the Deployment has no ready
      replica; it is taken for a crash loop or a deadline that has passed. */
  predicate FailsStart(st: Status, dep: Option<Deployment>, claims: seq<Claim>, name: Name, now: int, env: Env) {
    var s := ReconcileStorage(st.storage, claims, name, env.app, env.faults);
    && st.phase == Starting
    && !s.failed && !s.refused
    && PolicyFails !in env.faults && PodListFails !in env.faults && DeploymentGetFails !in env.faults
    && !(dep.Some? && env.readyReplicas >= 1)
    && !(dep.None? && st.backoffUntil.Some?)
    && (WaitingReason(env.pods).CrashLoopBackOff? || (st.startDeadline.Some? && now >= st.startDeadline.value))
  }

  /** The pass tears: it fails the start of a workspace that has a Deployment, and of its
      two patches the first succeeds and the second does not. */
  predicate Tears(st: Status, dep: Option<Deployment>, claims: seq<Claim>, name: Name, now: int, env: Env) {
    FailsStart(st, dep, claims, name, now, env) && dep.Some? && RecordFails !in env.faults && StatusPatchFails in env.faults
  }

  /** A start failure is recorded in that branch and in no other. */
  lemma RecordsExactlyThere(st: Status, dep: Option<Deployment>, claims: seq<Claim>, name: Name,
                            admitted: bool, now: int, env: Env)
    requires st.phase != Unset
    ensures Handle(st, dep, claims, name, admitted, now, env).recorded <==>
      FailsStart(st, dep, claims, name, now, env) && RecordFails !in env.faults
  {
    hide ReconcileStorage;
  }

  /** A pass keeps the phase invariant if and only if it does not tear. */
  lemma PassKeepsPhaseInv(st: Status, dep: Option<Deployment>, claims: seq<Claim>, name: Name,
                          admitted: bool, now: int, env: Env)
    requires st.phase != Unset && HashMatches(dep) && PhaseInv(st, dep)
    ensures var h := Handle(st, dep, claims, name, admitted, now, env);
      PhaseInv(Persisted(st, h, env.faults), h.dep) <==> !Tears(st, dep, claims, name, now, env)
  {
    var h := Handle(st, dep, claims, name, admitted, now, env);
    PassMeetsTable(st, dep, claims, name, admitted, now, env);
    KeepsPhaseInvUnlessTorn(st, dep, claims, name, admitted, now, env, h);
    RecordsExactlyThere(st, dep, claims, name, admitted, now, env);
  }

  /** And it can: a start ten past a deadline of five, with its final patch refused, is
      left Starting with a Deployment and an armed backoff, its slot released. */
  lemma PassCanTear(app: App, name: Name)
    ensures var st := EMPTY_STATUS.(phase := Starting, startDeadline := Some(5));
      var dep := Some(RenderDeployment(app, name, false));
      var env := Env(app, [], 0, {StatusPatchFails});
      var h := Handle(st, dep, [], name, false, 10, env);
      && PhaseInv(st, dep) && Tears(st, dep, [], name, 10, env)
      && Persisted(st, h, env.faults).phase == Starting && Persisted(st, h, env.faults).backoffUntil.Some? && h.dep == dep
  {
  }

  /** A torn start that turns Ready and is woken comes back to the queue with its backoff
      still armed: neither step clears it. */
  lemma TornStartQueuesArmed(app: App, name: Name)
    ensures var start := EMPTY_STATUS.(phase := Starting, startDeadline := Some(5));
      var dep := Some(RenderDeployment(app, name, false));
      var h1 := Handle(start, dep, [], name, false, 10, Env(app, [], 0, {StatusPatchFails}));
      var torn := Persisted(start, h1, {StatusPatchFails});
      var h2 := Handle(torn, h1.dep, h1.claims, name, false, 11, Env(app, [], 1, {}));
      var woken := h2.st.(wakeRequestedAt := Some(12));
      && torn.phase == Starting && h2.st.phase == Ready
      && var h3 := Handle(woken, h2.dep, h2.claims, name, false, 12, Env(app, [], 1, {}));
         h3.st.phase == Pending && !h3.st.scaledDown && h3.st.backoffUntil == torn.backoffUntil && torn.backoffUntil.Some?
  {
    hide RecordFailure;
    PassCanTear(app, name);
    var start, dep := EMPTY_STATUS.(phase := Starting, startDeadline := Some(5)), Some(RenderDeployment(app, name, false));
    var h1 := Handle(start, dep, [], name, false, 10, Env(app, [], 0, {StatusPatchFails}));
    var torn := Persisted(start, h1, {StatusPatchFails});
    assert torn.storage == start.storage && h1.claims == [RenderClaim(app, name)];
    var h2 := Handle(torn, h1.dep, h1.claims, name, false, 11, Env(app, [], 1, {}));
    assert h2.st.phase == Ready && h2.st.backoffUntil == torn.backoffUntil && h2.claims == h1.claims;
  }

  /** A workspace comes to occupy a start slot only by being admitted from Pending. */
  lemma OccupiesOnlyByAdmission(st: Status, dep: Option<Deployment>, claims: seq<Claim>, name: Name,
                                admitted: bool, now: int, env: Env, h: Handled)
    requires Table(st, dep, claims, name, admitted, now, env, h)
    requires Admission.Occupies(Persisted(st, h, env.faults))
    ensures Admission.Occupies(st) || (st.phase == Pending && admitted)
  {
  }

  /** A recorded wake leaves the status only in a pass that moves the workspace to
      Pending with scaledDown false, and such a workspace never becomes Idle. */
  lemma WakeSurvivesPass(st: Status, dep: Option<Deployment>, claims: seq<Claim>, name: Name,
                         admitted: bool, now: int, env: Env, h: Handled)
    requires Table(st, dep, claims, name, admitted, now, env, h) && st.wakeRequestedAt.Some?
    ensures var after := Persisted(st, h, env.faults);
      && (after.wakeRequestedAt == st.wakeRequestedAt
          || (after.wakeRequestedAt.None? && after.phase == Pending && !after.scaledDown))
      && (after.phase == Idle ==> st.phase == Idle)
  {
  }

  /** While a workspace stays Starting a pass leaves its deadline alone; an admission
      sets it from the clock; and with a Deployment and no crash loop it is failed only
      once the deadline has passed. */
  lemma PassKeepsDeadline(st: Status, dep: Option<Deployment>, claims: seq<Claim>, name: Name,
                          admitted: bool, now: int, env: Env, h: Handled)
    requires Table(st, dep, claims, name, admitted, now, env, h)
    ensures var after := Persisted(st, h, env.faults);
      && (st.phase == Starting && after.phase == Starting ==> after.startDeadline == st.startDeadline)
      && (st.phase != Starting && after.phase == Starting ==>
            st.phase == Pending && after.startDeadline == Some(now + env.app.startupTimeout))
      && (st.phase == Starting && after.phase == Failed && dep.Some? && !WaitingReason(env.pods).CrashLoopBackOff? ==>
            st.startDeadline.Some? && now >= st.startDeadline.value)
  {
  }
}
