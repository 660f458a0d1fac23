/** Three quantities followed through whole runs: the start deadline across leader
    changes, the volume size across app changes, and the pod template across scale
    cycles. */
module LifecycleRuns {
  import opened Api
  import opened Reconciliation
  import opened PassFacts
  import opened Protocol
  import opened StepFacts
  import opened FleetSafety
  import opened SessionSafety

  // ---------------------------------------------------------------- deadlines

  /** Starting, with the Deployment that distinguishes a start from an orphan. */
  ghost predicate MidStart(w: World, n: Name) {
    n in w.store.objs && StatusOf(w, n).phase == Starting && n in w.store.deps
  }

  ghost predicate StaysMidStart(w: World, actions: seq<Action>, n: Name)
    decreases |actions|
  {
    MidStart(w, n) && (actions != [] ==> StaysMidStart(Apply(w, actions[0]), actions[1..], n))
  }

  /** The leaderless interval an action adds for n. */
  function Gap(a: Action, n: Name): int {
    if a.EditStatus? && a.name == n && a.edit.Sweep? then a.edit.leaderless else 0
  }

  function GapSum(actions: seq<Action>, n: Name): int {
    if actions == [] then 0 else Gap(actions[0], n) + GapSum(actions[1..], n)
  }

  lemma DeadlineStep(w: World, a: Action, n: Name)
    requires Inv(w) && MidStart(w, n) && MidStart(Apply(w, a), n)
    requires StatusOf(w, n).startDeadline.Some?
    ensures StatusOf(Apply(w, a), n).startDeadline == Some(StatusOf(w, n).startDeadline.value + Gap(a, n))
  {
    if a.Tick? || a.name != n {
      OthersKept(w, a, n);
    } else if a.Reconcile? {
      ReconciledDeadline(w, n, a.env, a.order);
    } else {
      DeadlineByOthers(w, a, n);
    }
  }

  lemma DeadlineByOthers(w: World, a: Action, n: Name)
    requires !a.Reconcile? && !a.Tick? && a.name == n
    requires MidStart(w, n) && MidStart(Apply(w, a), n) && StatusOf(w, n).startDeadline.Some?
    ensures StatusOf(Apply(w, a), n).startDeadline == Some(StatusOf(w, n).startDeadline.value + Gap(a, n))
  {
  }

  /** What a pass does to the deadline, and when it may fail a start for time. */
  lemma ReconciledDeadline(w: World, n: Name, env: Env, order: seq<Name>)
    requires Inv(w) && n in w.store.objs
    ensures var w' := Apply(w, Reconcile(n, env, order));
      var st := StatusOf(w, n);
      n in w'.store.objs ==>
        var st' := StatusOf(w', n);
        && (st.phase == Starting && st'.phase == Starting ==> st'.startDeadline == st.startDeadline)
        && (st.phase != Starting && st'.phase == Starting ==>
              st.phase == Pending && st'.startDeadline == Some(w.now + env.app.startupTimeout))
        && (st.phase == Starting && st'.phase == Failed && n in w.store.deps
            && !WaitingReason(env.pods).CrashLoopBackOff? ==>
              st.startDeadline.Some? && w.now >= st.startDeadline.value)
  {
    hide OutcomeOf;
    hide PhaseMoves;
    hide FieldMoves;
    hide StorageMoves;
    var h := OutcomeOf(w.store, n, w.now, env, order);
    if Handles(w.store, n, env) {
      OutcomeMeetsTable(w, n, env, order);
      PassKeepsDeadline(StatusOf(w, n), DeploymentOf(w.store, n), ClaimsOf(w.store, n), n,
                        Admitted(w.store, n, w.now, env.app, order), w.now, env, h);
    }
    ReconcileAt(w, n, env, h);
  }

  lemma {:induction false} DeadlineAccounting(w: World, actions: seq<Action>, n: Name)
    requires Inv(w) && StaysMidStart(w, actions, n)
    requires StatusOf(w, n).startDeadline.Some?
    ensures Inv(Run(w, actions)) && MidStart(Run(w, actions), n)
    ensures StatusOf(Run(w, actions), n).startDeadline == Some(StatusOf(w, n).startDeadline.value + GapSum(actions, n))
    decreases |actions|
  {
    hide Apply;
    if actions != [] {
      StepKeepsInv(w, actions[0]);
      DeadlineStep(w, actions[0], n);
      DeadlineAccounting(Apply(w, actions[0]), actions[1..], n);
    }
  }

  /** From its admission on, and for as long as it keeps starting with its Deployment, a
      workspace has the deadline admission time + startupTimeout + every leaderless
      interval since; a pass that then fails it without a crash loop does so no earlier. */
  lemma DeadlineSurvivesFailover(w: World, n: Name, env: Env, order: seq<Name>, rest: seq<Action>, last: Env, lastOrder: seq<Name>)
    requires Inv(w) && n in w.store.objs && StatusOf(w, n).phase == Pending
    requires var admitted := Apply(w, Reconcile(n, env, order)); StaysMidStart(admitted, rest, n)
    ensures var deadline := w.now + env.app.startupTimeout + GapSum(rest, n);
      var w' := Run(Apply(w, Reconcile(n, env, order)), rest);
      var end := Apply(w', Reconcile(n, last, lastOrder));
      && MidStart(w', n) && StatusOf(w', n).startDeadline == Some(deadline)
      && (n in end.store.objs && StatusOf(end, n).phase == Failed && !WaitingReason(last.pods).CrashLoopBackOff? ==>
            w'.now >= deadline)
  {
    hide Apply;
    var admitted := Apply(w, Reconcile(n, env, order));
    ReconciledDeadline(w, n, env, order);
    StepKeepsInv(w, Reconcile(n, env, order));
    DeadlineAccounting(admitted, rest, n);
    ReconciledDeadline(Run(admitted, rest), n, last, lastOrder);
  }

  /** The sweep itself never changes a phase. */
  lemma SweepKeepsPhase(w: World, n: Name, app: App, leaderless: int)
    requires n in w.store.objs
    ensures var w' := Apply(w, EditStatus(n, Sweep(app, leaderless)));
      n in w'.store.objs && StatusOf(w', n).phase == StatusOf(w, n).phase
  {
  }

  // ------------------------------------------------------------------ storage

  lemma StorageStep(w: World, a: Action, n: Name)
    requires Inv(w) && n in w.store.objs && n in Apply(w, a).store.objs
    ensures SizeAtLeast(StatusOf(Apply(w, a), n).storage.largestObservedSize, StatusOf(w, n).storage.largestObservedSize)
    ensures a.Reconcile? ==> ClaimsOnlyGrow(ClaimsOf(w.store, n), ClaimsOf(Apply(w, a).store, n))
  {
    assert ClaimsOnlyGrow(ClaimsOf(w.store, n), ClaimsOf(w.store, n));
    if a.Tick? || a.name != n {
      OthersKept(w, a, n);
    } else if a.Reconcile? {
      ReconciledStorage(w, n, a.env, a.order);
    } else {
      StorageByOthers(w, a, n);
    }
  }

  lemma StorageByOthers(w: World, a: Action, n: Name)
    requires Inv(w) && !a.Reconcile? && n in w.store.objs && n in Apply(w, a).store.objs
    ensures StatusOf(Apply(w, a), n).storage == StatusOf(w, n).storage
  {
    if a.ScaleDown? && WritesStatus(w, a) {
      LandsOnWhatWasRead(w, a.snap, a.app);
    }
  }

  /** No pass lowers a claim's request or the largest observed size, and a pass that
      finds the app smaller than that leaves Deployment and claims alone and starts
      nothing. */
  lemma ReconciledStorage(w: World, n: Name, env: Env, order: seq<Name>)
    requires Inv(w) && n in w.store.objs
    ensures var w' := Apply(w, Reconcile(n, env, order));
      && ClaimsOnlyGrow(ClaimsOf(w.store, n), ClaimsOf(w'.store, n))
      && (n in w'.store.objs ==>
            && SizeAtLeast(StatusOf(w', n).storage.largestObservedSize, StatusOf(w, n).storage.largestObservedSize)
            && (ShrinkRefused(StatusOf(w, n).storage, env.app) ==>
                  && DeploymentOf(w'.store, n) == DeploymentOf(w.store, n)
                  && ClaimsOf(w'.store, n) == ClaimsOf(w.store, n)
                  && (StatusOf(w', n).phase == Starting ==> StatusOf(w, n).phase == Starting)))
  {
    hide OutcomeOf;
    assert ClaimsOnlyGrow(ClaimsOf(w.store, n), ClaimsOf(w.store, n));
    var h := OutcomeOf(w.store, n, w.now, env, order);
    if Handles(w.store, n, env) {
      OutcomeMeetsTable(w, n, env, order);
    }
    ReconcileAt(w, n, env, h);
  }

  lemma {:induction false} LargestNeverShrinks(w: World, actions: seq<Action>, n: Name)
    requires Inv(w) && Stays(w, actions, n)
    ensures Inv(Run(w, actions)) && n in Run(w, actions).store.objs
    ensures SizeAtLeast(StatusOf(Run(w, actions), n).storage.largestObservedSize, StatusOf(w, n).storage.largestObservedSize)
    decreases |actions|
  {
    if actions != [] {
      StepKeepsInv(w, actions[0]);
      StorageStep(w, actions[0], n);
      LargestNeverShrinks(Apply(w, actions[0]), actions[1..], n);
    }
  }

  /** Once a volume has been observed at some size, no later app that asks for less, be
      it edited, or deleted and created anew, gets its workspace started or touched. */
  lemma ShrinkStaysRefused(w: World, actions: seq<Action>, n: Name, size: int, env: Env, order: seq<Name>)
    requires Inv(w) && Stays(w, actions, n)
    requires SizeAtLeast(StatusOf(w, n).storage.largestObservedSize, Some(size)) && env.app.size < size
    ensures var w1 := Run(w, actions);
      var w2 := Apply(w1, Reconcile(n, env, order));
      && DeploymentOf(w2.store, n) == DeploymentOf(w1.store, n)
      && ClaimsOf(w2.store, n) == ClaimsOf(w1.store, n)
      && (n in w2.store.objs && StatusOf(w2, n).phase == Starting ==> StatusOf(w1, n).phase == Starting)
  {
    LargestNeverShrinks(w, actions, n);
    var w1 := Run(w, actions);
    assert ShrinkRefused(StatusOf(w1, n).storage, env.app);
    ReconciledStorage(w1, n, env, order);
    if n !in Apply(w1, Reconcile(n, env, order)).store.objs {
      ReconcileAt(w1, n, env, OutcomeOf(w1.store, n, w1.now, env, order));
    }
  }

  // ---------------------------------------------------------------- templates

  /** In every state of any run, each Deployment is the render of the app at the last
      create or ensure, with the replicas last asked for. */
  lemma DeploymentsAreLastRender(w: World, actions: seq<Action>, n: Name)
    requires Initial(w) && n in Run(w, actions).store.deps
    ensures var w' := Run(w, actions);
      && n in w'.synced
      && w'.store.deps[n].template == w'.synced[n].0
      && w'.store.deps[n].replicas == Some(w'.synced[n].1)
  {
    RunKeepsInv(w, actions);
  }

  ghost predicate KeepsDeployment(w: World, actions: seq<Action>, n: Name)
    decreases |actions|
  {
    n in w.store.deps && (actions != [] ==> KeepsDeployment(Apply(w, actions[0]), actions[1..], n))
  }

  lemma DeploymentStep(w: World, a: Action, n: Name)
    requires Inv(w) && n in w.store.deps && n in Apply(w, a).store.deps
    ensures var d, d' := w.store.deps[n], Apply(w, a).store.deps[n];
      && d'.selector == d.selector
      && (d' == d.(replicas := d'.replicas) || (a.Reconcile? && a.name == n && d.hash != Some(RenderHash(a.env.app, n))))
  {
    if a.Tick? || a.name != n {
      OthersKept(w, a, n);
    } else if a.Reconcile? {
      var h := OutcomeOf(w.store, n, w.now, a.env, a.order);
      if Handles(w.store, n, a.env) {
        OutcomeMeetsTable(w, n, a.env, a.order);
        ReconcileAt(w, n, a.env, h);
      } else if n in w.store.objs {
        ReconcileAt(w, n, a.env, h);
      }
    } else {
      OtherActorsKeepDeployment(w, a, n);
    }
  }

  /** The app renders what the Deployment already carries, whatever else it changes. */
  ghost predicate SameRender(actions: seq<Action>, n: Name, hash: Option<SpecHash>) {
    forall i :: 0 <= i < |actions| && actions[i].Reconcile? && actions[i].name == n ==>
      hash == Some(RenderHash(actions[i].env.app, n))
  }

  /** As long as a Deployment lives its selector never changes; and under an app whose
      render is unchanged no number of scale cycles rewrites its template. */
  lemma {:induction false} ScaleCyclesKeepTheTemplate(w: World, actions: seq<Action>, n: Name)
    requires Inv(w) && KeepsDeployment(w, actions, n)
    ensures n in Run(w, actions).store.deps
    ensures Run(w, actions).store.deps[n].selector == w.store.deps[n].selector
    ensures var d, d' := w.store.deps[n], Run(w, actions).store.deps[n];
      SameRender(actions, n, d.hash) ==> d' == d.(replicas := d'.replicas)
    decreases |actions|
  {
    if actions != [] {
      var a := actions[0];
      StepKeepsInv(w, a);
      DeploymentStep(w, a, n);
      ScaleCyclesKeepTheTemplate(Apply(w, a), actions[1..], n);
    }
  }
}
