/** Start failures over whole runs: how they are counted, how long each makes a workspace
    wait, and what forgets them. */
module FailureRuns {
  import opened Api
  import opened Reconciliation
  import opened PassFacts
  import opened PassEffects
  import opened Protocol
  import opened StepFacts
  import opened FleetSafety
  import opened SessionSafety
  import Backoff

  const FIVE_SECONDS := 5_000_000_000

  /** The wait after the k-th failure in a row. */
  function WaitAfter(k: nat, backoffMax: int): int
    requires k > 0
  {
    Min(FIVE_SECONDS * Backoff.Pow2(k - 1), backoffMax)
  }

  /** The action records a start failure of n: a pass fails the start and its patch of the
      failure goes through, or the failover sweep finds a start without a Deployment. */
  ghost predicate Records(w: World, a: Action, n: Name) {
    && n in w.store.objs
    && match a
       case Reconcile(m, env, _) =>
         m == n && Handles(w.store, n, env) && RecordFails !in env.faults
         && FailsStart(StatusOf(w, n), DeploymentOf(w.store, n), ClaimsOf(w.store, n), n, w.now, env)
       case EditStatus(m, edit) =>
         m == n && edit.Sweep? && StatusOf(w, n).phase == Starting && n !in w.store.deps
       case _ => false
  }

  ghost function BackoffMaxOf(w: World, a: Action, n: Name): int
    requires Records(w, a, n)
  {
    if a.Reconcile? then a.env.app.backoffMax else a.edit.app.backoffMax
  }

  /** One step of anyone's: it records a failure, which counts one up and arms the backoff
      for the wait that number asks for; or it makes the workspace Ready, which forgets
      the failures; or it leaves the count alone. */
  lemma FailureStep(w: World, a: Action, n: Name)
    requires Inv(w) && n in w.store.objs && n in Apply(w, a).store.objs
    requires StatusOf(w, n).consecutiveFailures >= 0
    ensures var st, st' := StatusOf(w, n), StatusOf(Apply(w, a), n);
      if Records(w, a, n) then
        && st'.consecutiveFailures == st.consecutiveFailures + 1
        && st'.backoffUntil == Some(w.now + WaitAfter(st.consecutiveFailures + 1, BackoffMaxOf(w, a, n)))
      else if st.phase != Ready && st'.phase == Ready then st'.consecutiveFailures == 0
      else st'.consecutiveFailures == st.consecutiveFailures
  {
    hide OutcomeOf;
    if a.Tick? || a.name != n {
      OthersKept(w, a, n);
    } else if a.Reconcile? {
      PassCounts(w, n, a.env, a.order);
    } else {
      OthersCount(w, a, n);
    }
  }

  lemma OthersCount(w: World, a: Action, n: Name)
    requires Inv(w) && !a.Tick? && !a.Reconcile? && a.name == n && n in w.store.objs && n in Apply(w, a).store.objs
    requires StatusOf(w, n).consecutiveFailures >= 0
    ensures var st, st' := StatusOf(w, n), StatusOf(Apply(w, a), n);
      && st'.phase == st.phase
      && if Records(w, a, n) then
           && st'.consecutiveFailures == st.consecutiveFailures + 1
           && st'.backoffUntil == Some(w.now + WaitAfter(st.consecutiveFailures + 1, BackoffMaxOf(w, a, n)))
         else st'.consecutiveFailures == st.consecutiveFailures
  {
    if a.ScaleDown? && WritesStatus(w, a) {
      LandsOnWhatWasRead(w, a.snap, a.app);
    }
  }

  /** The count and the backoff in what a handler comes to. */
  lemma HandlerCounts(st: Status, dep: Option<Deployment>, claims: seq<Claim>, name: Name, admitted: bool, now: int, env: Env)
    requires st.phase != Unset && st.consecutiveFailures >= 0
    ensures var h := Handle(st, dep, claims, name, admitted, now, env);
      if h.recorded then
        && h.st.consecutiveFailures == st.consecutiveFailures + 1
        && h.st.backoffUntil == Some(now + WaitAfter(st.consecutiveFailures + 1, env.app.backoffMax))
        && h.st.phase == Failed
      else if st.phase != Ready && h.st.phase == Ready then h.st.consecutiveFailures == 0
      else h.st.consecutiveFailures == st.consecutiveFailures
  {
    hide ReconcileStorage;
    hide FirstWaitingReason;
  }

  lemma PassCounts(w: World, n: Name, env: Env, order: seq<Name>)
    requires Inv(w) && n in w.store.objs && n in Apply(w, Reconcile(n, env, order)).store.objs
    requires StatusOf(w, n).consecutiveFailures >= 0
    ensures var a := Reconcile(n, env, order);
      var st, st' := StatusOf(w, n), StatusOf(Apply(w, a), n);
      if Records(w, a, n) then
        && st'.consecutiveFailures == st.consecutiveFailures + 1
        && st'.backoffUntil == Some(w.now + WaitAfter(st.consecutiveFailures + 1, env.app.backoffMax))
      else if st.phase != Ready && st'.phase == Ready then st'.consecutiveFailures == 0
      else st'.consecutiveFailures == st.consecutiveFailures
  {
    var h := OutcomeOf(w.store, n, w.now, env, order);
    if Handles(w.store, n, env) {
      var admitted := Admitted(w.store, n, w.now, env.app, order);
      HandlerCounts(StatusOf(w, n), DeploymentOf(w.store, n), ClaimsOf(w.store, n), n, admitted, w.now, env);
      RecordsExactlyThere(StatusOf(w, n), DeploymentOf(w.store, n), ClaimsOf(w.store, n), n, admitted, w.now, env);
      OutcomeMeetsTable(w, n, env, order);
    }
    hide OutcomeOf;
    hide PassOf;
    ReconcileAt(w, n, env, h);
  }

  // -------------------------------------------------------------- failures in a row

  /** No step of the run makes the workspace Ready. */
  ghost predicate NeverReady(w: World, actions: seq<Action>, n: Name)
    decreases |actions|
  {
    && n in w.store.objs
    && (actions != [] ==>
          && n in Apply(w, actions[0]).store.objs
          && (StatusOf(w, n).phase != Ready ==> StatusOf(Apply(w, actions[0]), n).phase != Ready)
          && NeverReady(Apply(w, actions[0]), actions[1..], n))
  }

  /** How many failures of n the run records. */
  ghost function Recorded(w: World, actions: seq<Action>, n: Name): nat
    decreases |actions|
  {
    if actions == [] then 0
    else (if Records(w, actions[0], n) then 1 else 0) + Recorded(Apply(w, actions[0]), actions[1..], n)
  }

  lemma {:induction false} CountsInARow(w: World, actions: seq<Action>, n: Name)
    requires Inv(w) && NeverReady(w, actions, n) && StatusOf(w, n).consecutiveFailures >= 0
    ensures var w' := Run(w, actions);
      && Inv(w') && n in w'.store.objs
      && StatusOf(w', n).consecutiveFailures == StatusOf(w, n).consecutiveFailures + Recorded(w, actions, n)
    decreases |actions|
  {
    hide Apply;
    hide Records;
    if actions != [] {
      StepKeepsInv(w, actions[0]);
      FailureStep(w, actions[0], n);
      CountsInARow(Apply(w, actions[0]), actions[1..], n);
    }
  }

  /** Failures in a row wait longer and longer: from a state with none counted, over any
      run in which the workspace does not become Ready, a step that records the k-th
      failure leaves k counted and the backoff armed until the clock of that step plus
      min(5 s * 2^(k-1), backoffMax). */
  lemma FailuresInARow(w: World, actions: seq<Action>, last: Action, n: Name)
    requires Inv(w) && NeverReady(w, actions, n) && StatusOf(w, n).consecutiveFailures == 0
    requires var before := Run(w, actions); Records(before, last, n) && n in Apply(before, last).store.objs
    ensures var before := Run(w, actions);
      var st, k := StatusOf(Apply(before, last), n), Recorded(w, actions, n) + 1;
      && st.consecutiveFailures == k
      && st.backoffUntil == Some(before.now + Min(5_000_000_000 * Backoff.Pow2(k - 1), BackoffMaxOf(before, last, n)))
  {
    hide Apply;
    hide Records;
    CountsInARow(w, actions, n);
    FailureStep(Run(w, actions), last, n);
  }

  /** Becoming Ready forgets them all. */
  lemma ReadyForgetsFailures(w: World, a: Action, n: Name)
    requires Inv(w) && n in w.store.objs && n in Apply(w, a).store.objs && StatusOf(w, n).consecutiveFailures >= 0
    requires StatusOf(w, n).phase != Ready && StatusOf(Apply(w, a), n).phase == Ready
    ensures StatusOf(Apply(w, a), n).consecutiveFailures == 0
  {
    FailureStep(w, a, n);
    if Records(w, a, n) {
      RecordingIsNoReadiness(w, a, n);
    }
  }

  lemma RecordingIsNoReadiness(w: World, a: Action, n: Name)
    requires Inv(w) && Records(w, a, n) && n in Apply(w, a).store.objs && StatusOf(w, n).consecutiveFailures >= 0
    ensures StatusOf(Apply(w, a), n).phase != Ready
  {
    if a.Reconcile? {
      var env, order := a.env, a.order;
      var admitted := Admitted(w.store, n, w.now, env.app, order);
      HandlerCounts(StatusOf(w, n), DeploymentOf(w.store, n), ClaimsOf(w.store, n), n, admitted, w.now, env);
      RecordsExactlyThere(StatusOf(w, n), DeploymentOf(w.store, n), ClaimsOf(w.store, n), n, admitted, w.now, env);
      OutcomeMeetsTable(w, n, env, order);
      var h := OutcomeOf(w.store, n, w.now, env, order);
      hide OutcomeOf;
      hide PassOf;
      ReconcileAt(w, n, env, h);
    }
  }

  /** The count is never negative, in any run. */
  ghost predicate Counted(w: World) { forall n :: n in w.store.objs ==> StatusOf(w, n).consecutiveFailures >= 0 }

  lemma StepKeepsCounted(w: World, a: Action)
    requires Inv(w) && Counted(w)
    ensures Counted(Apply(w, a))
  {
    hide Records;
    forall n | n in Apply(w, a).store.objs ensures StatusOf(Apply(w, a), n).consecutiveFailures >= 0 {
      if n in w.store.objs {
        FailureStep(w, a, n);
      } else {
        NewObjectsAreEmpty(w, a, n);
      }
    }
  }

  lemma {:induction false} CountsAreNeverNegative(w: World, actions: seq<Action>)
    requires Inv(w) && Counted(w)
    ensures Inv(Run(w, actions)) && Counted(Run(w, actions))
    decreases |actions|
  {
    hide Apply;
    if actions != [] {
      StepKeepsInv(w, actions[0]);
      StepKeepsCounted(w, actions[0]);
      CountsAreNeverNegative(Apply(w, actions[0]), actions[1..]);
    }
  }

  /** The failover sweep touches Starting workspaces only: with a Deployment, the deadline,
      by the interval it is given; without one, the count and the backoff. */
  lemma SweepTouchesStartsOnly(st: Status, dep: Option<Deployment>, app: App, now: int, leaderless: int)
    requires st.consecutiveFailures >= 0
    ensures SweepStatus(st, dep, app, now, leaderless)
         == if st.phase != Starting then st
            else if dep.Some? then
              st.(startDeadline := if st.startDeadline.Some? then Some(st.startDeadline.value + leaderless) else None)
            else
              st.(consecutiveFailures := st.consecutiveFailures + 1,
                  backoffUntil := Some(now + WaitAfter(st.consecutiveFailures + 1, app.backoffMax)))
  {
  }
}
