/** What the protocol promises a user at work: a wake is never lost to a reap, and no
    session that its replica keeps publishing is ever scaled down. */
module SessionSafety {
  import opened Api
  import opened Reconciliation
  import opened PassFacts
  import opened Protocol
  import opened StepFacts
  import opened FleetSafety
  import Reaping

  lemma {:induction false} RunKeepsInv(w: World, actions: seq<Action>)
    requires Inv(w)
    ensures Inv(Run(w, actions))
    decreases |actions|
  {
    if actions != [] {
      StepKeepsInv(w, actions[0]);
      RunKeepsInv(Apply(w, actions[0]), actions[1..]);
    }
  }

  /** The workspace object is there in every state of the run. */
  ghost predicate Stays(w: World, actions: seq<Action>, n: Name)
    decreases |actions|
  {
    n in w.store.objs && (actions != [] ==> Stays(Apply(w, actions[0]), actions[1..], n))
  }

  // -------------------------------------------------------------------- wakes

  /** A recorded wake, after one more action: still recorded, or cleared by the step that
      moved the workspace to Pending and undid the scale-down. Nothing sends a workspace
      with a wake to Idle. */
  lemma WakeStep(w: World, a: Action, n: Name)
    requires Inv(w) && n in w.store.objs && n in Apply(w, a).store.objs
    requires StatusOf(w, n).wakeRequestedAt.Some?
    ensures var st, st' := StatusOf(w, n), StatusOf(Apply(w, a), n);
      && (st'.wakeRequestedAt.None? ==> st'.phase == Pending && !st'.scaledDown)
      && (st'.phase == Idle ==> st.phase == Idle)
  {
    hide OutcomeOf;
    if a.Tick? || a.name != n {
      OthersKept(w, a, n);
    } else if a.Reconcile? {
      var h := OutcomeOf(w.store, n, w.now, a.env, a.order);
      if Handles(w.store, n, a.env) {
        OutcomeMeetsTable(w, n, a.env, a.order);
        WakeSurvivesPass(StatusOf(w, n), DeploymentOf(w.store, n), ClaimsOf(w.store, n), n,
                         Admitted(w.store, n, w.now, a.env.app, a.order), w.now, a.env, h);
      }
      ReconcileAt(w, n, a.env, h);
    } else {
      WakeKeptByOthers(w, a, n);
    }
  }

  lemma WakeKeptByOthers(w: World, a: Action, n: Name)
    requires Inv(w) && !a.Reconcile? && a.Tick? == false && a.name == n
    requires n in w.store.objs && n in Apply(w, a).store.objs
    ensures var st, st' := StatusOf(w, n), StatusOf(Apply(w, a), n);
      && (st.wakeRequestedAt.Some? ==> st'.wakeRequestedAt.Some?)
      && st'.phase == st.phase
  {
    if WritesStatus(w, a) && a.ScaleDown? {
      LandsOnWhatWasRead(w, a.snap, a.app);
    }
  }

  /** Over any run, a wake that is gone was cleared by a step that brought the workspace
      back to Pending, not scaled down: it was honoured, never lost. */
  lemma {:induction false} WakeIsNeverLost(w: World, actions: seq<Action>, n: Name)
    requires Inv(w) && Stays(w, actions, n)
    requires StatusOf(w, n).wakeRequestedAt.Some?
    requires n in Run(w, actions).store.objs && StatusOf(Run(w, actions), n).wakeRequestedAt.None?
    ensures exists i :: 0 <= i < |actions| && HonoursWake(w, actions, i, n)
    decreases |actions|
  {
    var next, rest := Apply(w, actions[0]), actions[1..];
    StepKeepsInv(w, actions[0]);
    WakeStep(w, actions[0], n);
    if StatusOf(next, n).wakeRequestedAt.None? {
      assert actions[..0] == [] && actions[..1] == [actions[0]];
      assert Run(w, actions[..1]) == Run(next, []);
      assert HonoursWake(w, actions, 0, n);
    } else {
      WakeIsNeverLost(next, rest, n);
      var i :| 0 <= i < |rest| && HonoursWake(next, rest, i, n);
      RunFrom(w, actions, i);
      RunFrom(w, actions, i + 1);
      assert HonoursWake(w, actions, i + 1, n);
    }
  }

  lemma RunFrom(w: World, actions: seq<Action>, i: nat)
    requires i < |actions|
    ensures Run(w, actions[..i + 1]) == Run(Apply(w, actions[0]), actions[1..][..i])
  {
    assert actions[..i + 1][0] == actions[0];
    assert actions[..i + 1][1..] == actions[1..][..i];
  }

  /** Step i of the run clears the wake by moving the workspace to Pending. */
  ghost predicate HonoursWake(w: World, actions: seq<Action>, i: nat, n: Name)
    requires i < |actions|
  {
    var before, after := Run(w, actions[..i]), Run(w, actions[..i + 1]);
    && n in before.store.objs && StatusOf(before, n).wakeRequestedAt.Some?
    && n in after.store.objs && StatusOf(after, n).wakeRequestedAt.None?
    && StatusOf(after, n).phase == Pending && !StatusOf(after, n).scaledDown
  }

  // ----------------------------------------------------------------- sessions

  /** What each replica last published is what it counts, in the entry it owns. */
  ghost predicate ConnInv(w: World) {
    && (forall k :: k in w.conns ==> w.conns[k] >= 0)
    && (forall n :: n in w.store.objs ==> Reaping.NonNegative(StatusOf(w, n).traffic.connections))
    && (forall k :: k in w.beats ==>
          && k.1 in w.store.objs
          && k.0 in StatusOf(w, k.1).traffic.connections
          && StatusOf(w, k.1).traffic.connections[k.0] == ConnectionEntry(CountOf(w, k), w.beats[k]))
  }

  /** Only the routers' own writes touch what the routers own. */
  lemma TrafficKept(w: World, a: Action, n: Name)
    requires Inv(w) && !a.Connection? && !a.EditStatus? && n in w.store.objs && n in Apply(w, a).store.objs
    ensures StatusOf(Apply(w, a), n).traffic == StatusOf(w, n).traffic
  {
    hide OutcomeOf;
    if a.Tick? || a.name != n {
      OthersKept(w, a, n);
    } else if a.Reconcile? {
      var h := OutcomeOf(w.store, n, w.now, a.env, a.order);
      if Handles(w.store, n, a.env) {
        OutcomeMeetsTable(w, n, a.env, a.order);
      }
      ReconcileAt(w, n, a.env, h);
    } else if WritesStatus(w, a) && a.ScaleDown? {
      LandsOnWhatWasRead(w, a.snap, a.app);
    }
  }

  lemma TrafficWritten(w: World, a: Action, n: Name)
    requires n in w.store.objs && n in Apply(w, a).store.objs && (a.Connection? || a.EditStatus?)
    ensures StatusOf(Apply(w, a), n) == if a.name == n && WritesStatus(w, a) then NewStatus(w, a) else StatusOf(w, n)
  {
    hide Edited;
  }

  /** Only publishing changes the connection entries of an object. */
  lemma EntriesKept(w: World, a: Action, n: Name)
    requires Inv(w) && !a.Connection? && n in w.store.objs && n in Apply(w, a).store.objs
    ensures StatusOf(Apply(w, a), n).traffic.connections == StatusOf(w, n).traffic.connections
  {
    hide Apply;
    if a.Connection? || a.EditStatus? {
      TrafficWritten(w, a, n);
    } else {
      TrafficKept(w, a, n);
    }
  }

  /** Activity at least as late as before, and as late as what was just recorded. */
  ghost predicate NoEarlier(before: Option<int>, after: Option<int>) {
    before.Some? ==> after.Some? && after.value >= before.value
  }

  lemma ActivityStep(w: World, a: Action, n: Name)
    requires Inv(w) && n in w.store.objs && n in Apply(w, a).store.objs
    ensures NoEarlier(StatusOf(w, n).traffic.lastActivity, StatusOf(Apply(w, a), n).traffic.lastActivity)
    ensures a.EditStatus? && a.name == n && a.edit.Touch? ==>
      NoEarlier(Some(a.edit.at), StatusOf(Apply(w, a), n).traffic.lastActivity)
  {
    hide Apply;
    if a.Connection? || a.EditStatus? {
      TrafficWritten(w, a, n);
    } else {
      TrafficKept(w, a, n);
    }
  }

  /** Over any run, activity recorded for a workspace never moves backwards, whatever
      order the replicas' writes arrive in. */
  lemma {:induction false} ActivityNeverGoesBack(w: World, actions: seq<Action>, n: Name)
    requires Inv(w) && Stays(w, actions, n)
    ensures n in Run(w, actions).store.objs
    ensures NoEarlier(StatusOf(w, n).traffic.lastActivity, StatusOf(Run(w, actions), n).traffic.lastActivity)
    decreases |actions|
  {
    hide Apply;
    if actions != [] {
      StepKeepsInv(w, actions[0]);
      ActivityStep(w, actions[0], n);
      ActivityNeverGoesBack(Apply(w, actions[0]), actions[1..], n);
    }
  }

  lemma NewObjectsAreEmpty(w: World, a: Action, n: Name)
    requires n !in w.store.objs && n in Apply(w, a).store.objs
    ensures StatusOf(Apply(w, a), n) == EMPTY_STATUS
  {
  }

  lemma QuietStep(w: World, a: Action)
    requires !a.Connection? && !a.PublishFails?
    ensures var w' := Apply(w, a);
      && w'.conns == w.conns
      && (forall k :: k in w'.beats ==> k in w.beats && w'.beats[k] == w.beats[k] && k.1 in w'.store.objs)
  {
    hide OutcomeOf;
    hide ReconcileWith;
  }

  lemma QuietStepKeepsConns(w: World, a: Action)
    requires Inv(w) && ConnInv(w) && !a.Connection? && !a.PublishFails?
    ensures ConnInv(Apply(w, a))
  {
    hide Apply;
    var w' := Apply(w, a);
    QuietStep(w, a);
    forall n | n in w'.store.objs ensures Reaping.NonNegative(StatusOf(w', n).traffic.connections) {
      if n in w.store.objs {
        EntriesKept(w, a, n);
      } else {
        NewObjectsAreEmpty(w, a, n);
      }
    }
    forall k | k in w'.beats
      ensures && k.1 in w'.store.objs
              && k.0 in StatusOf(w', k.1).traffic.connections
              && StatusOf(w', k.1).traffic.connections[k.0] == ConnectionEntry(CountOf(w', k), w'.beats[k])
    {
      EntriesKept(w, a, k.1);
    }
  }

  /** What a publish leaves in the store and in the replica's memory. */
  lemma Published(w: World, a: Action)
    requires a.Connection?
    ensures var w', n, count := Apply(w, a), a.name, NextCount(w, a.pod, a.name, a.event);
      && (if WritesStatus(w, a) then
            && n in w'.store.objs
            && StatusOf(w', n).traffic.connections == StatusOf(w, n).traffic.connections[a.pod := ConnectionEntry(count, w.now)]
            && w'.beats == w.beats[(a.pod, n) := w.now]
          else w'.store == w.store && w'.beats == Surviving(w.beats, w.store))
      && CountOf(w', (a.pod, n)) == count && count >= Min(0, CountOf(w, (a.pod, n)))
      && (forall k :: k != (a.pod, n) ==> (k in w'.conns <==> k in w.conns) && CountOf(w', k) == CountOf(w, k))
  {
  }

  lemma EntryAt(w: World, a: Action, k: (string, Name))
    requires ConnInv(w) && a.Connection? && k in Apply(w, a).beats
    ensures var w' := Apply(w, a);
      && k.1 in w'.store.objs
      && k.0 in StatusOf(w', k.1).traffic.connections
      && StatusOf(w', k.1).traffic.connections[k.0] == ConnectionEntry(CountOf(w', k), w'.beats[k])
  {
    hide Apply;
    Published(w, a);
    if k.1 != a.name {
      OthersKept(w, a, k.1);
    }
  }

  lemma PublishStepKeepsConns(w: World, a: Action)
    requires ConnInv(w) && a.Connection?
    ensures ConnInv(Apply(w, a))
  {
    hide Apply;
    var w' := Apply(w, a);
    Published(w, a);
    forall n | n in w'.store.objs ensures Reaping.NonNegative(StatusOf(w', n).traffic.connections) {
      if n != a.name {
        OthersKept(w, a, n);
      }
    }
    forall k | k in w'.beats
      ensures && k.1 in w'.store.objs
              && k.0 in StatusOf(w', k.1).traffic.connections
              && StatusOf(w', k.1).traffic.connections[k.0] == ConnectionEntry(CountOf(w', k), w'.beats[k])
    {
      EntryAt(w, a, k);
    }
  }

  /** A publish that fails changes a count at most, and then says nothing of its entry. */
  lemma UnpublishedKeepsConns(w: World, a: Action)
    requires ConnInv(w) && a.PublishFails?
    ensures ConnInv(Apply(w, a))
  {
  }

  /** In every state of every run, failing publishes included: no count is negative, and
      wherever a replica's last change of count was published to the present object, its
      entry is what it counts. */
  lemma {:induction false} RunKeepsConns(w: World, actions: seq<Action>)
    requires Inv(w) && ConnInv(w)
    ensures Inv(Run(w, actions)) && ConnInv(Run(w, actions))
    decreases |actions|
  {
    if actions != [] {
      var a := actions[0];
      StepKeepsInv(w, a);
      if a.Connection? {
        PublishStepKeepsConns(w, a);
      } else if a.PublishFails? {
        UnpublishedKeepsConns(w, a);
      } else {
        QuietStepKeepsConns(w, a);
      }
      RunKeepsConns(Apply(w, a), actions[1..]);
    }
  }

  /** If the replica has open connections on the workspace, and the workspace is there,
      it has published to it within the last two heartbeat intervals. */
  ghost predicate Timely(w: World, k: (string, Name), heartbeat: int) {
    k in w.conns && w.conns[k] > 0 && k.1 in w.store.objs ==> k in w.beats && w.now - w.beats[k] < 2 * heartbeat
  }

  /** Over every run: when the reaper's write goes through, a replica that has published to
      that workspace in time holds no connection to it, whatever the other replicas do and
      although the reaper read and wrote in separate steps with any number of actions in
      between. */
  lemma NoLiveSessionIsReaped(w: World, actions: seq<Action>, snap: Snapshot, app: App, pod: string)
    requires Initial(w)
    requires var w' := Run(w, actions);
      && Lands(w', snap, app) && Timely(w', (pod, snap.name), app.heartbeatInterval)
      && Reaping.FreshTotal(StatusOf(w', snap.name).traffic.connections, snap.passNow, 2 * app.heartbeatInterval) < 2 * Reaping.TWO_31
    ensures var w' := Run(w, actions);
      (pod, snap.name) in w'.conns ==> w'.conns[(pod, snap.name)] == 0
  {
    RunKeepsConns(w, actions);
    var w' := Run(w, actions);
    LandsOnWhatWasRead(w', snap, app);
    var k, entries, threshold := (pod, snap.name), StatusOf(w', snap.name).traffic.connections, 2 * app.heartbeatInterval;
    Reaping.FreshTotalNonNegative(entries, snap.passNow, threshold);
    assert Reaping.FreshTotal(entries, snap.passNow, threshold) == 0;
    if k in w'.beats && w'.now - w'.beats[k] < threshold {
      Reaping.NothingFresh(entries, snap.passNow, threshold, pod);
    }
  }

  /** Over every run: whatever step turns scaledDown on is the reaper's, and finds a Ready
      workspace whose last recorded activity is longer ago than the timeout was when the
      pass began. */
  lemma OnlyTheIdleAreReaped(w: World, actions: seq<Action>, a: Action, n: Name)
    requires Initial(w)
    requires var before := Run(w, actions); var after := Apply(before, a);
      && n in before.store.objs && n in after.store.objs
      && !StatusOf(before, n).scaledDown && StatusOf(after, n).scaledDown
    ensures var before := Run(w, actions); var st := StatusOf(before, n);
      && a.ScaleDown? && a.snap.name == n && a.snap.passNow <= before.now
      && st.phase == Ready && st.traffic.lastActivity.Some?
      && st.traffic.lastActivity.value + a.app.idleTimeout < a.snap.passNow
  {
    RunKeepsInv(w, actions);
    var before := Run(w, actions);
    ScaledDownBy(before, a, n);
    LandsOnWhatWasRead(before, a.snap, a.app);
    Reaping.ReapableExactly(StatusOf(before, n), a.app, a.snap.passNow);
  }

  lemma ScaledDownBy(w: World, a: Action, n: Name)
    requires Inv(w) && n in w.store.objs && n in Apply(w, a).store.objs
    requires !StatusOf(w, n).scaledDown && StatusOf(Apply(w, a), n).scaledDown
    ensures a.ScaleDown? && a.name == n && WritesStatus(w, a)
  {
    if a.Tick? || a.name != n {
      OthersKept(w, a, n);
    } else if a.Reconcile? {
      NoPassScalesDown(w, n, a.env, a.order);
    }
  }

  lemma NoPassScalesDown(w: World, n: Name, env: Env, order: seq<Name>)
    requires Inv(w) && n in w.store.objs && n in Apply(w, Reconcile(n, env, order)).store.objs
    ensures StatusOf(Apply(w, Reconcile(n, env, order)), n).scaledDown ==> StatusOf(w, n).scaledDown
  {
    hide OutcomeOf;
    var h := OutcomeOf(w.store, n, w.now, env, order);
    if Handles(w.store, n, env) {
      OutcomeMeetsTable(w, n, env, order);
    }
    ReconcileAt(w, n, env, h);
  }

  // ------------------------------------------------------------ failed opens

  predicate Opens(a: Action, k: (string, Name)) {
    (a.Connection? || a.PublishFails?) && a.event.Open? && (a.pod, a.name) == k
  }

  predicate Closes(a: Action, k: (string, Name)) {
    (a.Connection? || a.PublishFails?) && a.event.Close? && (a.pod, a.name) == k
  }

  /** The caller closes what it opened only if the open reported no error. */
  predicate OpenFails(w: World, a: Action, k: (string, Name)) {
    Opens(a, k) && (a.PublishFails? || a.name !in w.store.objs)
  }

  /** The connections open under k that their callers will close. */
  function Tracked(w: World, a: Action, k: (string, Name), tracked: int): int {
    if Opens(a, k) && !OpenFails(w, a, k) then tracked + 1
    else if Closes(a, k) then tracked - 1
    else tracked
  }

  ghost function TrackedAfter(w: World, actions: seq<Action>, k: (string, Name), tracked: int): int
    decreases |actions|
  {
    if actions == [] then tracked
    else TrackedAfter(Apply(w, actions[0]), actions[1..], k, Tracked(w, actions[0], k, tracked))
  }

  ghost function FailedOpens(w: World, actions: seq<Action>, k: (string, Name)): nat
    decreases |actions|
  {
    if actions == [] then 0
    else (if OpenFails(w, actions[0], k) then 1 else 0) + FailedOpens(Apply(w, actions[0]), actions[1..], k)
  }

  /** Every close belongs to an open that reported no error. */
  ghost predicate Paired(w: World, actions: seq<Action>, k: (string, Name), tracked: int)
    decreases |actions|
  {
    && tracked >= 0
    && (actions != [] ==> Paired(Apply(w, actions[0]), actions[1..], k, Tracked(w, actions[0], k, tracked)))
  }

  lemma CountStep(w: World, a: Action, k: (string, Name))
    ensures CountOf(Apply(w, a), k)
         == if Opens(a, k) then CountOf(w, k) + 1
            else if Closes(a, k) then (if k in w.conns then Max(CountOf(w, k) - 1, 0) else 0)
            else CountOf(w, k)
  {
    hide OutcomeOf;
    hide ReconcileWith;
  }

  /** What a replica counts is the connections that will be closed plus the opens whose
      publish failed, which nobody closes. */
  lemma {:induction false} CountsFailedOpens(w: World, actions: seq<Action>, k: (string, Name), tracked: int, failed: nat)
    requires CountOf(w, k) == tracked + failed && Paired(w, actions, k, tracked)
    ensures CountOf(Run(w, actions), k) == TrackedAfter(w, actions, k, tracked) + failed + FailedOpens(w, actions, k)
    ensures TrackedAfter(w, actions, k, tracked) >= 0
    decreases |actions|
  {
    hide Apply;
    if actions != [] {
      var a, rest := actions[0], actions[1..];
      CountStep(w, a, k);
      assert Paired(Apply(w, a), rest, k, Tracked(w, a, k, tracked));
      CountsFailedOpens(Apply(w, a), rest, k, Tracked(w, a, k, tracked), failed + if OpenFails(w, a, k) then 1 else 0);
    }
  }

  /** One failed open and heartbeats in time keep a workspace from ever being scaled down
      again, with no connection to it left. */
  lemma FailedOpenPinsTheWorkspace(w: World, actions: seq<Action>, snap: Snapshot, app: App, pod: string)
    requires Initial(w) && Paired(w, actions, (pod, snap.name), 0)
    requires FailedOpens(w, actions, (pod, snap.name)) > 0
    requires var w' := Run(w, actions);
      && snap.name in w'.store.objs && Timely(w', (pod, snap.name), app.heartbeatInterval)
      && Reaping.FreshTotal(StatusOf(w', snap.name).traffic.connections, snap.passNow, 2 * app.heartbeatInterval) < 2 * Reaping.TWO_31
    ensures !Lands(Run(w, actions), snap, app)
  {
    hide Apply;
    CountsFailedOpens(w, actions, (pod, snap.name), 0, 0);
    if Lands(Run(w, actions), snap, app) {
      NoLiveSessionIsReaped(w, actions, snap, app, pod);
    }
  }
}
