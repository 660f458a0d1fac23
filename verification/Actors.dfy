/** The actors beside the reconciler, with the loops they run over many workspaces: the
    failover sweep, the reaper's pass, and a router replica's connection tracker. Each
    loop is shown to be a run of protocol steps, so what holds of every run holds of it. */
module Actors {
  import opened Api
  import opened Reconciliation
  import opened Protocol
  import opened WorkspaceController
  import Ordering
  import Backoff
  import Reaping

  // ------------------------------------------------------- writes in a sequence

  /** Each named workspace that is there has its status edited in turn. */
  ghost function WriteEach(s: Store, names: seq<Name>, edit: (Name, Status) -> Status): (t: Store)
    ensures t.objs.Keys == s.objs.Keys && t.deps == s.deps && t.claims == s.claims
  {
    if names == [] then s
    else
      var t, n := WriteEach(s, names[..|names| - 1], edit), names[|names| - 1];
      if n in t.objs then WriteStatus(t, n, edit(n, t.objs[n].ws.status)) else t
  }

  /** Naming each workspace once, every named one is edited once and no other is touched. */
  lemma {:induction false} WriteEachAt(s: Store, names: seq<Name>, edit: (Name, Status) -> Status, n: Name)
    requires Ordering.Distinct(names) && n in s.objs
    ensures var t := WriteEach(s, names, edit);
      if n in names then t.objs[n].ws == s.objs[n].ws.(status := edit(n, s.objs[n].ws.status))
      else t.objs[n] == s.objs[n]
  {
    if names != [] {
      var front, last := names[..|names| - 1], names[|names| - 1];
      assert names == front + [last];
      WriteEachAt(s, front, edit, n);
    }
  }

  /** The next write of the sequence finds its workspace as it was at the start. */
  lemma WriteEachNext(s: Store, names: seq<Name>, i: nat, edit: (Name, Status) -> Status)
    requires Ordering.Distinct(names) && i < |names| && names[i] in s.objs
    ensures var t, n := WriteEach(s, names[..i], edit), names[i];
      && t.objs[n] == s.objs[n]
      && WriteEach(s, names[..i + 1], edit) == WriteStatus(t, n, edit(n, s.objs[n].ws.status))
  {
    assert names[..i + 1][..i] == names[..i] && names[..i + 1][i] == names[i];
    WriteEachAt(s, names[..i], edit, names[i]);
  }

  lemma {:induction false} RunSnoc(w: World, actions: seq<Action>, a: Action)
    ensures Run(w, actions + [a]) == Apply(Run(w, actions), a)
    decreases |actions|
  {
    hide Apply;
    if actions == [] {
      assert ([] + [a])[1..] == [];
      assert Run(Apply(w, a), []) == Apply(w, a);
    } else {
      assert (actions + [a])[1..] == actions[1..] + [a];
      RunSnoc(Apply(w, actions[0]), actions[1..], a);
    }
  }

  // ---------------------------------------------------------- the failover sweep

  ghost function SweepEdit(deps: map<Name, Deployment>, app: App, now: int, leaderless: int): (Name, Status) -> Status {
    (n: Name, st: Status) => SweepStatus(st, if n in deps then Some(deps[n]) else None, app, now, leaderless)
  }

  function Sweeps(names: seq<Name>, app: App, leaderless: int): seq<Action> {
    seq(|names|, i requires 0 <= i < |names| => EditStatus(names[i], Sweep(app, leaderless)))
  }

  /** None of the starts among the names has a call fail. */
  ghost predicate NoneFails(objs: map<Name, Stored>, names: seq<Name>, failing: set<Name>) {
    forall n :: n in names && n in objs && objs[n].ws.status.phase == Starting ==> n !in failing
  }

  lemma NoneFailsNext(objs: map<Name, Stored>, names: seq<Name>, i: nat, failing: set<Name>)
    requires i < |names| && NoneFails(objs, names[..i], failing)
    requires names[i] in objs && !(objs[names[i]].ws.status.phase == Starting && names[i] in failing)
    ensures NoneFails(objs, names[..i + 1], failing)
  {
    assert names[..i + 1] == names[..i] + [names[i]];
  }

  class Admitter {
    const api: ApiServer

    constructor (api: ApiServer)
      ensures this.api == api
    {
      this.api := api;
    }

    /** Record an orphan as a failed start; extend the deadline of a start under way;
        leave everything else alone. Only a start needs a call that can fail. */
    method SweepOne(n: Name, st: Status, app: App, now: int, leaderless: int, failing: set<Name>) returns (failed: bool)
      requires n in api.objs && api.objs[n].ws.status == st && Backoff.IsInt64(app.backoffMax)
      modifies api`objs, api`nextVersion
      ensures failed <==> st.phase == Starting && n in failing
      ensures api.View() == if failed then old(api.View())
                            else WriteStatus(old(api.View()), n, SweepEdit(api.deps, app, now, leaderless)(n, st))
    {
      if st.phase != Starting {
        return false;
      }
      if n in failing {
        return true;
      }
      if n !in api.deps {
        var failures := st.consecutiveFailures + 1;
        var delay := Backoff.BackoffDuration(failures, app.backoffMax);
        api.ChangeStatus(n, st.(consecutiveFailures := failures, backoffUntil := Some(now + delay)));
      } else if st.startDeadline.Some? {
        api.ChangeStatus(n, st.(startDeadline := Some(st.startDeadline.value + leaderless)));
      }
      return false;
    }

    /** Walk the list as it was read: an orphan is recorded as a failed start, a start
        under way has its deadline extended, and nothing else is written. The walk ends
        early at the first workspace for which a call fails. */
    method OnLeaseAcquired(app: App, now: int, leaderless: int, order: seq<Name>, failing: set<Name>) returns (swept: nat)
      requires Lists(order, api.objs) && Backoff.IsInt64(app.backoffMax)
      modifies api`objs, api`nextVersion
      ensures swept <= |order|
      ensures NoneFails(old(api.objs), order[..swept], failing)
      ensures swept < |order| ==> old(api.objs[order[swept]].ws.status.phase) == Starting && order[swept] in failing
      ensures api.View() == WriteEach(old(api.View()), order[..swept], SweepEdit(api.deps, app, now, leaderless))
    {
      var list := api.objs;
      ghost var edit := SweepEdit(api.deps, app, now, leaderless);
      assert WriteEach(api.View(), order[..0], edit) == api.View();
      assert Ordering.Distinct(order) && forall i :: 0 <= i < |order| ==> order[i] in list;
      hide Lists;
      hide SweepEdit;
      hide WriteEach;
      hide WriteStatus;
      hide Ordering.Distinct;
      swept := 0;
      assert NoneFails(list, order[..0], failing);
      hide NoneFails;
      while swept < |order|
        invariant swept <= |order|
        invariant api.objs.Keys == list.Keys
        invariant NoneFails(list, order[..swept], failing)
        invariant api.View() == WriteEach(old(api.View()), order[..swept], edit)
      {
        var n := order[swept];
        WriteEachNext(old(api.View()), order, swept, edit);
        var failed := SweepOne(n, list[n].ws.status, app, now, leaderless, failing);
        if failed {
          return;
        }
        NoneFailsNext(list, order, swept, failing);
        swept := swept + 1;
      }
    }
  }

  /** The sweep is a run of protocol steps. */
  lemma {:induction false} SweepIsARun(w: World, names: seq<Name>, app: App, leaderless: int)
    ensures var w' := Run(w, Sweeps(names, app, leaderless));
      && w'.store == WriteEach(w.store, names, SweepEdit(w.store.deps, app, w.now, leaderless))
      && w'.now == w.now
  {
    if names != [] {
      var front, n := names[..|names| - 1], names[|names| - 1];
      SweepIsARun(w, front, app, leaderless);
      assert Sweeps(names, app, leaderless) == Sweeps(front, app, leaderless) + [EditStatus(n, Sweep(app, leaderless))];
      RunSnoc(w, Sweeps(front, app, leaderless), EditStatus(n, Sweep(app, leaderless)));
    }
  }

  // ------------------------------------------------------------------ the reaper

  /** The conditional writes of a pass over what it read, each against the store the
      one before it left. */
  ghost function ReapEach(s: Store, snaps: seq<Snapshot>, app: App, failing: set<Name>): (t: Store)
    ensures t.objs.Keys == s.objs.Keys
  {
    if snaps == [] then s
    else
      var t, snap := ReapEach(s, snaps[..|snaps| - 1], app, failing), snaps[|snaps| - 1];
      if && Reaping.IsReapable(snap.ws.status, app, snap.passNow) && snap.name !in failing
         && snap.name in t.objs && t.objs[snap.name].version == snap.version
      then WriteStatus(t, snap.name, snap.ws.status.(scaledDown := true))
      else t
  }

  ghost predicate DistinctSnapshots(snaps: seq<Snapshot>) {
    forall i, j :: 0 <= i < j < |snaps| ==> snaps[i].name != snaps[j].name
  }

  ghost predicate Reaps(s: Store, snap: Snapshot, app: App, failing: set<Name>) {
    && Reaping.IsReapable(snap.ws.status, app, snap.passNow) && snap.name !in failing
    && snap.name in s.objs && s.objs[snap.name].version == snap.version
  }

  /** Ready, not scaled down, idle for longer than the timeout, nobody there, and still as it
      was read. */
  ghost predicate Due(s: Store, snap: Snapshot, app: App, failing: set<Name>) {
    && snap.name !in failing && snap.name in s.objs && s.objs[snap.name].version == snap.version
    && !snap.ws.status.scaledDown
    && Reaping.IdleFor(snap.ws.status, app.idleTimeout, snap.passNow)
    && Reaping.NobodyThere(snap.ws.status, app.heartbeatInterval, snap.passNow)
  }

  /** Whatever is due is scaled down, and whatever is written was idle. */
  ghost predicate ReapedTheIdle(s: Store, t: Store, snaps: seq<Snapshot>, app: App, failing: set<Name>) {
    && (forall i :: 0 <= i < |snaps| && Due(s, snaps[i], app, failing) ==>
          snaps[i].name in t.objs && t.objs[snaps[i].name].ws.status.scaledDown)
    && (forall n :: n in s.objs && n in t.objs && t.objs[n] != s.objs[n] ==>
          exists i :: 0 <= i < |snaps| && snaps[i].name == n && Reaping.IdleFor(snaps[i].ws.status, app.idleTimeout, snaps[i].passNow))
  }

  /** Each workspace is written for its own snapshot, against what was there at the start. */
  lemma {:induction false} ReapEachAt(s: Store, snaps: seq<Snapshot>, app: App, failing: set<Name>, n: Name)
    requires DistinctSnapshots(snaps) && n in s.objs
    ensures var t := ReapEach(s, snaps, app, failing);
      && n in t.objs
      && (forall i :: 0 <= i < |snaps| && snaps[i].name == n ==>
            if Reaps(s, snaps[i], app, failing)
            then t.objs[n].ws == s.objs[n].ws.(status := snaps[i].ws.status.(scaledDown := true))
            else t.objs[n] == s.objs[n])
      && ((forall i :: 0 <= i < |snaps| ==> snaps[i].name != n) ==> t.objs[n] == s.objs[n])
  {
    hide Reaping.IsReapable;
    if snaps != [] {
      var front, last := snaps[..|snaps| - 1], snaps[|snaps| - 1];
      ReapEachAt(s, front, app, failing, n);
      assert forall i :: 0 <= i < |front| ==> front[i] == snaps[i];
    }
  }

  class Reaper {
    const api: ApiServer

    constructor (api: ApiServer)
      ensures this.api == api
    {
      this.api := api;
    }

    /** The one write: scaledDown on the version that was read, or nothing. */
    method ScaleDown(snap: Snapshot) returns (answer: UpdateAnswer)
      modifies api`objs, api`nextVersion
      ensures answer == if snap.name !in old(api.objs) then NotFound
                        else if old(api.objs[snap.name].version) != snap.version then Conflict else Written
      ensures api.View() == if answer == Written
                            then WriteStatus(old(api.View()), snap.name, snap.ws.status.(scaledDown := true))
                            else old(api.View())
    {
      var target := snap.ws.status.(scaledDown := true);
      answer := api.UpdateStatus(snap.name, snap.version, target);
    }

    /** A pass over a list read before: a lost race is no error, but a workspace that is
        gone is; and an error on one workspace does not keep the pass from the rest. Every
        Ready workspace idle for longer than the timeout, with nobody there and still as it
        was read, is scaled down, unless its call fails; and only idle ones are. */
    method ReapApp(snaps: seq<Snapshot>, app: App, failing: set<Name>) returns (failed: bool)
      modifies api`objs, api`nextVersion
      ensures api.View() == ReapEach(old(api.View()), snaps, app, failing)
      ensures failed <==> exists i :: 0 <= i < |snaps| && (snaps[i].name in failing || snaps[i].name !in old(api.objs))
                                   && Reaping.IsReapable(snaps[i].ws.status, app, snaps[i].passNow)
      ensures DistinctSnapshots(snaps) ==> ReapedTheIdle(old(api.View()), api.View(), snaps, app, failing)
    {
      hide Reaping.IsReapable;
      hide WriteStatus;
      failed := false;
      for i := 0 to |snaps|
        invariant api.View() == ReapEach(old(api.View()), snaps[..i], app, failing)
        invariant api.objs.Keys == old(api.objs.Keys)
        invariant failed <==> exists j :: 0 <= j < i && (snaps[j].name in failing || snaps[j].name !in old(api.objs))
                                       && Reaping.IsReapable(snaps[j].ws.status, app, snaps[j].passNow)
      {
        assert snaps[..i + 1][..i] == snaps[..i];
        var reapable := Reaping.CheckReapable(snaps[i].ws.status, app, snaps[i].passNow);
        if reapable {
          if snaps[i].name in failing {
            failed := true;
          } else {
            var answer := ScaleDown(snaps[i]);
            if answer == NotFound {
              failed := true;
            }
          }
        }
      }
      assert snaps[..|snaps|] == snaps;
      ReapsTheIdle(old(api.View()), snaps, app, failing);
    }
  }

  lemma ReapsTheIdle(s: Store, snaps: seq<Snapshot>, app: App, failing: set<Name>)
    ensures DistinctSnapshots(snaps) ==> ReapedTheIdle(s, ReapEach(s, snaps, app, failing), snaps, app, failing)
  {
    hide ReapEach;
    hide Reaping.IsReapable;
    hide Reaping.NobodyThere;
    hide Reaping.IdleFor;
    var t := ReapEach(s, snaps, app, failing);
    if DistinctSnapshots(snaps) {
      forall i | 0 <= i < |snaps| && Due(s, snaps[i], app, failing)
        ensures snaps[i].name in t.objs && t.objs[snaps[i].name].ws.status.scaledDown
      {
        Reaping.ReapableExactly(snaps[i].ws.status, app, snaps[i].passNow);
        ReapEachAt(s, snaps, app, failing, snaps[i].name);
      }
      forall n | n in s.objs && n in t.objs && t.objs[n] != s.objs[n]
        ensures exists i :: 0 <= i < |snaps| && snaps[i].name == n && Reaping.IdleFor(snaps[i].ws.status, app.idleTimeout, snaps[i].passNow)
      {
        ReapEachAt(s, snaps, app, failing, n);
        var i :| 0 <= i < |snaps| && snaps[i].name == n;
        assert Reaps(s, snaps[i], app, failing);
        Reaping.ReapableExactly(snaps[i].ws.status, app, snaps[i].passNow);
      }
    }
  }

  /** The writes of a pass whose failing calls never reach the store. */
  function ScaleDowns(snaps: seq<Snapshot>, app: App, failing: set<Name>): seq<Action> {
    if snaps == [] then []
    else
      var front, snap := ScaleDowns(snaps[..|snaps| - 1], app, failing), snaps[|snaps| - 1];
      if snap.name in failing then front else front + [Protocol.ScaleDown(snap.name, snap, app)]
  }

  /** A pass over snapshots the reaper took is a run of protocol steps. */
  lemma {:induction false} ReapIsARun(w: World, snaps: seq<Snapshot>, app: App, failing: set<Name>)
    requires forall i :: 0 <= i < |snaps| ==> snaps[i] in w.snaps
    ensures var w' := Run(w, ScaleDowns(snaps, app, failing));
      w'.store == ReapEach(w.store, snaps, app, failing) && w'.snaps == w.snaps
  {
    if snaps != [] {
      var front, snap := snaps[..|snaps| - 1], snaps[|snaps| - 1];
      ReapIsARun(w, front, app, failing);
      RunSnoc(w, ScaleDowns(front, app, failing), Protocol.ScaleDown(snap.name, snap, app));
    }
  }

  // ---------------------------------------------------------- connection tracking

  ghost function PublishEdit(pod: string, counts: map<Name, int>, now: int, failing: set<Name>): (Name, Status) -> Status {
    (n: Name, st: Status) =>
      if n in counts && n !in failing then PublishStatus(st, pod, ConnectionEntry(counts[n], now)) else st
  }

  /** One router replica's in-memory counts, each published as it changes and again on
      every heartbeat, zero or not. */
  class ConnectionTracker {
    const api: ApiServer
    const pod: string
    var counts: map<Name, int>

    constructor (api: ApiServer, pod: string)
      ensures this.api == api && this.pod == pod && counts == map[]
    {
      this.api := api;
      this.pod := pod;
      counts := map[];
    }

    method Publish(n: Name, count: int, now: int, failing: set<Name>) returns (failed: bool)
      modifies api`objs, api`nextVersion
      ensures failed <==> n in failing || n !in old(api.objs)
      ensures api.View() == if failed then old(api.View())
        else WriteStatus(old(api.View()), n, PublishStatus(old(api.objs[n].ws.status), pod, ConnectionEntry(count, now)))
    {
      if n in failing || n !in api.objs {
        return true;
      }
      var st := api.objs[n].ws.status;
      st := st.(traffic := st.traffic.(connections := st.traffic.connections[pod := ConnectionEntry(count, now)]));
      api.ChangeStatus(n, st);
      return false;
    }

    method Open(n: Name, now: int, failing: set<Name>) returns (failed: bool)
      modifies this`counts, api`objs, api`nextVersion
      ensures counts == old(counts)[n := if n in old(counts) then old(counts[n]) + 1 else 1]
      ensures failed <==> n in failing || n !in old(api.objs)
      ensures api.View() == WriteEach(old(api.View()), [n], PublishEdit(pod, counts, now, failing))
    {
      var count := if n in counts then counts[n] else 0;
      counts := counts[n := count + 1];
      assert [n][..0] == [];
      failed := Publish(n, count + 1, now, failing);
    }

    method Close(n: Name, now: int, failing: set<Name>) returns (failed: bool)
      modifies this`counts, api`objs, api`nextVersion
      ensures counts == if n in old(counts) && old(counts[n]) > 0 then old(counts)[n := old(counts[n]) - 1] else old(counts)
      ensures failed <==> n in failing || n !in old(api.objs)
      ensures api.View() == WriteEach(old(api.View()), [n],
        PublishEdit(pod, if n in counts then counts else counts[n := 0], now, failing))
    {
      if n in counts && counts[n] > 0 {
        counts := counts[n := counts[n] - 1];
      }
      var count := if n in counts then counts[n] else 0;
      assert [n][..0] == [];
      failed := Publish(n, count, now, failing);
    }

    /** Republish every count this replica has ever held, in whatever order the map
        yields them; a failed publish keeps no other from being made. */
    method HeartbeatAll(now: int, failing: set<Name>) returns (keys: seq<Name>)
      modifies api`objs, api`nextVersion
      ensures Ordering.Distinct(keys) && forall n :: n in keys <==> n in counts
      ensures api.View() == WriteEach(old(api.View()), keys, PublishEdit(pod, counts, now, failing))
    {
      var left := counts.Keys;
      keys := [];
      while left != {}
        invariant Ordering.Distinct(keys)
        invariant forall n :: n in counts <==> n in keys || n in left
        invariant forall n :: n in left ==> n !in keys
        invariant counts == old(counts)
        decreases left
      {
        var n :| n in left;
        keys, left := keys + [n], left - {n};
      }
      var vals := counts;
      for i := 0 to |keys|
        invariant counts == vals
        invariant api.View() == WriteEach(old(api.View()), keys[..i], PublishEdit(pod, vals, now, failing))
      {
        assert keys[..i + 1][..i] == keys[..i];
        var failed := Publish(keys[i], vals[keys[i]], now, failing);
      }
      assert keys[..|keys|] == keys;
    }
  }

  /** The counts of one replica are its part of the protocol's. */
  ghost predicate Holds(w: World, pod: string, counts: map<Name, int>) {
    forall n :: (n in counts <==> (pod, n) in w.conns) && (n in counts ==> counts[n] == w.conns[(pod, n)])
  }

  /** A connection event whose publish goes through, or does not. */
  function Event(n: Name, pod: string, event: ConnEvent, failing: set<Name>): Action {
    if n in failing then PublishFails(n, pod, event) else Connection(n, pod, event)
  }

  function Heartbeats(pod: string, names: seq<Name>, failing: set<Name>): seq<Action> {
    seq(|names|, i requires 0 <= i < |names| => Event(names[i], pod, Heartbeat, failing))
  }

  lemma HeartbeatStep(w: World, pod: string, counts: map<Name, int>, n: Name, failing: set<Name>)
    requires Holds(w, pod, counts) && n in counts
    ensures var w', s := Apply(w, Event(n, pod, Heartbeat, failing)), w.store;
      && w'.store == (if n in s.objs then WriteStatus(s, n, PublishEdit(pod, counts, w.now, failing)(n, s.objs[n].ws.status)) else s)
      && w'.conns == w.conns && w'.now == w.now
  {
  }

  /** A round of heartbeats is a run of protocol steps. */
  lemma {:induction false} HeartbeatIsARun(w: World, pod: string, counts: map<Name, int>, names: seq<Name>, failing: set<Name>)
    requires Holds(w, pod, counts) && forall i :: 0 <= i < |names| ==> names[i] in counts
    ensures var w' := Run(w, Heartbeats(pod, names, failing));
      && w'.store == WriteEach(w.store, names, PublishEdit(pod, counts, w.now, failing))
      && w'.conns == w.conns && w'.now == w.now
  {
    hide Apply;
    hide PublishEdit;
    hide WriteStatus;
    hide Event;
    if names != [] {
      var front, n := names[..|names| - 1], names[|names| - 1];
      HeartbeatIsARun(w, pod, counts, front, failing);
      HeartbeatStep(Run(w, Heartbeats(pod, front, failing)), pod, counts, n, failing);
      assert Heartbeats(pod, names, failing) == Heartbeats(pod, front, failing) + [Event(n, pod, Heartbeat, failing)];
      RunSnoc(w, Heartbeats(pod, front, failing), Event(n, pod, Heartbeat, failing));
    }
  }

  /** So are opening and closing. */
  lemma OpenAndCloseAreSteps(w: World, pod: string, counts: map<Name, int>, n: Name, opens: bool, failing: set<Name>)
    requires Holds(w, pod, counts) && forall m :: m in counts ==> counts[m] >= 0
    ensures var count := if n in counts then counts[n] else 0;
      var counts' := if opens then counts[n := count + 1] else if count > 0 then counts[n := count - 1] else counts;
      var w' := Apply(w, Event(n, pod, if opens then Open else Close, failing));
      && Holds(w', pod, counts')
      && w'.store == WriteEach(w.store, [n], PublishEdit(pod, if n in counts' then counts' else counts'[n := 0], w.now, failing))
  {
    hide OutcomeOf;
    hide ReconcileWith;
    assert [n][..0] == [];
  }

  /** Record activity at a time, unless a later one is on record. */
  method TouchActivity(api: ApiServer, n: Name, at: int) returns (failed: bool)
    modifies api`objs, api`nextVersion
    ensures failed <==> n !in old(api.objs)
    ensures api.View() == if failed then old(api.View())
                          else WriteStatus(old(api.View()), n, TouchStatus(old(api.objs[n].ws.status), at))
  {
    if n !in api.objs {
      return true;
    }
    var st := api.objs[n].ws.status;
    if st.traffic.lastActivity.Some? && st.traffic.lastActivity.value >= at {
      return false;
    }
    api.ChangeStatus(n, st.(traffic := st.traffic.(lastActivity := Some(at))));
    return false;
  }
}
