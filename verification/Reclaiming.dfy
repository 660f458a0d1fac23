/** Which workspaces a reclaim pass takes: the least recently active reclaimable ones, as
    many as the fleet is over its target. */
module Reclaiming {
  import opened Api
  import opened Ordering
  import Reaping

  ghost predicate IsReclaimable(ws: Workspace, app: App, minIdleAge: int, now: int) {
    && !ws.deleting
    && (ws.status.phase == Idle || ws.status.phase == Failed)
    && ws.status.traffic.lastActivity.Some?
    && now - ws.status.traffic.lastActivity.value >= minIdleAge
    && Reaping.Wrap32(Reaping.FreshTotal(ws.status.traffic.connections, now, 2 * app.heartbeatInterval)) == 0
  }

  method CheckReclaimable(ws: Workspace, app: App, minIdleAge: int, now: int) returns (reclaimable: bool)
    ensures reclaimable <==> IsReclaimable(ws, app, minIdleAge, now)
  {
    if ws.deleting { return false; }
    if ws.status.phase != Idle && ws.status.phase != Failed { return false; }
    if ws.status.traffic.lastActivity.None? { return false; }
    if now - ws.status.traffic.lastActivity.value < minIdleAge { return false; }
    var count := Reaping.FreshConnectionCount(ws.status.traffic.connections, app.heartbeatInterval, now);
    return count == 0;
  }

  function Live(list: seq<Workspace>): seq<Workspace> {
    if list == [] then []
    else if list[|list| - 1].deleting then Live(list[..|list| - 1])
    else Live(list[..|list| - 1]) + [list[|list| - 1]]
  }

  ghost function Reclaimable(list: seq<Workspace>, app: App, minIdleAge: int, now: int): seq<Workspace> {
    if list == [] then []
    else if IsReclaimable(list[|list| - 1], app, minIdleAge, now)
    then Reclaimable(list[..|list| - 1], app, minIdleAge, now) + [list[|list| - 1]]
    else Reclaimable(list[..|list| - 1], app, minIdleAge, now)
  }

  function LastActive(ws: Workspace): int {
    if ws.status.traffic.lastActivity.Some? then ws.status.traffic.lastActivity.value else 0
  }

  function Over(list: seq<Workspace>, r: Reclaim): int { |Live(list)| - r.targetWorkspaces }

  /** The choice of the pass, as a function of the list it read. */
  ghost function Selected(list: seq<Workspace>, app: App, r: Reclaim, now: int): seq<Workspace> {
    var oldest := SortBy(Reclaimable(list, app, r.minIdleAge, now), LastActive);
    if Over(list, r) <= 0 then [] else oldest[..Min(Over(list, r), |oldest|)]
  }

  /** The choice as the code makes it: two scans, a stable sort and a cut. */
  method Select(list: seq<Workspace>, app: App, r: Reclaim, now: int) returns (candidates: seq<Workspace>)
    ensures candidates == Selected(list, app, r, now)
  {
    var live := [];
    for i := 0 to |list|
      invariant live == Live(list[..i])
    {
      assert list[..i + 1][..i] == list[..i];
      if !list[i].deleting {
        live := live + [list[i]];
      }
    }
    assert list[..|list|] == list;
    var over := |live| - r.targetWorkspaces;
    if over <= 0 {
      return [];
    }
    candidates := [];
    for i := 0 to |live|
      invariant candidates == Reclaimable(live[..i], app, r.minIdleAge, now)
    {
      assert live[..i + 1][..i] == live[..i];
      var reclaimable := CheckReclaimable(live[i], app, r.minIdleAge, now);
      if reclaimable {
        candidates := candidates + [live[i]];
      }
    }
    assert live[..|live|] == live;
    ReclaimableIsLive(list, app, r.minIdleAge, now);
    candidates := SortBy(candidates, LastActive);
    if |candidates| > over {
      candidates := candidates[..over];
    }
  }

  /** Filtering the live ones first changes nothing: what is being deleted is never
      reclaimable. */
  lemma {:induction false} ReclaimableIsLive(list: seq<Workspace>, app: App, minIdleAge: int, now: int)
    ensures Reclaimable(Live(list), app, minIdleAge, now) == Reclaimable(list, app, minIdleAge, now)
  {
    hide IsReclaimable;
    if list != [] {
      var front, last := list[..|list| - 1], list[|list| - 1];
      ReclaimableIsLive(front, app, minIdleAge, now);
      if last.deleting {
        assert !IsReclaimable(last, app, minIdleAge, now) by { DeletingIsNotReclaimable(last, app, minIdleAge, now); }
      } else {
        assert (Live(front) + [last])[..|Live(front)|] == Live(front);
      }
    }
  }

  lemma DeletingIsNotReclaimable(ws: Workspace, app: App, minIdleAge: int, now: int)
    requires ws.deleting
    ensures !IsReclaimable(ws, app, minIdleAge, now)
  {
  }

  // ------------------------------------------------------ what the choice means

  lemma {:induction false} ReclaimableAre(list: seq<Workspace>, app: App, minIdleAge: int, now: int, w: Workspace)
    ensures w in Reclaimable(list, app, minIdleAge, now) <==> w in list && IsReclaimable(w, app, minIdleAge, now)
  {
    hide IsReclaimable;
    if list != [] {
      ReclaimableAre(list[..|list| - 1], app, minIdleAge, now, w);
      assert w in list <==> w in list[..|list| - 1] || w == list[|list| - 1];
    }
  }

  lemma {:induction false} ReclaimableDistinct(list: seq<Workspace>, app: App, minIdleAge: int, now: int)
    requires Distinct(list)
    ensures Distinct(Reclaimable(list, app, minIdleAge, now))
  {
    hide IsReclaimable;
    if list != [] {
      var front, last := list[..|list| - 1], list[|list| - 1];
      ReclaimableDistinct(front, app, minIdleAge, now);
      ReclaimableAre(front, app, minIdleAge, now, last);
    }
  }

  lemma {:induction false} ReclaimableFitsLive(list: seq<Workspace>, app: App, minIdleAge: int, now: int)
    ensures |Reclaimable(list, app, minIdleAge, now)| <= |Live(list)|
  {
    hide IsReclaimable;
    if list != [] {
      ReclaimableFitsLive(list[..|list| - 1], app, minIdleAge, now);
      var last := list[|list| - 1];
      if last.deleting {
        DeletingIsNotReclaimable(last, app, minIdleAge, now);
      }
    }
  }

  /** A pass takes exactly min(max(0, live - target), reclaimable) workspaces, and never
      takes a fleet at or above its target below it. */
  lemma {:induction false} SelectionSize(list: seq<Workspace>, app: App, r: Reclaim, now: int)
    ensures |Selected(list, app, r, now)|
         == Min(Max(0, |Live(list)| - r.targetWorkspaces), |Reclaimable(list, app, r.minIdleAge, now)|)
    ensures |Live(list)| - |Selected(list, app, r, now)| >= Min(|Live(list)|, r.targetWorkspaces)
    ensures |Selected(list, app, r, now)| <= |Live(list)|
  {
    ReclaimableFitsLive(list, app, r.minIdleAge, now);
  }

  lemma SelectedAre(list: seq<Workspace>, app: App, r: Reclaim, now: int, w: Workspace)
    ensures w in Selected(list, app, r, now) ==> w in list && IsReclaimable(w, app, r.minIdleAge, now)
  {
    hide IsReclaimable;
    var all := Reclaimable(list, app, r.minIdleAge, now);
    if w in Selected(list, app, r, now) {
      SortByKeepsElements(all, LastActive, w);
      ReclaimableAre(list, app, r.minIdleAge, now, w);
    }
  }

  lemma SelectedDistinct(list: seq<Workspace>, app: App, r: Reclaim, now: int)
    requires Distinct(list)
    ensures Distinct(Selected(list, app, r, now))
  {
    var all := Reclaimable(list, app, r.minIdleAge, now);
    ReclaimableDistinct(list, app, r.minIdleAge, now);
    SortByKeepsDistinct(all, LastActive);
  }

  /** Whatever a cut of a sorted sequence leaves out is no smaller than what it keeps. */
  lemma CutKeepsLeast<T>(s: seq<T>, key: T -> int, n: nat, w: T, v: T)
    requires Sorted(s, key) && n <= |s| && w in s[..n] && v in s && v !in s[..n]
    ensures key(w) <= key(v)
  {
    assert s == s[..n] + s[n..];
    assert v in s[n..];
    var i :| 0 <= i < n && s[i] == w;
    var j :| n <= j < |s| && s[j] == v;
  }

  /** Out of use and for long enough: Idle or Failed, not being deleted, with activity on
      record at least minIdleAge ago. */
  predicate OutOfUse(ws: Workspace, minIdleAge: int, now: int) {
    && !ws.deleting && (ws.status.phase == Idle || ws.status.phase == Failed)
    && ws.status.traffic.lastActivity.Some? && ws.status.traffic.lastActivity.value + minIdleAge <= now
  }

  /** What being reclaimable amounts to, as long as counts are not negative and their fresh
      sum is below 2^32: out of use, and nobody there. It holds of every such workspace,
      whatever the sums. */
  lemma ReclaimableExactly(ws: Workspace, app: App, minIdleAge: int, now: int)
    ensures IsReclaimable(ws, app, minIdleAge, now) ==> OutOfUse(ws, minIdleAge, now)
    ensures OutOfUse(ws, minIdleAge, now) && Reaping.NobodyThere(ws.status, app.heartbeatInterval, now) ==>
      IsReclaimable(ws, app, minIdleAge, now)
    ensures Countable(ws.status, app.heartbeatInterval, now) ==>
      (IsReclaimable(ws, app, minIdleAge, now) <==>
        OutOfUse(ws, minIdleAge, now) && Reaping.NobodyThere(ws.status, app.heartbeatInterval, now))
  {
    var entries, threshold := ws.status.traffic.connections, 2 * app.heartbeatInterval;
    if Reaping.NobodyThere(ws.status, app.heartbeatInterval, now) {
      Reaping.NoFreshIsZero(entries, now, threshold);
    }
    if Countable(ws.status, app.heartbeatInterval, now) && IsReclaimable(ws, app, minIdleAge, now) {
      Reaping.FreshTotalNonNegative(entries, now, threshold);
      Reaping.SmallSumIsZero(Reaping.FreshTotal(entries, now, threshold));
      forall pod | pod in entries && now - entries[pod].heartbeatAt < threshold ensures entries[pod].count == 0 {
        Reaping.NothingFresh(entries, now, threshold, pod);
      }
    }
  }

  ghost predicate Countable(st: Status, heartbeatInterval: int, now: int) {
    && Reaping.NonNegative(st.traffic.connections)
    && Reaping.FreshTotal(st.traffic.connections, now, 2 * heartbeatInterval) < 0x1_0000_0000
  }

  /** Least recently active first: of two workspaces of a list, one taken and one left
      though it could have been taken too. */
  predicate ActiveNoLater(w: Workspace, v: Workspace) {
    && w.status.traffic.lastActivity.Some? && v.status.traffic.lastActivity.Some?
    && w.status.traffic.lastActivity.value <= v.status.traffic.lastActivity.value
  }

  /** What the choice takes: workspaces of the list, out of use, with nobody there as far
      as that can be counted, none of them twice, and none that was active later than one
      it leaves which is out of use as well with nobody there. */
  ghost predicate LeastRecentlyUsed(list: seq<Workspace>, s: seq<Workspace>, app: App, minIdleAge: int, now: int) {
    && Distinct(s)
    && (forall w :: w in s ==> w in list && OutOfUse(w, minIdleAge, now))
    && (forall w :: w in s && Countable(w.status, app.heartbeatInterval, now) ==>
          Reaping.NobodyThere(w.status, app.heartbeatInterval, now))
    && (forall w, v :: w in s && v in list && v !in s && Unused(v, app, minIdleAge, now) ==> ActiveNoLater(w, v))
  }

  ghost predicate Unused(ws: Workspace, app: App, minIdleAge: int, now: int) {
    OutOfUse(ws, minIdleAge, now) && Reaping.NobodyThere(ws.status, app.heartbeatInterval, now)
  }

  lemma SelectionIsLeastRecent(list: seq<Workspace>, app: App, r: Reclaim, now: int)
    requires Distinct(list)
    ensures LeastRecentlyUsed(list, Selected(list, app, r, now), app, r.minIdleAge, now)
  {
    hide IsReclaimable;
    hide Reclaimable;
    hide Sorted;
    hide Distinct;
    hide Countable;
    var all := Reclaimable(list, app, r.minIdleAge, now);
    var oldest, s := SortBy(all, LastActive), Selected(list, app, r, now);
    SelectedDistinct(list, app, r, now);
    SortByIsSorted(all, LastActive);
    forall w | w in s
      ensures w in list && OutOfUse(w, r.minIdleAge, now)
      ensures Countable(w.status, app.heartbeatInterval, now) ==> Reaping.NobodyThere(w.status, app.heartbeatInterval, now)
    {
      SelectedAre(list, app, r, now, w);
      ReclaimableExactly(w, app, r.minIdleAge, now);
    }
    forall w, v | w in s && v in list && v !in s && Unused(v, app, r.minIdleAge, now)
      ensures ActiveNoLater(w, v)
    {
      ReclaimableExactly(v, app, r.minIdleAge, now);
      SortByKeepsElements(all, LastActive, v);
      ReclaimableAre(list, app, r.minIdleAge, now, v);
      CutKeepsLeast(oldest, LastActive, |s|, w, v);
    }
  }

  /** How many are taken, by the fields: with nothing uncountable in the list, the live
      workspaces less the target, as far as there are any out of use with nobody there. */
  lemma SelectionCount(list: seq<Workspace>, app: App, r: Reclaim, now: int)
    requires Distinct(list) && forall w :: w in list ==> Countable(w.status, app.heartbeatInterval, now)
    ensures |Selected(list, app, r, now)|
         == Min(Max(0, |set w | w in list && !w.deleting| - r.targetWorkspaces),
                |set w | w in list && OutOfUse(w, r.minIdleAge, now) && Reaping.NobodyThere(w.status, app.heartbeatInterval, now)|)
  {
    hide IsReclaimable;
    hide Countable;
    var all := Reclaimable(list, app, r.minIdleAge, now);
    var free := set w | w in list && OutOfUse(w, r.minIdleAge, now) && Reaping.NobodyThere(w.status, app.heartbeatInterval, now);
    SelectionSize(list, app, r, now);
    ReclaimableDistinct(list, app, r.minIdleAge, now);
    forall w ensures w in all <==> w in free {
      ReclaimableAre(list, app, r.minIdleAge, now, w);
      ReclaimableExactly(w, app, r.minIdleAge, now);
    }
    SizeOfDistinct(all, free);
    LiveIsDistinct(list);
    SizeOfDistinct(Live(list), set w | w in list && !w.deleting);
  }

  lemma {:induction false} LiveIsDistinct(list: seq<Workspace>)
    requires Distinct(list)
    ensures Distinct(Live(list)) && forall w :: w in Live(list) <==> w in list && !w.deleting
  {
    if list != [] {
      var front, last := list[..|list| - 1], list[|list| - 1];
      LiveIsDistinct(front);
      assert forall w :: w in list <==> w in front || w == last;
    }
  }

  lemma {:induction false} SizeOfDistinct(s: seq<Workspace>, elements: set<Workspace>)
    requires Distinct(s) && forall w :: w in s <==> w in elements
    ensures |s| == |elements|
  {
    if s != [] {
      assert s == [s[0]] + s[1..];
      SizeOfDistinct(s[1..], elements - {s[0]});
    }
  }
}
