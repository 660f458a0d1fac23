/** The reclaimer in the form it has: a sweep over stamped claims, a choice, and one
    candidate after another through the four calls that take it apart. Every call can
    fail; what the loops do is shown to be a run of the reclamation protocol. */
module Reclaimer {
  import opened Api
  import opened ReclaimRuns
  import Ordering
  import Reclaiming

  /** The calls of one candidate's reclamation. */
  datatype Call = ClaimRead | VolumeRead | VolumePatch | StampPatch | WorkspaceDelete | ClaimDelete

  lemma {:induction false} RunSnoc(w: World, steps: seq<Step>, s: Step, dvd: bool)
    ensures Run(w, steps + [s], dvd) == Next(Run(w, steps, dvd), s, dvd)
    decreases |steps|
  {
    hide Next;
    if steps == [] {
      assert ([] + [s])[1..] == [];
      assert Run(Next(w, s, dvd), [], dvd) == Next(w, s, dvd);
    } else {
      assert (steps + [s])[1..] == steps[1..] + [s];
      RunSnoc(Next(w, steps[0], dvd), steps[1..], s, dvd);
    }
  }

  class ClusterApi {
    var nextUid: nat
    var workspaces: set<Name>
    var live: set<Name>
    var claims: map<Name, Pvc>
    var policies: map<nat, Policy>

    ghost function View(): Cluster
      reads this
    {
      Cluster(nextUid, workspaces, live, claims, policies)
    }

    constructor ()
      ensures View() == Cluster(0, {}, {}, map[], map[])
    {
      nextUid, workspaces, live, claims, policies := 0, {}, {}, map[], map[];
    }

    method DeleteWorkspace(n: Name)
      modifies this`live
      ensures View() == WithoutLive(old(View()), n)
    {
      live := live - {n};
    }

    method DeleteClaim(n: Name)
      modifies this`claims
      ensures View() == if n in old(claims) then PutClaim(old(View()), n, old(claims[n]).(deleting := true)) else old(View())
    {
      if n in claims {
        claims := claims[n := claims[n].(deleting := true)];
      }
    }
  }

  predicate FlipFails(c: Cluster, p: Pvc, failing: set<Call>) {
    p.volume.Some? &&
    (VolumeRead in failing || (p.volume.value in c.policies && c.policies[p.volume.value] == Retain && VolumePatch in failing))
  }

  predicate MarkFails(c: Cluster, n: Name, p: Pvc, failing: set<Call>) {
    !p.stamped && (StampPatch in failing || n !in c.claims)
  }

  /** A claim that is there is not ready for the deletions: its volume could not be
      flipped, or it could not be stamped. */
  predicate PrepareFails(c: Cluster, p: Pvc, dvd: bool, failing: set<Call>) {
    (dvd && FlipFails(c, p, failing)) || (!p.stamped && StampPatch in failing)
  }

  /** Nothing may be deleted: the claim could not be read, or is not ready. */
  predicate Aborts(c: Cluster, n: Name, dvd: bool, failing: set<Call>) {
    ClaimRead in failing || (n in c.claims && PrepareFails(c, c.claims[n], dvd, failing))
  }

  /** A candidate goes through without an error; without a claim it never does. */
  predicate Succeeds(c: Cluster, n: Name, dvd: bool, failing: set<Call>) {
    !Aborts(c, n, dvd, failing) && n in c.claims && WorkspaceDelete !in failing && ClaimDelete !in failing
  }

  function ClaimsAfter(c: Cluster, n: Name, dvd: bool, failing: set<Call>): map<Name, Pvc> {
    if n !in c.claims || Aborts(c, n, dvd, failing) then c.claims
    else
      var stamped := c.claims[n].(stamped := true);
      c.claims[n := if Succeeds(c, n, dvd, failing) then stamped.(deleting := true) else stamped]
  }

  // ------------------------------------------------------------------ the list

  ghost function NamesOf(list: seq<Workspace>): set<Name> { set w | w in list :: w.name }

  /** The list as the API server returns it: every workspace once, with its deletion
      timestamp set when it is no longer live. */
  ghost predicate ListsCluster(list: seq<Workspace>, c: Cluster) {
    && DistinctNames(list)
    && NamesOf(list) == c.workspaces
    && c.live == set w | w in list && !w.deleting :: w.name
  }

  lemma {:induction false} NamesCount(list: seq<Workspace>)
    requires DistinctNames(list)
    ensures |NamesOf(list)| == |list|
  {
    if list != [] {
      var front, last := list[..|list| - 1], list[|list| - 1];
      NamesCount(front);
      assert last.name !in NamesOf(front);
      assert NamesOf(list) == NamesOf(front) + {last.name};
    }
  }

  lemma {:induction false} LiveAre(list: seq<Workspace>, w: Workspace)
    ensures w in Reclaiming.Live(list) <==> w in list && !w.deleting
  {
    if list != [] {
      LiveAre(list[..|list| - 1], w);
      assert w in list <==> w in list[..|list| - 1] || w == list[|list| - 1];
    }
  }

  lemma {:induction false} LiveDistinct(list: seq<Workspace>)
    requires DistinctNames(list)
    ensures DistinctNames(Reclaiming.Live(list))
  {
    if list != [] {
      var front, last := list[..|list| - 1], list[|list| - 1];
      LiveDistinct(front);
      forall w | w in Reclaiming.Live(front) ensures w.name != last.name {
        LiveAre(front, w);
      }
    }
  }

  lemma LiveCount(list: seq<Workspace>, c: Cluster)
    requires ListsCluster(list, c)
    ensures |c.live| == |Reclaiming.Live(list)|
  {
    LiveDistinct(list);
    NamesCount(Reclaiming.Live(list));
    forall w ensures w in Reclaiming.Live(list) <==> w in list && !w.deleting {
      LiveAre(list, w);
    }
    assert NamesOf(Reclaiming.Live(list)) == c.live;
  }

  lemma NamesSnoc(list: seq<Workspace>, i: nat)
    requires i < |list|
    ensures NamesOf(list[..i + 1]) == NamesOf(list[..i]) + {list[i].name}
  {
    assert list[..i + 1] == list[..i] + [list[i]];
  }

  lemma CountLess(live: set<Name>, taken: set<Name>)
    requires taken <= live
    ensures |live - taken| == |live| - |taken|
  {
    assert live == (live - taken) + taken;
  }

  lemma NoFailure(c: Cluster, n: Name, dvd: bool)
    ensures !Aborts(c, n, dvd, {}) && (Succeeds(c, n, dvd, {}) <==> n in c.claims)
    ensures ClaimsAfter(c, n, dvd, {})
         == if n in c.claims then c.claims[n := c.claims[n].(stamped := true, deleting := true)] else c.claims
  {
  }

  /** The claims with some of them stamped and their deletion issued. */
  function Taken(claims: map<Name, Pvc>, names: set<Name>): map<Name, Pvc> {
    map n | n in claims :: if n in names then claims[n].(stamped := true, deleting := true) else claims[n]
  }

  lemma TakenNone(claims: map<Name, Pvc>, names: set<Name>)
    requires names == {}
    ensures Taken(claims, names) == claims
  {
  }

  lemma TakenMore(claims: map<Name, Pvc>, names: set<Name>, n: Name)
    requires n !in names
    ensures Taken(claims, names).Keys == claims.Keys
    ensures Taken(claims, names + {n})
         == if n in claims then Taken(claims, names)[n := Taken(claims, names)[n].(stamped := true, deleting := true)]
            else Taken(claims, names)
  {
  }

  lemma RunNothing(w: World, dvd: bool)
    ensures Run(w, [], dvd) == w
  {
  }

  /** What the pass selects is live, under names of its own. */
  lemma SelectedNames(list: seq<Workspace>, c: Cluster, app: App, r: Reclaim, now: int)
    requires ListsCluster(list, c)
    ensures var s := Reclaiming.Selected(list, app, r, now);
      && NamesOf(s) <= c.live && DistinctNames(s) && |NamesOf(s)| == |s|
      && (forall i :: 0 <= i < |s| ==> s[i].name in c.workspaces)
  {
    var s := Reclaiming.Selected(list, app, r, now);
    assert Ordering.Distinct(list);
    Reclaiming.SelectedDistinct(list, app, r, now);
    forall w | w in s ensures w in list && !w.deleting {
      Reclaiming.SelectedAre(list, app, r, now, w);
    }
    assert DistinctNames(s) by { SameNameSame(list, s); }
    NamesCount(s);
  }

  /** What the pass relies on in its choice. */
  lemma ChoiceFacts(list: seq<Workspace>, c: Cluster, app: App, r: Reclaim, now: int)
    requires ListsCluster(list, c)
    ensures var s := Reclaiming.Selected(list, app, r, now);
      && DistinctNames(s) && (forall i :: 0 <= i < |s| ==> s[i].name in c.workspaces)
      && Reclaiming.LeastRecentlyUsed(list, s, app, r.minIdleAge, now)
      && |c.live - NamesOf(s)| == |c.live|
           - Min(Max(0, |c.live| - r.targetWorkspaces), |Reclaiming.Reclaimable(list, app, r.minIdleAge, now)|)
  {
    hide Reclaiming.Selected;
    hide Reclaiming.Reclaimable;
    hide Reclaiming.Live;
    hide Reclaiming.LeastRecentlyUsed;
    hide Ordering.Distinct;
    hide NamesOf;
    assert DistinctNames(list);
    hide DistinctNames;
    SelectedNames(list, c, app, r, now);
    hide ListsCluster;
    NamedAreDistinct(list);
    Reclaiming.SelectionIsLeastRecent(list, app, r, now);
    LiveCount(list, c);
    Reclaiming.SelectionSize(list, app, r, now);
    CountLess(c.live, NamesOf(Reclaiming.Selected(list, app, r, now)));
  }

  lemma WithoutClaim(s: seq<Workspace>, claims: map<Name, Pvc>)
    ensures (exists i :: 0 <= i < |s| && s[i].name !in claims) <==> (exists w :: w in s && w.name !in claims)
  {
  }

  lemma NamedAreDistinct(list: seq<Workspace>)
    requires DistinctNames(list)
    ensures Ordering.Distinct(list)
  {
  }

  lemma SameNameSame(list: seq<Workspace>, s: seq<Workspace>)
    requires DistinctNames(list) && Ordering.Distinct(s) && forall w :: w in s ==> w in list
    ensures DistinctNames(s)
  {
    forall i, j | 0 <= i < j < |s| ensures s[i].name != s[j].name {
      assert s[i] in list && s[j] in list;
    }
  }

  /** The claims with the deletion of some of them issued. */
  function Swept(claims: map<Name, Pvc>, going: set<Name>): map<Name, Pvc> {
    map n | n in claims :: if n in going then claims[n].(deleting := true) else claims[n]
  }

  /** A sweep has issued the deletion of every stamped claim that was not going already and
      whose name is not among those given, but for the failing ones, and of no other; and
      it failed exactly if there was one of those among the failing. */
  ghost predicate SweptByFields(before: map<Name, Pvc>, after: map<Name, Pvc>, names: set<Name>, failing: set<Name>, failed: bool) {
    && after.Keys == before.Keys
    && (forall n :: n in before ==>
          after[n] == if before[n].stamped && n !in names && n !in failing then before[n].(deleting := true) else before[n])
    && (failed <==> exists n :: n in before && before[n].stamped && !before[n].deleting && n !in names && n in failing)
  }

  lemma SweepByFields(c: Cluster, names: set<Name>, failing: set<Name>)
    ensures forall failed: bool :: (failed <==> exists n :: n in Orphans(c, names) && n in failing) ==>
      SweptByFields(c.claims, Swept(c.claims, Orphans(c, names).Keys - failing), names, failing, failed)
  {
    var orphans := Orphans(c, names);
    if n :| n in orphans && n in failing {
      assert n in c.claims && c.claims[n].stamped && !c.claims[n].deleting && n !in names;
    }
    forall n | n in c.claims && c.claims[n].stamped && !c.claims[n].deleting && n !in names ensures n in orphans {
    }
  }

  lemma SweptMore(claims: map<Name, Pvc>, going: set<Name>, n: Name)
    requires n in claims && n !in going
    ensures n in Swept(claims, going)
    ensures Swept(claims, going)[n := Swept(claims, going)[n].(deleting := true)] == Swept(claims, going + {n})
  {
  }

  lemma SweptNone(claims: map<Name, Pvc>, going: set<Name>)
    requires going == {}
    ensures Swept(claims, going) == claims
  {
  }

  lemma SweptKeys(claims: map<Name, Pvc>, going: set<Name>)
    ensures Swept(claims, going).Keys == claims.Keys
  {
  }

  lemma OrphanStep(w: World, n: Name, dvd: bool)
    requires w.pass.Sweeping? && n in w.pass.orphans && n in w.cluster.claims
    ensures var w' := Next(w, DeleteOrphan(n), dvd);
      && w'.cluster == PutClaim(w.cluster, n, w.cluster.claims[n].(deleting := true))
      && w'.pass == Sweeping(w.pass.names, w.pass.orphans - {n})
  {
  }

  /** The orphans a sweep has yet to come to, or could not delete. */
  function Remaining(orphans: map<Name, nat>, left: set<Name>, failing: set<Name>): map<Name, nat> {
    map n | n in orphans && (n in left || n in failing) :: orphans[n]
  }

  lemma RemainingLess(orphans: map<Name, nat>, left: set<Name>, failing: set<Name>, n: Name)
    requires n in left
    ensures n in orphans ==> n in Remaining(orphans, left, failing)
    ensures Remaining(orphans, left - {n}, failing)
         == if n !in orphans || n in failing then Remaining(orphans, left, failing) else Remaining(orphans, left, failing) - {n}
  {
  }

  predicate IsOrphan(items: map<Name, Pvc>, names: set<Name>, n: Name) {
    n in items && !items[n].deleting && items[n].stamped && n !in names
  }

  lemma OrphanIs(c: Cluster, names: set<Name>, n: Name)
    ensures n in Orphans(c, names) <==> IsOrphan(c.claims, names, n)
  {
  }

  /** A sweep over the items has the names in left to come to: the orphans before that
      are going, but for the failing ones. */
  predicate SweepAt(w: World, start: Cluster, names: set<Name>, failing: set<Name>, left: set<Name>, failed: bool) {
    var orphans := Orphans(start, names);
    && w.pass == Sweeping(names, Remaining(orphans, left, failing))
    && w.cluster == start.(claims := Swept(start.claims, orphans.Keys - failing - left))
    && (failed <==> orphans.Keys * failing - left != {})
  }

  lemma SweepBegins(w: World, names: set<Name>, failing: set<Name>, dvd: bool)
    requires w.pass == Listed(names)
    ensures SweepAt(Next(w, ListClaims, dvd), w.cluster, names, failing, w.cluster.claims.Keys, false)
  {
    var orphans := Orphans(w.cluster, names);
    assert Remaining(orphans, w.cluster.claims.Keys, failing) == orphans;
    SweptNone(w.cluster.claims, orphans.Keys - failing - w.cluster.claims.Keys);
  }

  lemma SweepKeepsCluster(w: World, start: Cluster, names: set<Name>, failing: set<Name>, left: set<Name>)
    requires SweepAt(w, start, names, failing, left, false) && left == start.claims.Keys
    ensures w.cluster == start
  {
    SweptNone(start.claims, Orphans(start, names).Keys - failing - left);
  }

  lemma SweepSkips(w: World, start: Cluster, names: set<Name>, failing: set<Name>, left: set<Name>, failed: bool, n: Name)
    requires SweepAt(w, start, names, failing, left, failed) && n in left
    requires !IsOrphan(start.claims, names, n) || n in failing
    ensures SweepAt(w, start, names, failing, left - {n}, failed || IsOrphan(start.claims, names, n))
  {
    hide Swept;
    var orphans := Orphans(start, names);
    RemainingLess(orphans, left, failing, n);
    OrphanIs(start, names, n);
    assert orphans.Keys - failing - (left - {n}) == orphans.Keys - failing - left;
    var missed := orphans.Keys * failing - left;
    assert orphans.Keys * failing - (left - {n}) == if n in orphans then missed + {n} else missed;
  }

  lemma SweepDeletes(w: World, start: Cluster, names: set<Name>, failing: set<Name>, left: set<Name>, failed: bool, n: Name, dvd: bool)
    requires SweepAt(w, start, names, failing, left, failed) && n in left && IsOrphan(start.claims, names, n) && n !in failing
    ensures SweepAt(Next(w, DeleteOrphan(n), dvd), start, names, failing, left - {n}, failed)
    ensures n in w.cluster.claims
    ensures Next(w, DeleteOrphan(n), dvd).cluster == PutClaim(w.cluster, n, w.cluster.claims[n].(deleting := true))
  {
    var orphans := Orphans(start, names);
    var going := orphans.Keys - failing - left;
    OrphanIs(start, names, n);
    RemainingLess(orphans, left, failing, n);
    SweptMore(start.claims, going, n);
    OrphanStep(w, n, dvd);
    hide Next;
    hide Swept;
    assert orphans.Keys - failing - (left - {n}) == going + {n};
    assert orphans.Keys * failing - (left - {n}) == orphans.Keys * failing - left;
  }

  lemma SweepEnds(w: World, start: Cluster, names: set<Name>, failing: set<Name>, failed: bool, dvd: bool)
    requires SweepAt(w, start, names, failing, {}, failed)
    ensures failed <==> exists n :: n in Orphans(start, names) && n in failing
    ensures w.cluster.claims == Swept(start.claims, Orphans(start, names).Keys - failing)
    ensures var w' := Next(w, if failed then Fail else EndSweep, dvd);
      w'.cluster == w.cluster && w'.pass == if failed then Resting else Choosing(names)
  {
    hide Next;
    hide Swept;
    hide Remaining;
    hide Orphans;
    var orphans := Orphans(start, names);
    assert orphans.Keys - failing - {} == orphans.Keys - failing;
    assert orphans.Keys * failing - {} == orphans.Keys * failing;
    SweepStops(w, dvd);
    if failed {
      var n :| n in orphans.Keys * failing;
      assert n in orphans && n in failing;
    } else {
      RemainingNone(orphans, failing);
      forall n ensures !(n in orphans && n in failing) {
        assert n in orphans && n in failing ==> n in orphans.Keys * failing;
      }
    }
  }

  lemma SweepStops(w: World, dvd: bool)
    requires w.pass.Sweeping?
    ensures Next(w, Fail, dvd).cluster == w.cluster && Next(w, Fail, dvd).pass == Resting
    ensures w.pass.orphans == map[] ==>
      Next(w, EndSweep, dvd).cluster == w.cluster && Next(w, EndSweep, dvd).pass == Choosing(w.pass.names)
  {
  }

  lemma RemainingNone(orphans: map<Name, nat>, failing: set<Name>)
    requires orphans.Keys * failing == {}
    ensures Remaining(orphans, {}, failing) == map[]
  {
    var remaining := Remaining(orphans, {}, failing);
    forall n ensures n !in remaining {
      assert n in remaining ==> n in orphans.Keys * failing;
    }
  }

  class WorkspaceReclaimer {
    const api: ClusterApi

    constructor (api: ClusterApi)
      ensures this.api == api
    {
      this.api := api;
    }

    method ReleaseVolume(p: Pvc, failing: set<Call>) returns (failed: bool)
      modifies api`policies
      ensures failed == FlipFails(old(api.View()), p, failing)
      ensures api.View() == if failed then old(api.View()) else Flip(old(api.View()), p)
      ensures !failed && p.volume.Some? && p.volume.value in old(api.policies) ==> api.policies == old(api.policies)[p.volume.value := Delete]
      ensures failed || p.volume.None? || p.volume.value !in old(api.policies) ==> api.policies == old(api.policies)
    {
      if p.volume.None? {
        return false;
      }
      var v := p.volume.value;
      if VolumeRead in failing {
        return true;
      }
      if v !in api.policies {
        return false;
      }
      if api.policies[v] == Delete {
        assert api.policies[v := Delete] == api.policies;
        return false;
      }
      if VolumePatch in failing {
        return true;
      }
      api.policies := api.policies[v := Delete];
      return false;
    }

    method MarkReclaiming(n: Name, p: Pvc, failing: set<Call>) returns (failed: bool)
      modifies api`claims
      ensures failed == MarkFails(old(api.View()), n, p, failing)
      ensures api.View() == if failed || p.stamped then old(api.View())
                            else PutClaim(old(api.View()), n, old(api.claims[n]).(stamped := true))
    {
      if p.stamped {
        return false;
      }
      if StampPatch in failing || n !in api.claims {
        return true;
      }
      api.claims := api.claims[n := api.claims[n].(stamped := true)];
      return false;
    }

    /** Flip and stamp, before anything is deleted. */
    method Prepare(n: Name, p: Pvc, dvd: bool, failing: set<Call>, ghost w: World, ghost start: World, ghost before: seq<Step>)
      returns (failed: bool, ghost w': World, ghost steps: seq<Step>)
      requires n in api.claims && api.claims[n] == p
      requires w.cluster == api.View() && w.pass.Read? && w.pass.name == n && w.pass.claim == p
      requires w == Run(start, before, dvd)
      modifies api`policies, api`claims
      ensures w' == Run(start, steps, dvd) && w'.cluster == api.View() && w'.lost == w.lost && w'.issued == w.issued
      ensures w'.pass == if failed then Choosing(w.pass.names) else Marked(w.pass.names, n, p.uid, p.volume)
      ensures failed == PrepareFails(old(api.View()), p, dvd, failing)
      ensures api.View() == old(api.View()).(policies := api.policies, claims := api.claims)
      ensures dvd && !failed ==> Flipped(api.View(), p.volume, dvd)
      ensures api.claims == if failed then old(api.claims) else old(api.claims)[n := p.(stamped := true)]
    {
      hide Run;
      w', steps := w, before;
      if dvd {
        failed := ReleaseVolume(p, failing);
        if failed {
          RunSnoc(start, steps, Fail, dvd);
          w', steps := Next(w', Fail, dvd), steps + [Fail];
          return;
        }
      }
      RunSnoc(start, steps, Step.ReleaseVolume, dvd);
      w', steps := Next(w', Step.ReleaseVolume, dvd), steps + [Step.ReleaseVolume];
      failed := MarkReclaiming(n, p, failing);
      ghost var s := if failed then Fail else Mark;
      RunSnoc(start, steps, s, dvd);
      w', steps := Next(w', s, dvd), steps + [s];
      assert p.stamped ==> old(api.claims)[n := p.(stamped := true)] == old(api.claims);
    }

    /** The two deletions, the workspace's first. */
    method Remove(n: Name, found: bool, dvd: bool, failing: set<Call>, ghost w: World, ghost start: World, ghost before: seq<Step>)
      returns (failed: bool, ghost w': World, ghost steps: seq<Step>)
      requires w.cluster == api.View() && w == Run(start, before, dvd)
      requires found <==> n in api.claims
      requires if found then w.pass.Marked? && w.pass.name == n else w.pass.ReadNone? && w.pass.name == n
      modifies api`claims, api`live
      ensures w' == Run(start, steps, dvd) && w'.cluster == api.View() && w'.pass == Choosing(w.pass.names)
      ensures failed == (WorkspaceDelete in failing || !found || ClaimDelete in failing)
      ensures api.live == if WorkspaceDelete in failing then old(api.live) else old(api.live) - {n}
      ensures api.claims == if failed then old(api.claims) else old(api.claims)[n := old(api.claims[n]).(deleting := true)]
    {
      hide Run;
      w', steps := w, before;
      if WorkspaceDelete in failing {
        RunSnoc(start, steps, Fail, dvd);
        w', steps := Next(w', Fail, dvd), steps + [Fail];
        return true, w', steps;
      }
      api.DeleteWorkspace(n);
      RunSnoc(start, steps, Step.DeleteWorkspace, dvd);
      w', steps := Next(w', Step.DeleteWorkspace, dvd), steps + [Step.DeleteWorkspace];
      if !found {
        return true, w', steps;
      }
      failed := ClaimDelete in failing;
      if !failed {
        api.DeleteClaim(n);
      }
      ghost var s := if failed then Fail else Step.DeleteClaim;
      RunSnoc(start, steps, s, dvd);
      w', steps := Next(w', s, dvd), steps + [s];
    }

    /** Take one candidate apart. An error before the deletions deletes nothing; the
        workspace goes before its claim. */
    method ReclaimWorkspace(n: Name, dvd: bool, failing: set<Call>, ghost w: World, ghost start: World, ghost before: seq<Step>)
      returns (failed: bool, ghost w': World, ghost steps: seq<Step>)
      requires w.cluster == api.View() && w.pass.Choosing? && n in w.pass.names
      requires w == Run(start, before, dvd)
      modifies api`policies, api`claims, api`live
      ensures w' == Run(start, steps, dvd) && w'.cluster == api.View() && w'.pass == w.pass
      ensures failed == !Succeeds(old(api.View()), n, dvd, failing)
      ensures api.live == if Aborts(old(api.View()), n, dvd, failing) || WorkspaceDelete in failing then old(api.live) else old(api.live) - {n}
      ensures api.claims == ClaimsAfter(old(api.View()), n, dvd, failing)
      ensures dvd && Succeeds(old(api.View()), n, dvd, failing) ==> Flipped(api.View(), old(api.claims[n].volume), dvd)
    {
      hide Run;
      hide PrepareFails;
      hide FlipFails;
      w', steps := w, before;
      if ClaimRead in failing {
        return true, w', steps;
      }
      RunSnoc(start, steps, GetClaim(n), dvd);
      w', steps := Next(w', GetClaim(n), dvd), steps + [GetClaim(n)];
      var found := n in api.claims;
      if found {
        failed, w', steps := Prepare(n, api.claims[n], dvd, failing, w', start, steps);
        if failed {
          return;
        }
      }
      failed, w', steps := Remove(n, found, dvd, failing, w', start, steps);
    }

    /** Delete every stamped claim whose workspace was not in the list; an error on one
        does not keep the rest from being deleted, but ends the pass afterwards. */
    method ReclaimOrphans(names: set<Name>, dvd: bool, failing: set<Name>, ghost w: World, ghost start: World, ghost before: seq<Step>)
      returns (failed: bool, ghost w': World, ghost steps: seq<Step>)
      requires w.cluster == api.View() && w == Run(start, before, dvd) && w.pass == Listed(names)
      modifies api`claims
      ensures w' == Run(start, steps, dvd) && w'.cluster == api.View()
      ensures w'.pass == if failed then Resting else Choosing(names)
      ensures failed <==> exists n :: n in Orphans(old(api.View()), names) && n in failing
      ensures api.claims == Swept(old(api.claims), Orphans(old(api.View()), names).Keys - failing)
      ensures SweptByFields(old(api.claims), api.claims, names, failing, failed)
    {
      SweepByFields(api.View(), names, failing);
      hide SweptByFields;
      hide Run;
      hide Next;
      hide SweepAt;
      hide Orphans;
      hide Swept;
      ghost var was := api.View();
      RunSnoc(start, before, ListClaims, dvd);
      SweepBegins(w, names, failing, dvd);
      w', steps := Next(w, ListClaims, dvd), before + [ListClaims];
      SweepKeepsCluster(w', was, names, failing, api.claims.Keys);
      var items := api.claims;
      var left := items.Keys;
      failed := false;
      while left != {}
        invariant left <= items.Keys
        invariant w' == Run(start, steps, dvd) && w'.cluster == api.View()
        invariant SweepAt(w', was, names, failing, left, failed)
        decreases left
      {
        var n :| n in left;
        var orphan := !items[n].deleting && items[n].stamped && n !in names;
        if orphan && n !in failing {
          SweepDeletes(w', was, names, failing, left, failed, n, dvd);
          RunSnoc(start, steps, DeleteOrphan(n), dvd);
          api.DeleteClaim(n);
          w', steps := Next(w', DeleteOrphan(n), dvd), steps + [DeleteOrphan(n)];
        } else {
          SweepSkips(w', was, names, failing, left, failed, n);
          failed := failed || orphan;
        }
        left := left - {n};
      }
      ghost var s := if failed then Fail else EndSweep;
      RunSnoc(start, steps, s, dvd);
      SweepEnds(w', was, names, failing, failed, dvd);
      w', steps := Next(w', s, dvd), steps + [s];
    }

    /** The candidates one after another; an error on one does not keep the rest from
        it. With no failing call, exactly they are no longer live. */
    method ReclaimAll(candidates: seq<Workspace>, dvd: bool, fails: map<Name, set<Call>>, ghost w: World, ghost start: World, ghost before: seq<Step>)
      returns (failed: bool, ghost w': World, ghost steps: seq<Step>)
      requires w.cluster == api.View() && w == Run(start, before, dvd) && w.pass.Choosing?
      requires DistinctNames(candidates) && forall i :: 0 <= i < |candidates| ==> candidates[i].name in w.pass.names
      modifies api`policies, api`claims, api`live
      ensures w' == Run(start, steps, dvd) && w'.cluster == api.View() && w'.pass == w.pass
      ensures old(api.live) - NamesOf(candidates) <= api.live <= old(api.live)
      ensures fails == map[] ==>
        && api.live == old(api.live) - NamesOf(candidates)
        && api.claims == Taken(old(api.claims), NamesOf(candidates))
        && (failed <==> exists i :: 0 <= i < |candidates| && candidates[i].name !in old(api.claims))
    {
      hide Run;
      hide Next;
      hide Taken;
      failed, w', steps := false, w, before;
      TakenNone(api.claims, NamesOf(candidates[..0]));
      for i := 0 to |candidates|
        invariant w' == Run(start, steps, dvd) && w'.cluster == api.View() && w'.pass == w.pass
        invariant api.claims.Keys == old(api.claims.Keys)
        invariant old(api.live) - NamesOf(candidates[..i]) <= api.live <= old(api.live)
        invariant fails == map[] ==>
          && api.live == old(api.live) - NamesOf(candidates[..i])
          && api.claims == Taken(old(api.claims), NamesOf(candidates[..i]))
          && (failed <==> exists j :: 0 <= j < i && candidates[j].name !in old(api.claims))
      {
        var n := candidates[i].name;
        var calls := if n in fails then fails[n] else {};
        NamesSnoc(candidates, i);
        NoFailure(api.View(), n, dvd);
        TakenMore(old(api.claims), NamesOf(candidates[..i]), n);
        var err: bool;
        err, w', steps := ReclaimWorkspace(n, dvd, calls, w', start, steps);
        failed := failed || err;
      }
      assert candidates[..|candidates|] == candidates;
    }

    /** One pass over an app: finish what an earlier pass left, choose, and take the
        chosen apart. The choice is the least recently used. With no failing call the fleet
        shrinks by exactly the choice, and exactly the orphans' claims and those of the
        chosen have their deletion issued. */
    method ReclaimApp(list: seq<Workspace>, app: App, r: Reclaim, now: int, sweepFails: set<Name>, fails: map<Name, set<Call>>, ghost start: World)
      returns (failed: bool, ghost w': World, ghost steps: seq<Step>)
      requires ListsCluster(list, api.View()) && start.cluster == api.View() && start.pass.Resting?
      modifies api`policies, api`claims, api`live
      ensures w' == Run(start, steps, r.deleteVolumeData) && w'.cluster == api.View()
      ensures old(api.live) - NamesOf(Reclaiming.Selected(list, app, r, now)) <= api.live <= old(api.live)
      ensures Reclaiming.LeastRecentlyUsed(list, Reclaiming.Selected(list, app, r, now), app, r.minIdleAge, now)
      ensures sweepFails == {} && fails == map[] ==>
        && api.live == old(api.live) - NamesOf(Reclaiming.Selected(list, app, r, now))
        && |api.live| == |old(api.live)|
             - Min(Max(0, |old(api.live)| - r.targetWorkspaces), |Reclaiming.Reclaimable(list, app, r.minIdleAge, now)|)
        && (failed <==> exists w :: w in Reclaiming.Selected(list, app, r, now) && w.name !in old(api.claims))
        && api.claims == Taken(Swept(old(api.claims), Orphans(old(api.View()), old(api.workspaces)).Keys),
                               NamesOf(Reclaiming.Selected(list, app, r, now)))
    {
      hide Run;
      hide Swept;
      hide Orphans;
      hide Reclaiming.Selected;
      hide Reclaiming.Reclaimable;
      hide Reclaiming.Live;
      var dvd := r.deleteVolumeData;
      ghost var before := api.View();
      assert start == Run(start, [], dvd) by { RunNothing(start, dvd); }
      RunSnoc(start, [], List, dvd);
      w', steps := Next(start, List, dvd), [] + [List];
      hide Next;
      failed, w', steps := ReclaimOrphans(api.workspaces, dvd, sweepFails, w', start, steps);
      ChoiceFacts(list, before, app, r, now);
      hide Reclaiming.LeastRecentlyUsed;
      hide NamesOf;
      hide DistinctNames;
      if failed {
        return;
      }
      SweptKeys(before.claims, Orphans(before, before.workspaces).Keys - sweepFails);
      assert sweepFails == {} ==> Orphans(before, before.workspaces).Keys - sweepFails == Orphans(before, before.workspaces).Keys;
      hide Taken;
      var candidates := Reclaiming.Select(list, app, r, now);
      failed, w', steps := ReclaimAll(candidates, dvd, fails, w', start, steps);
      WithoutClaim(candidates, before.claims);
    }
  }
}
