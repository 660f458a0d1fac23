/** What holds of the volume and the workspace of a claim when a reclaim pass deletes it,
    in every run: with volumes bound, claims deleted and replaced, and workspaces created
    by anyone at any time, and the pass failing or crashing anywhere. */
module VolumeRuns {
  import opened Api
  import opened ReclaimRuns

  // -------------------------------------------------- the volume read with a claim

  /** The volume the pass read with its claim, from the read on. */
  function VolumeRead(p: Progress): Option<nat> {
    if p.Read? || p.Released? then p.claim.volume
    else if p.Marked? || p.WorkspaceGone? then p.volume
    else None
  }

  predicate Reclaiming(p: Progress) { p.Read? || p.Released? || p.Marked? || p.WorkspaceGone? }

  /** The policy of a volume, if the volume is there. */
  predicate PolicyIs(c: Cluster, v: nat, policy: Policy) { v in c.policies ==> c.policies[v] == policy }

  /** The volume read is flipped once the claim is released, and any other that the claim
      of that name has come to have is not. */
  predicate FlipInv(w: World) {
    var c, read := w.cluster, VolumeRead(w.pass);
    Reclaiming(w.pass) ==>
      && (read.Some? ==> read.value < c.nextUid && (!w.pass.Read? ==> PolicyIs(c, read.value, Delete)))
      && (w.pass.name in c.claims ==>
            var v := c.claims[w.pass.name].volume;
            v.Some? && v != read ==> PolicyIs(c, v.value, Retain))
  }

  lemma StepKeepsFlips(w: World, s: Step)
    requires StampInv(w) && FlipInv(w)
    ensures FlipInv(Next(w, s, true))
  {
    hide FlipInv;
    hide StampInv;
    hide SweepStep;
    hide PrepareStep;
    hide RemoveStep;
    hide StopStep;
    hide UserStep;
    hide ClaimStep;
    hide FinishStep;
    match s {
    case List | ListClaims | DeleteOrphan(_) | EndSweep => PassKeepsFlips(w, s);
    case GetClaim(_) | ReleaseVolume | Mark => PrepareKeepsFlips(w, s);
    case DeleteWorkspace | DeleteClaim => PassKeepsFlips(w, s);
    case Fail | Crash => PassKeepsFlips(w, s);
    case NewWorkspace(_) | EndWorkspace(_) | RequestDelete(_) => OutsideKeepsFlips(w, s);
    case NewClaim(_) | Bind(_) | DeleteClaimOutside(_) => OutsideKeepsFlips(w, s);
    case FinishClaim(n) => FinishKeepsFlips(w, n);
    }
    FlipsIgnoreHistory(Moved(w, s, true), Next(w, s, true).vacated);
  }

  lemma FlipsIgnoreHistory(w: World, vacated: set<nat>)
    requires FlipInv(w)
    ensures FlipInv(w.(vacated := vacated))
  {
  }

  lemma PassKeepsFlips(w: World, s: Step)
    requires StampInv(w) && FlipInv(w)
    ensures FlipInv(SweepStep(w, s)) && FlipInv(RemoveStep(w, s)) && FlipInv(StopStep(w, s))
  {
    hide Orphans;
    hide UniqueUids;
  }

  lemma PrepareKeepsFlips(w: World, s: Step)
    requires StampInv(w) && FlipInv(w)
    ensures FlipInv(PrepareStep(w, s, true))
  {
    hide UniqueUids;
  }

  lemma OutsideKeepsFlips(w: World, s: Step)
    requires StampInv(w) && FlipInv(w)
    ensures FlipInv(UserStep(w, s)) && FlipInv(ClaimStep(w, s))
  {
    hide UniqueUids;
  }

  lemma FinishKeepsFlips(w: World, n: Name)
    requires StampInv(w) && FlipInv(w)
    ensures FlipInv(FinishStep(w, n))
  {
    hide UniqueUids;
  }

  lemma {:induction false} RunKeepsFlips(w: World, steps: seq<Step>)
    requires StampInv(w) && FlipInv(w)
    ensures StampInv(Run(w, steps, true)) && FlipInv(Run(w, steps, true))
    decreases |steps|
  {
    hide Next;
    if steps != [] {
      StepKeepsStamps(w, steps[0], true);
      StepKeepsFlips(w, steps[0]);
      RunKeepsFlips(Next(w, steps[0], true), steps[1..]);
    }
  }

  /** In every run with deleteVolumeData, when a pass is about to delete a claim, that
      claim's volume has been flipped if and only if the claim is not bound, its volume is
      gone, or it is the volume the pass read with the claim. */
  lemma DeletesFlippedExactly(w: World, steps: seq<Step>)
    requires Initial(w)
    ensures var w' := Run(w, steps, true);
      w'.pass.WorkspaceGone? && w'.pass.name in w'.cluster.claims ==>
        var v := w'.cluster.claims[w'.pass.name].volume;
        Flipped(w'.cluster, v, true) <==> v.None? || v.value !in w'.cluster.policies || v == w'.pass.volume
  {
    RunKeepsFlips(w, steps);
  }

  // ------------------------------------------------------- every claim's volume

  predicate UniqueVolumes(c: Cluster) {
    forall m, n :: m in c.claims && n in c.claims && m != n && c.claims[m].volume.Some? ==>
      c.claims[m].volume != c.claims[n].volume
  }

  /** The claim's volume, if there is one, is flipped exactly when a pass released it. */
  predicate ClaimFlipped(w: World, p: Pvc) {
    p.volume.Some? && p.volume.value in w.cluster.policies ==>
      (w.cluster.policies[p.volume.value] == Delete <==> (p.uid, p.volume.value) in w.released)
  }

  /** No claim but the one the pass has read has the volume it read. */
  predicate ReadAlone(c: Cluster, p: Pvc) {
    p.volume.Some? ==>
      p.volume.value < c.nextUid && forall n :: n in c.claims && c.claims[n].volume == p.volume ==> c.claims[n].uid == p.uid
  }

  predicate ReleasedInv(w: World, dvd: bool) {
    && UniqueVolumes(w.cluster)
    && (forall r :: r in w.released ==> r.1 < w.cluster.nextUid)
    && (forall n :: n in w.cluster.claims ==> ClaimFlipped(w, w.cluster.claims[n]))
    && (w.pass.Read? ==> ReadAlone(w.cluster, w.pass.claim))
    && (forall v :: v in w.lost ==> (w.lost[v], v) in w.released)
    && (!dvd ==> w.released == {})
  }

  lemma StepKeepsReleased(w: World, s: Step, dvd: bool)
    requires StampInv(w) && ReleasedInv(w, dvd)
    ensures ReleasedInv(Next(w, s, dvd), dvd)
  {
    hide ReleasedInv;
    hide StampInv;
    hide SweepStep;
    hide PrepareStep;
    hide RemoveStep;
    hide StopStep;
    hide UserStep;
    hide ClaimStep;
    hide FinishStep;
    match s {
    case List | ListClaims | DeleteOrphan(_) | EndSweep => SweepKeepsReleased(w, s, dvd);
    case GetClaim(_) | ReleaseVolume | Mark => PrepareKeepsReleased(w, s, dvd);
    case DeleteWorkspace | DeleteClaim => PassKeepsReleased(w, s, dvd);
    case Fail | Crash => PassKeepsReleased(w, s, dvd);
    case NewWorkspace(_) | EndWorkspace(_) | RequestDelete(_) => UserKeepsReleased(w, s, dvd);
    case NewClaim(_) | Bind(_) | DeleteClaimOutside(_) => ClaimKeepsReleased(w, s, dvd);
    case FinishClaim(n) => FinishKeepsReleased(w, n, dvd);
    }
    ReleasedIgnoresHistory(Moved(w, s, dvd), Next(w, s, dvd).vacated, dvd);
  }

  lemma ReleasedIgnoresHistory(w: World, vacated: set<nat>, dvd: bool)
    requires ReleasedInv(w, dvd)
    ensures ReleasedInv(w.(vacated := vacated), dvd)
  {
  }

  lemma PassKeepsReleased(w: World, s: Step, dvd: bool)
    requires StampInv(w) && ReleasedInv(w, dvd)
    ensures ReleasedInv(RemoveStep(w, s), dvd) && ReleasedInv(StopStep(w, s), dvd)
  {
    hide UniqueUids;
  }

  lemma SweepKeepsReleased(w: World, s: Step, dvd: bool)
    requires StampInv(w) && ReleasedInv(w, dvd)
    ensures ReleasedInv(SweepStep(w, s), dvd)
  {
    hide Orphans;
    hide UniqueUids;
  }

  lemma PrepareKeepsReleased(w: World, s: Step, dvd: bool)
    requires StampInv(w) && ReleasedInv(w, dvd)
    ensures ReleasedInv(PrepareStep(w, s, dvd), dvd)
  {
    hide UniqueUids;
  }

  lemma UserKeepsReleased(w: World, s: Step, dvd: bool)
    requires StampInv(w) && ReleasedInv(w, dvd)
    ensures ReleasedInv(UserStep(w, s), dvd)
  {
    hide UniqueUids;
  }

  lemma ClaimKeepsReleased(w: World, s: Step, dvd: bool)
    requires StampInv(w) && ReleasedInv(w, dvd)
    ensures ReleasedInv(ClaimStep(w, s), dvd)
  {
    hide UniqueUids;
  }

  lemma FinishKeepsReleased(w: World, n: Name, dvd: bool)
    requires StampInv(w) && ReleasedInv(w, dvd)
    ensures ReleasedInv(FinishStep(w, n), dvd)
  {
    hide UniqueUids;
  }

  lemma {:induction false} RunKeepsReleased(w: World, steps: seq<Step>, dvd: bool)
    requires StampInv(w) && ReleasedInv(w, dvd)
    ensures ReleasedInv(Run(w, steps, dvd), dvd)
    decreases |steps|
  {
    hide Next;
    if steps != [] {
      StepKeepsStamps(w, steps[0], dvd);
      StepKeepsReleased(w, steps[0], dvd);
      RunKeepsReleased(Next(w, steps[0], dvd), steps[1..], dvd);
    }
  }

  /** In every run with deleteVolumeData, and at any moment of it, the sweep's deletions
      among them: a claim's volume has been flipped if and only if the claim is not bound,
      its volume is gone, or some pass released that volume as it had read it with that
      claim. A volume bound after the last such read is not. */
  lemma VolumesFlippedExactly(w: World, steps: seq<Step>, n: Name)
    requires Initial(w) && UniqueVolumes(w.cluster)
    ensures var w' := Run(w, steps, true);
      n in w'.cluster.claims ==>
        var p := w'.cluster.claims[n];
        Flipped(w'.cluster, p.volume, true) <==>
          p.volume.None? || p.volume.value !in w'.cluster.policies || (p.uid, p.volume.value) in w'.released
  {
    RunKeepsReleased(w, steps, true);
  }

  /** In every run, whoever deletes the claims: data is lost only with a claim whose volume
      a pass released as it had read it with that claim, and without deleteVolumeData
      never. */
  lemma DataLostOnlyWhenReleased(w: World, steps: seq<Step>, dvd: bool, v: nat)
    requires Initial(w) && UniqueVolumes(w.cluster)
    ensures var w' := Run(w, steps, dvd);
      v in w'.lost ==> dvd && (w'.lost[v], v) in w'.released
  {
    RunKeepsReleased(w, steps, dvd);
  }

  // ------------------------------------------------------- the workspace before it

  predicate VacatedInv(w: World) {
    var c := w.cluster;
    && c.live <= c.workspaces && Vacant(c) <= w.vacated
    && (w.pass.Listed? ==> forall n :: n in c.claims && n !in w.pass.names && c.claims[n].stamped ==> c.claims[n].uid in w.vacated)
    && (w.pass.Sweeping? ==> forall n :: n in w.pass.orphans ==> w.pass.orphans[n] in w.vacated)
    && (w.pass.WorkspaceGone? && w.pass.name in c.claims && c.claims[w.pass.name].uid == w.pass.uid ==> w.pass.uid in w.vacated)
  }

  lemma StepKeepsVacated(w: World, s: Step, dvd: bool)
    requires StampInv(w) && VacatedInv(w)
    ensures VacatedInv(Next(w, s, dvd))
  {
    hide VacatedInv;
    hide StampInv;
    hide Closed;
    hide SweepStep;
    hide PrepareStep;
    hide RemoveStep;
    hide StopStep;
    hide UserStep;
    hide ClaimStep;
    hide FinishStep;
    match s {
    case List | ListClaims | DeleteOrphan(_) | EndSweep => SweepKeepsVacated(w, s);
    case GetClaim(_) | ReleaseVolume | Mark => PrepareKeepsVacated(w, s, dvd);
    case DeleteWorkspace | DeleteClaim => RemoveKeepsVacated(w, s);
    case Fail | Crash => RemoveKeepsVacated(w, s);
    case NewWorkspace(_) | EndWorkspace(_) | RequestDelete(_) => OutsideKeepsVacated(w, s);
    case NewClaim(_) | Bind(_) | DeleteClaimOutside(_) => OutsideKeepsVacated(w, s);
    case FinishClaim(n) => FinishKeepsVacated(w, n);
    }
  }

  lemma SweepKeepsVacated(w: World, s: Step)
    requires StampInv(w) && VacatedInv(w)
    ensures VacatedInv(Closed(SweepStep(w, s)))
  {
    hide UniqueUids;
    hide Vacant;
    if s.List? {
      forall n | n in w.cluster.claims && n !in w.cluster.workspaces && w.cluster.claims[n].stamped
        ensures w.cluster.claims[n].uid in w.vacated
      {
        VacantHas(w.cluster, n);
      }
    }
  }

  lemma PrepareKeepsVacated(w: World, s: Step, dvd: bool)
    requires StampInv(w) && VacatedInv(w)
    ensures VacatedInv(Closed(PrepareStep(w, s, dvd)))
  {
    hide UniqueUids;
    hide Vacant;
  }

  /** The deletion of the workspace vacates the claim that bears the stamp. */
  lemma RemoveKeepsVacated(w: World, s: Step)
    requires StampInv(w) && VacatedInv(w)
    ensures VacatedInv(Closed(RemoveStep(w, s))) && VacatedInv(Closed(StopStep(w, s)))
  {
    hide UniqueUids;
    hide Vacant;
    if s.DeleteWorkspace? && w.pass.Marked? && w.pass.name in w.cluster.claims && w.cluster.claims[w.pass.name].uid == w.pass.uid {
      VacantHas(RemoveStep(w, s).cluster, w.pass.name);
    }
  }

  lemma OutsideKeepsVacated(w: World, s: Step)
    requires StampInv(w) && VacatedInv(w)
    ensures VacatedInv(Closed(UserStep(w, s))) && VacatedInv(Closed(ClaimStep(w, s)))
  {
    hide UniqueUids;
    hide Vacant;
  }

  lemma FinishKeepsVacated(w: World, n: Name)
    requires StampInv(w) && VacatedInv(w)
    ensures VacatedInv(Closed(FinishStep(w, n)))
  {
    hide UniqueUids;
    hide Vacant;
  }

  lemma {:induction false} RunKeepsVacated(w: World, steps: seq<Step>, dvd: bool)
    requires StampInv(w) && VacatedInv(w)
    ensures VacatedInv(Run(w, steps, dvd))
    decreases |steps|
  {
    hide Next;
    if steps != [] {
      StepKeepsStamps(w, steps[0], dvd);
      StepKeepsVacated(w, steps[0], dvd);
      RunKeepsVacated(Next(w, steps[0], dvd), steps[1..], dvd);
    }
  }

  /** In every run, when a pass is about to delete a claim that is still the stamped one,
      that claim has had no live workspace at some time since its stamp. */
  lemma DeletesVacatedOnly(w: World, steps: seq<Step>, dvd: bool, n: Name)
    requires Initial(w)
    ensures var w' := Run(w, steps, dvd);
      && (w'.pass.WorkspaceGone? && n == w'.pass.name && n in w'.cluster.claims && w'.cluster.claims[n].uid == w'.pass.uid ==>
            w'.pass.uid in w'.vacated)
      && (w'.pass.Sweeping? && n in w'.pass.orphans ==> w'.pass.orphans[n] in w'.vacated)
  {
    RunKeepsVacated(w, steps, dvd);
  }
}
