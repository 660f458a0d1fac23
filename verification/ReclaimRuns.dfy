/** Reclamation as a protocol: the pass one API call at a time, with a failure or a crash
    possible at every point, beside users who come back, a binder and whatever else
    writes the cluster. What is deleted, and in what order, over every run. */
module ReclaimRuns {
  import opened Api

  datatype Policy = Retain | Delete

  /** A claim as the reclaimer sees it; `uid` tells a claim from a later one of its name,
      `deleting` that its deletion has been issued. */
  datatype Pvc = Pvc(uid: nat, volume: Option<nat>, stamped: bool, deleting: bool)

  /** The names of the workspaces that are there, those of them not being deleted, the
      claims by name, and the reclaim policy of every volume there is. */
  datatype Cluster = Cluster(
    nextUid: nat,
    workspaces: set<Name>,
    live: set<Name>,
    claims: map<Name, Pvc>,
    policies: map<nat, Policy>)

  /** How far the pass has come; a crash leaves it Resting. The uids are those of the
      claims that bore the stamp when the pass last saw them, the volume is the one the
      pass read with its claim. */
  datatype Progress =
    | Resting
    | Listed(names: set<Name>)
    | Sweeping(names: set<Name>, orphans: map<Name, nat>)
    | Choosing(names: set<Name>)
    | Read(names: set<Name>, name: Name, claim: Pvc)
    | ReadNone(names: set<Name>, name: Name)
    | Released(names: set<Name>, name: Name, claim: Pvc)
    | Marked(names: set<Name>, name: Name, uid: nat, volume: Option<nat>)
    | WorkspaceGone(names: set<Name>, name: Name, uid: nat, volume: Option<nat>)

  /** `issued` holds each claim as it was when the reclaimer issued its deletion, by uid;
      `vacated` the claims that have been stamped while no live workspace had their name;
      `lost` the volumes whose data went with their claim; `released` each volume a pass
      has flipped, with the uid of the claim it read it from. */
  datatype World = World(
    cluster: Cluster,
    pass: Progress,
    issued: map<nat, Pvc>,
    vacated: set<nat>,
    lost: map<nat, nat>,
    released: set<(nat, nat)>)

  datatype Step =
    // the pass
    | List
    | ListClaims
    | DeleteOrphan(name: Name)
    | EndSweep
    | GetClaim(name: Name)
    | ReleaseVolume
    | Mark
    | DeleteWorkspace
    | DeleteClaim
    // what ends it early: an error goes on to the next candidate, or ends the sweep
    | Fail
    | Crash
    // everyone else
    | NewWorkspace(name: Name)
    | EndWorkspace(name: Name)
    | RequestDelete(name: Name)
    | NewClaim(name: Name)
    | Bind(name: Name)
    | FinishClaim(name: Name)
    | DeleteClaimOutside(name: Name)

  /** Deleting a workspace: it is on its way out, and no longer live. */
  function WithoutLive(c: Cluster, n: Name): Cluster { c.(live := c.live - {n}) }

  function PutClaim(c: Cluster, n: Name, p: Pvc): Cluster { c.(claims := c.claims[n := p]) }

  /** The deletion of a claim, with what it deletes on record; none is no error. */
  function IssueDelete(w: World, n: Name): World {
    if n !in w.cluster.claims then w
    else
      var p := w.cluster.claims[n];
      w.(cluster := PutClaim(w.cluster, n, p.(deleting := true)),
         issued := w.issued[p.uid := p])
  }

  /** The flip: a claim that is not bound, or a volume that is not there, needs none. */
  function Flip(c: Cluster, p: Pvc): Cluster {
    if p.volume.Some? && p.volume.value in c.policies
    then c.(policies := c.policies[p.volume.value := Delete]) else c
  }

  /** The stamped claims without a workspace in the list, less those already going. */
  function Orphans(c: Cluster, names: set<Name>): map<Name, nat> {
    map n | n in c.claims && c.claims[n].stamped && !c.claims[n].deleting && n !in names :: c.claims[n].uid
  }

  predicate Attempting(p: Progress) { p.Read? || p.ReadNone? || p.Released? || p.Marked? || p.WorkspaceGone? }

  /** The beginning of a pass: one list of workspaces, one of claims, and the deletion of
      what an earlier pass left behind. */
  function SweepStep(w: World, s: Step): World {
    match s
    case List => if w.pass.Resting? then w.(pass := Listed(w.cluster.workspaces)) else w
    case ListClaims =>
      if w.pass.Listed? then w.(pass := Sweeping(w.pass.names, Orphans(w.cluster, w.pass.names))) else w
    case DeleteOrphan(n) =>
      if w.pass.Sweeping? && n in w.pass.orphans
      then IssueDelete(w, n).(pass := Sweeping(w.pass.names, w.pass.orphans - {n})) else w
    case EndSweep =>
      if w.pass.Sweeping? && w.pass.orphans == map[] then w.(pass := Choosing(w.pass.names)) else w
    case _ => w
  }

  /** One candidate's reclamation up to the stamp. */
  function PrepareStep(w: World, s: Step, deleteVolumeData: bool): World {
    var c := w.cluster;
    match s
    case GetClaim(n) =>
      if !(w.pass.Choosing? && n in w.pass.names) then w
      else w.(pass := if n in c.claims then Read(w.pass.names, n, c.claims[n]) else ReadNone(w.pass.names, n))
    case ReleaseVolume =>
      if !w.pass.Read? then w
      else
        var p := w.pass.claim;
        w.(cluster := if deleteVolumeData then Flip(c, p) else c,
           pass := Released(w.pass.names, w.pass.name, p),
           released := if deleteVolumeData && p.volume.Some? then w.released + {(p.uid, p.volume.value)} else w.released)
    case Mark =>
      if !w.pass.Released? then w
      else if w.pass.claim.stamped then w.(pass := Marked(w.pass.names, w.pass.name, w.pass.claim.uid, w.pass.claim.volume))
      else if w.pass.name !in c.claims then w.(pass := Choosing(w.pass.names))
      else w.(cluster := PutClaim(c, w.pass.name, c.claims[w.pass.name].(stamped := true)),
              pass := Marked(w.pass.names, w.pass.name, c.claims[w.pass.name].uid, w.pass.claim.volume))
    case _ => w
  }

  /** The two deletions. With no claim to name, the second is an error. */
  function RemoveStep(w: World, s: Step): World {
    match s
    case DeleteWorkspace =>
      if w.pass.Marked? then
        w.(cluster := WithoutLive(w.cluster, w.pass.name), pass := WorkspaceGone(w.pass.names, w.pass.name, w.pass.uid, w.pass.volume))
      else if w.pass.ReadNone? then
        w.(cluster := WithoutLive(w.cluster, w.pass.name), pass := Choosing(w.pass.names))
      else w
    case DeleteClaim =>
      if w.pass.WorkspaceGone? then IssueDelete(w, w.pass.name).(pass := Choosing(w.pass.names)) else w
    case _ => w
  }

  /** An error goes on to the next candidate, or ends the sweep and with it the pass. */
  function StopStep(w: World, s: Step): World {
    w.(pass := if s.Fail? && Attempting(w.pass) then Choosing(w.pass.names) else Resting)
  }

  function UserStep(w: World, s: Step): World {
    var c := w.cluster;
    match s
    case NewWorkspace(n) =>
      if n in c.workspaces then w else w.(cluster := c.(workspaces := c.workspaces + {n}, live := c.live + {n}))
    case EndWorkspace(n) =>
      if n in c.live then w else w.(cluster := c.(workspaces := c.workspaces - {n}))
    case RequestDelete(n) => w.(cluster := WithoutLive(c, n))
    case _ => w
  }

  function ClaimStep(w: World, s: Step): World {
    var c := w.cluster;
    match s
    case NewClaim(n) =>
      if n in c.claims then w
      else w.(cluster := PutClaim(c, n, Pvc(c.nextUid, None, false, false)).(nextUid := c.nextUid + 1))
    case Bind(n) =>
      if n !in c.claims || c.claims[n].volume.Some? then w
      else w.(cluster := PutClaim(c, n, c.claims[n].(volume := Some(c.nextUid)))
                .(policies := c.policies[c.nextUid := Retain], nextUid := c.nextUid + 1))
    case DeleteClaimOutside(n) =>
      if n !in c.claims then w else w.(cluster := PutClaim(c, n, c.claims[n].(deleting := true)))
    case _ => w
  }

  /** A claim that was going is gone, and its volume is dealt with by its policy. */
  function FinishStep(w: World, n: Name): World {
    var c := w.cluster;
    if n !in c.claims || !c.claims[n].deleting then w
    else
      var p := c.claims[n];
      if p.volume.Some? && p.volume.value in c.policies && c.policies[p.volume.value] == Delete
      then w.(cluster := c.(claims := c.claims - {n}, policies := c.policies - {p.volume.value}),
              lost := w.lost[p.volume.value := p.uid])
      else w.(cluster := c.(claims := c.claims - {n}))
  }

  function Moved(w: World, s: Step, deleteVolumeData: bool): World {
    match s
    case List | ListClaims | DeleteOrphan(_) | EndSweep => SweepStep(w, s)
    case GetClaim(_) | ReleaseVolume | Mark => PrepareStep(w, s, deleteVolumeData)
    case DeleteWorkspace | DeleteClaim => RemoveStep(w, s)
    case Fail | Crash => StopStep(w, s)
    case NewWorkspace(_) | EndWorkspace(_) | RequestDelete(_) => UserStep(w, s)
    case NewClaim(_) | Bind(_) | DeleteClaimOutside(_) => ClaimStep(w, s)
    case FinishClaim(n) => FinishStep(w, n)
  }

  /** The claims that are stamped while no live workspace has their name. */
  function Vacant(c: Cluster): set<nat> {
    set n | n in c.claims && c.claims[n].stamped && n !in c.live :: c.claims[n].uid
  }

  function Closed(w: World): World { w.(vacated := w.vacated + Vacant(w.cluster)) }

  function Next(w: World, s: Step, deleteVolumeData: bool): World { Closed(Moved(w, s, deleteVolumeData)) }

  function Run(w: World, steps: seq<Step>, deleteVolumeData: bool): World
    decreases |steps|
  {
    if steps == [] then w else Run(Next(w, steps[0], deleteVolumeData), steps[1..], deleteVolumeData)
  }

  /** A cluster before the reclaimer ever ran: no stamps, no deletions of claims, every
      volume retained. */
  predicate Initial(w: World) {
    var c := w.cluster;
    && w.pass.Resting? && w.issued == map[] && w.vacated == {} && w.lost == map[] && w.released == {}
    && c.live <= c.workspaces
    && (forall n :: n in c.claims ==> !c.claims[n].stamped && !c.claims[n].deleting && Known(c, c.claims[n]))
    && (forall v :: v in c.policies ==> c.policies[v] == Retain)
    && UniqueUids(c)
  }

  /** Names of claims and volumes are drawn from one counter. */
  predicate Known(c: Cluster, p: Pvc) { p.uid < c.nextUid && (p.volume.Some? ==> p.volume.value < c.nextUid) }

  predicate UniqueUids(c: Cluster) {
    forall m, n :: m in c.claims && n in c.claims && m != n ==> c.claims[m].uid != c.claims[n].uid
  }

  // ------------------------------------------- what a deletion hits, in every run

  /** What the pass knows of a stamp: a claim it saw stamped still is, and a claim that
      has since taken the name is not. */
  predicate SeenStamped(c: Cluster, n: Name, uid: nat) {
    uid < c.nextUid && (n in c.claims ==> (c.claims[n].stamped <==> c.claims[n].uid == uid))
  }

  predicate SeenAs(c: Cluster, n: Name, p: Pvc) {
    && p.uid < c.nextUid
    && (n in c.claims ==> if c.claims[n].uid == p.uid then p.stamped ==> c.claims[n].stamped else !c.claims[n].stamped)
  }

  predicate StampInv(w: World) {
    var c := w.cluster;
    && UniqueUids(c)
    && (forall n :: n in c.claims ==> Known(c, c.claims[n]))
    && (w.pass.Sweeping? ==> forall n :: n in w.pass.orphans ==> SeenStamped(c, n, w.pass.orphans[n]))
    && (w.pass.Read? || w.pass.Released? ==> SeenAs(c, w.pass.name, w.pass.claim))
    && (w.pass.Marked? || w.pass.WorkspaceGone? ==> SeenStamped(c, w.pass.name, w.pass.uid))
  }

  lemma StepKeepsStamps(w: World, s: Step, dvd: bool)
    requires StampInv(w)
    ensures StampInv(Next(w, s, dvd))
  {
    hide StampInv;
    hide SweepStep;
    hide PrepareStep;
    hide RemoveStep;
    hide UserStep;
    hide ClaimStep;
    hide FinishStep;
    match s {
    case List | ListClaims | DeleteOrphan(_) | EndSweep => SweepKeepsStamps(w, s);
    case GetClaim(_) | ReleaseVolume | Mark => PrepareKeepsStamps(w, s, dvd);
    case DeleteWorkspace | DeleteClaim => RemoveKeepsStamps(w, s);
    case Fail | Crash => StopKeepsStamps(w, s);
    case NewWorkspace(_) | EndWorkspace(_) | RequestDelete(_) => UserKeepsStamps(w, s);
    case NewClaim(_) | Bind(_) | DeleteClaimOutside(_) => ClaimKeepsStamps(w, s);
    case FinishClaim(n) => FinishKeepsStamps(w, n);
    }
    StampsIgnoreHistory(Moved(w, s, dvd), Next(w, s, dvd).vacated);
  }

  lemma StampsIgnoreHistory(w: World, vacated: set<nat>)
    requires StampInv(w)
    ensures StampInv(w.(vacated := vacated))
  {
  }

  lemma StopKeepsStamps(w: World, s: Step)
    requires StampInv(w)
    ensures StampInv(StopStep(w, s))
  {
  }

  lemma SweepKeepsStamps(w: World, s: Step)
    requires StampInv(w)
    ensures StampInv(SweepStep(w, s))
  {
  }

  lemma PrepareKeepsStamps(w: World, s: Step, dvd: bool)
    requires StampInv(w)
    ensures StampInv(PrepareStep(w, s, dvd))
  {
  }

  lemma RemoveKeepsStamps(w: World, s: Step)
    requires StampInv(w)
    ensures StampInv(RemoveStep(w, s))
  {
  }

  lemma UserKeepsStamps(w: World, s: Step)
    requires StampInv(w)
    ensures StampInv(UserStep(w, s))
  {
  }

  lemma ClaimKeepsStamps(w: World, s: Step)
    requires StampInv(w)
    ensures StampInv(ClaimStep(w, s))
  {
  }

  lemma FinishKeepsStamps(w: World, n: Name)
    requires StampInv(w)
    ensures StampInv(FinishStep(w, n))
  {
  }

  lemma {:induction false} RunKeepsStamps(w: World, steps: seq<Step>, dvd: bool)
    requires StampInv(w)
    ensures StampInv(Run(w, steps, dvd))
    decreases |steps|
  {
    hide Next;
    if steps != [] {
      StepKeepsStamps(w, steps[0], dvd);
      RunKeepsStamps(Next(w, steps[0], dvd), steps[1..], dvd);
    }
  }

  /** Whatever happens in between, crashes, binders, outside deletions: the claim that a
      pass deletes bears the stamp if and only if it is still the claim that the pass
      saw or set the stamp on. */
  lemma DeletesStampedExactly(w: World, steps: seq<Step>, dvd: bool, n: Name)
    requires Initial(w)
    ensures var p, claims := Run(w, steps, dvd).pass, Run(w, steps, dvd).cluster.claims;
      && (p.WorkspaceGone? && p.name == n && n in claims ==> (claims[n].stamped <==> claims[n].uid == p.uid))
      && (p.Sweeping? && n in p.orphans && n in claims ==> (claims[n].stamped <==> claims[n].uid == p.orphans[n]))
  {
    RunKeepsStamps(w, steps, dvd);
  }

  // ----------------------------------------------------- what is never deleted

  /** Nobody but the reclaimer deletes claims, a claim is gone before the next attempt on
      its name, and no volume is bound to a claim that is stamped or being read. */
  predicate Orderly(w: World, s: Step) {
    && !s.DeleteClaimOutside?
    && (s.GetClaim? && s.name in w.cluster.claims ==> !w.cluster.claims[s.name].deleting)
    && (s.Bind? && s.name in w.cluster.claims ==>
          !w.cluster.claims[s.name].stamped && !(Attempting(w.pass) && w.pass.name == s.name))
  }

  predicate OrderlyRun(w: World, steps: seq<Step>, dvd: bool)
    decreases |steps|
  {
    steps != [] ==> Orderly(w, steps[0]) && OrderlyRun(Next(w, steps[0], dvd), steps[1..], dvd)
  }

  /** The volume, if it is there, has been flipped where it must be. */
  predicate Flipped(c: Cluster, volume: Option<nat>, dvd: bool) {
    dvd && volume.Some? && volume.value in c.policies ==> c.policies[volume.value] == Delete
  }

  /** A stamped claim has had its volume flipped; a claim that is going was stamped, and
      its deletion is on record. */
  predicate ClaimInv(w: World, p: Pvc, dvd: bool) {
    && (p.stamped ==> Flipped(w.cluster, p.volume, dvd))
    && (p.deleting ==> p.stamped && p.uid in w.issued)
    && (p.uid in w.issued ==> p.stamped && w.issued[p.uid].volume == p.volume)
  }

  predicate ClaimsInv(w: World, dvd: bool) {
    && w.cluster.live <= w.cluster.workspaces
    && (forall n :: n in w.cluster.claims ==> ClaimInv(w, w.cluster.claims[n], dvd))
    && (!dvd ==> forall v :: v in w.cluster.policies ==> w.cluster.policies[v] == Retain)
  }

  /** Every deletion issued was of a stamped claim, vacated, with its volume flipped; and
      data was lost only where the setting asks for it and a deletion was issued. */
  predicate IssuedInv(w: World, dvd: bool) {
    && (forall u :: u in w.issued ==>
          && w.issued[u].uid == u && Known(w.cluster, w.issued[u])
          && w.issued[u].stamped && u in w.vacated && Flipped(w.cluster, w.issued[u].volume, dvd))
    && (forall v :: v in w.lost ==> dvd && w.lost[v] in w.issued && w.issued[w.lost[v]].volume == Some(v))
  }

  predicate Held(c: Cluster, n: Name) { n in c.claims && !c.claims[n].deleting }

  predicate PassInv(w: World, dvd: bool) {
    var c := w.cluster;
    match w.pass
    case Listed(names) =>
      forall n :: n in c.claims && n !in names && c.claims[n].stamped ==> c.claims[n].uid in w.vacated
    case Sweeping(_, orphans) =>
      forall n :: n in orphans ==> Held(c, n) && c.claims[n].uid == orphans[n] && orphans[n] in w.vacated
    case Read(_, n, p) => Held(c, n) && c.claims[n] == p
    case Released(_, n, p) => Held(c, n) && c.claims[n] == p && Flipped(c, p.volume, dvd)
    case Marked(_, n, uid, _) => Held(c, n) && c.claims[n].uid == uid
    case WorkspaceGone(_, n, uid, _) => Held(c, n) && c.claims[n].uid == uid && uid in w.vacated
    case _ => true
  }

  predicate Inv(w: World, dvd: bool) { StampInv(w) && SafeInv(w, dvd) }

  predicate SafeInv(w: World, dvd: bool) { PartsInv(w, dvd) && Vacant(w.cluster) <= w.vacated }

  predicate PartsInv(w: World, dvd: bool) { ClaimsInv(w, dvd) && IssuedInv(w, dvd) && PassInv(w, dvd) }

  lemma ClosedIsSafe(w: World, dvd: bool)
    requires PartsInv(w, dvd)
    ensures SafeInv(Closed(w), dvd)
  {
  }

  lemma VacantHas(c: Cluster, n: Name)
    requires n in c.claims && c.claims[n].stamped && n !in c.live
    ensures c.claims[n].uid in Vacant(c)
  {
  }

  /** Issuing the deletion of a stamped, vacated claim. */
  lemma IssueIsSafe(w: World, n: Name, dvd: bool)
    requires StampInv(w) && ClaimsInv(w, dvd) && IssuedInv(w, dvd)
    requires n in w.cluster.claims && w.cluster.claims[n].stamped && w.cluster.claims[n].uid in w.vacated
    ensures var w' := IssueDelete(w, n); ClaimsInv(w', dvd) && IssuedInv(w', dvd)
  {
  }

  lemma StepKeepsInv(w: World, s: Step, dvd: bool)
    requires Inv(w, dvd) && Orderly(w, s)
    ensures Inv(Next(w, s, dvd), dvd)
  {
    hide StampInv;
    hide SafeInv;
    hide PartsInv;
    hide Closed;
    hide SweepStep;
    hide PrepareStep;
    hide RemoveStep;
    hide StopStep;
    hide UserStep;
    hide ClaimStep;
    hide FinishStep;
    StepKeepsStamps(w, s, dvd);
    match s {
    case List | ListClaims | DeleteOrphan(_) | EndSweep => SweepKeepsSafe(w, s, dvd);
    case GetClaim(_) | ReleaseVolume | Mark => PrepareKeepsSafe(w, s, dvd);
    case DeleteWorkspace | DeleteClaim => RemoveKeepsSafe(w, s, dvd);
    case Fail | Crash => StopKeepsSafe(w, s, dvd);
    case NewWorkspace(_) | EndWorkspace(_) | RequestDelete(_) => UserKeepsSafe(w, s, dvd);
    case NewClaim(_) | Bind(_) | DeleteClaimOutside(_) => ClaimKeepsSafe(w, s, dvd);
    case FinishClaim(n) => FinishKeepsSafe(w, n, dvd);
    }
    if !s.DeleteWorkspace? && !s.DeleteClaim? {
      ClosedIsSafe(Moved(w, s, dvd), dvd);
    }
  }

  lemma SweepKeepsSafe(w: World, s: Step, dvd: bool)
    requires StampInv(w) && SafeInv(w, dvd)
    ensures PartsInv(SweepStep(w, s), dvd)
  {
    if s.DeleteOrphan? && w.pass.Sweeping? && s.name in w.pass.orphans {
      hide ClaimsInv;
      hide IssuedInv;
      IssueIsSafe(w, s.name, dvd);
      PassIsApart(IssueDelete(w, s.name), SweepStep(w, s).pass, dvd);
    } else if s.List? || s.ListClaims? {
      hide ClaimInv;
      hide IssuedInv;
      PassIsApart(w, SweepStep(w, s).pass, dvd);
      ListedIsSafe(w, dvd);
    } else {
      PassIsApart(w, SweepStep(w, s).pass, dvd);
    }
  }

  lemma ListedIsSafe(w: World, dvd: bool)
    requires StampInv(w) && SafeInv(w, dvd)
    ensures PassInv(w.(pass := Listed(w.cluster.workspaces)), dvd)
    ensures w.pass.Listed? ==> PassInv(w.(pass := Sweeping(w.pass.names, Orphans(w.cluster, w.pass.names))), dvd)
  {
    forall n | n in w.cluster.claims && n !in w.cluster.workspaces && w.cluster.claims[n].stamped
      ensures w.cluster.claims[n].uid in w.vacated
    {
      VacantHas(w.cluster, n);
    }
  }

  /** The progress of the pass says nothing about claims and deletions. */
  lemma PassIsApart(w: World, pass: Progress, dvd: bool)
    requires ClaimsInv(w, dvd) && IssuedInv(w, dvd)
    ensures ClaimsInv(w.(pass := pass), dvd) && IssuedInv(w.(pass := pass), dvd)
  {
  }

  lemma PrepareKeepsSafe(w: World, s: Step, dvd: bool)
    requires StampInv(w) && SafeInv(w, dvd) && Orderly(w, s)
    ensures PartsInv(PrepareStep(w, s, dvd), dvd)
  {
    hide Vacant;
    if s.ReleaseVolume? && w.pass.Read? && dvd {
      FlipIsSafe(w, w.pass.claim, dvd);
    } else if s.Mark? && w.pass.Released? {
      MarkIsSafe(w, dvd);
    }
  }

  lemma MarkIsSafe(w: World, dvd: bool)
    requires StampInv(w) && SafeInv(w, dvd) && w.pass.Released?
    ensures PartsInv(PrepareStep(w, Mark, dvd), dvd)
  {
    hide Vacant;
    hide StampInv;
  }

  lemma FlipIsSafe(w: World, p: Pvc, dvd: bool)
    requires ClaimsInv(w, dvd) && IssuedInv(w, dvd) && dvd
    ensures var w' := w.(cluster := Flip(w.cluster, p)); ClaimsInv(w', dvd) && IssuedInv(w', dvd) && Flipped(w'.cluster, p.volume, dvd)
  {
  }

  lemma RemoveKeepsSafe(w: World, s: Step, dvd: bool)
    requires StampInv(w) && SafeInv(w, dvd)
    ensures SafeInv(Closed(RemoveStep(w, s)), dvd)
  {
    if s.DeleteClaim? && w.pass.WorkspaceGone? {
      hide ClaimsInv;
      hide IssuedInv;
      IssueIsSafe(w, w.pass.name, dvd);
      PassIsApart(IssueDelete(w, w.pass.name), RemoveStep(w, s).pass, dvd);
      ClosedIsSafe(RemoveStep(w, s), dvd);
    } else {
      WorkspaceFirst(w, s, dvd);
    }
  }

  /** The deletion of the workspace vacates the claim before the claim's own is issued. */
  lemma WorkspaceFirst(w: World, s: Step, dvd: bool)
    requires StampInv(w) && SafeInv(w, dvd) && !(s.DeleteClaim? && w.pass.WorkspaceGone?)
    ensures SafeInv(Closed(RemoveStep(w, s)), dvd)
  {
    hide ClaimInv;
    hide Flipped;
    hide IssuedInv;
    hide Vacant;
    var w' := RemoveStep(w, s);
    assert IssuedInv(Closed(w'), dvd) by { IssuedIsApart(w, Closed(w'), dvd); }
    ClaimsAreApart(w, Closed(w'), dvd);
    if s.DeleteWorkspace? && w.pass.Marked? {
      VacantHas(w'.cluster, w.pass.name);
    }
  }

  lemma IssuedIsApart(w: World, w': World, dvd: bool)
    requires IssuedInv(w, dvd) && w'.issued == w.issued && w'.lost == w.lost && w.vacated <= w'.vacated
    requires w'.cluster == w.cluster.(live := w'.cluster.live)
    ensures IssuedInv(w', dvd)
  {
  }

  lemma ClaimsAreApart(w: World, w': World, dvd: bool)
    requires ClaimsInv(w, dvd) && w'.issued == w.issued
    requires w'.cluster == w.cluster.(live := w'.cluster.live) && w'.cluster.live <= w.cluster.live
    ensures ClaimsInv(w', dvd)
  {
  }

  lemma StopKeepsSafe(w: World, s: Step, dvd: bool)
    requires StampInv(w) && SafeInv(w, dvd)
    ensures PartsInv(StopStep(w, s), dvd)
  {
  }

  lemma UserKeepsSafe(w: World, s: Step, dvd: bool)
    requires StampInv(w) && SafeInv(w, dvd)
    ensures PartsInv(UserStep(w, s), dvd)
  {
  }

  lemma ClaimKeepsSafe(w: World, s: Step, dvd: bool)
    requires StampInv(w) && SafeInv(w, dvd) && Orderly(w, s)
    ensures PartsInv(ClaimStep(w, s), dvd)
  {
  }

  lemma FinishKeepsSafe(w: World, n: Name, dvd: bool)
    requires StampInv(w) && SafeInv(w, dvd)
    ensures PartsInv(FinishStep(w, n), dvd)
  {
  }

  lemma {:induction false} RunKeepsInv(w: World, steps: seq<Step>, dvd: bool)
    requires Inv(w, dvd) && OrderlyRun(w, steps, dvd)
    ensures Inv(Run(w, steps, dvd), dvd)
    decreases |steps|
  {
    hide Next;
    if steps != [] {
      StepKeepsInv(w, steps[0], dvd);
      RunKeepsInv(Next(w, steps[0], dvd), steps[1..], dvd);
    }
  }

  /** Crash safety. Cut the pass anywhere, any number of times, and go on with any later
      passes: a claim whose deletion was issued bore the stamp, had at some time since
      the stamp no live workspace, and had its volume's policy at Delete first if the
      setting asks for that; and no data was lost but with such a claim. */
  lemma ReclamationIsCrashSafe(w: World, steps: seq<Step>, dvd: bool)
    requires Initial(w) && OrderlyRun(w, steps, dvd)
    ensures IssuedInv(Run(w, steps, dvd), dvd)
  {
    RunKeepsInv(w, steps, dvd);
  }

  // ------------------------------------------------ what a later pass finishes

  /** That claim is going, or gone. */
  predicate Done(w: World, n: Name, uid: nat) {
    && uid < w.cluster.nextUid
    && (n in w.cluster.claims && w.cluster.claims[n].uid == uid ==> w.cluster.claims[n].deleting)
  }

  /** The sweep under way will not end without it. */
  predicate Owed(w: World, n: Name, uid: nat) {
    || Done(w, n, uid)
    || (w.pass.Listed? && n !in w.pass.names && n in w.cluster.claims && w.cluster.claims[n].uid == uid
        && uid < w.cluster.nextUid && w.cluster.claims[n].stamped)
    || (w.pass.Sweeping? && n in w.pass.orphans && uid < w.cluster.nextUid)
  }

  lemma FlipKeepsClaims(c: Cluster, p: Pvc)
    ensures Flip(c, p).claims == c.claims && Flip(c, p).nextUid == c.nextUid
  {
  }

  /** A claim keeps its stamp and stays on its way out; one that takes its name is new. */
  lemma ClaimFate(w: World, s: Step, dvd: bool, n: Name)
    ensures var c, c' := w.cluster, Next(w, s, dvd).cluster;
      && c.nextUid <= c'.nextUid
      && (n in c'.claims ==>
            if n in c.claims then
              && c'.claims[n].uid == c.claims[n].uid
              && (c.claims[n].stamped ==> c'.claims[n].stamped)
              && (c.claims[n].deleting ==> c'.claims[n].deleting)
            else c'.claims[n].uid == c.nextUid)
  {
    hide Vacant;
    hide Flip;
    hide Orphans;
    if s.ReleaseVolume? && w.pass.Read? {
      FlipKeepsClaims(w.cluster, w.pass.claim);
    }
  }

  lemma SweepFate(w: World, s: Step, dvd: bool)
    requires (w.pass.Listed? || w.pass.Sweeping?) && !s.Fail? && !s.Crash?
    ensures Next(w, s, dvd).pass == SweepStep(w, s).pass
  {
    hide Vacant;
    hide Flip;
    hide IssueDelete;
  }

  lemma OwedStep(w: World, s: Step, dvd: bool, n: Name, uid: nat)
    requires Owed(w, n, uid) && !s.Fail? && !s.Crash?
    ensures Owed(Next(w, s, dvd), n, uid)
  {
    ClaimFate(w, s, dvd, n);
    if !Done(w, n, uid) {
      SweepFate(w, s, dvd);
      if s.DeleteOrphan? && s.name == n {
        assert Next(w, s, dvd).cluster == SweepStep(w, s).cluster;
      }
      hide Next;
      assert Owed(Next(w, s, dvd), n, uid);
    } else {
      hide Next;
      assert Done(Next(w, s, dvd), n, uid);
    }
  }

  lemma {:induction false} OwedUntilDone(w: World, steps: seq<Step>, dvd: bool, n: Name, uid: nat)
    requires Owed(w, n, uid) && forall s :: s in steps ==> !s.Fail? && !s.Crash?
    ensures Owed(Run(w, steps, dvd), n, uid)
    decreases |steps|
  {
    hide Next;
    hide Owed;
    if steps != [] {
      assert steps[0] in steps;
      OwedStep(w, steps[0], dvd, n, uid);
      OwedUntilDone(Next(w, steps[0], dvd), steps[1..], dvd, n, uid);
    }
  }

  /** Once the workspace is gone, the next pass whose sweep ends without an error has
      issued the deletion of its stamped claim, whatever happens meanwhile. */
  lemma NextPassRemovesOrphan(w: World, rest: seq<Step>, dvd: bool, n: Name)
    requires StampInv(w) && w.pass.Resting?
    requires n in w.cluster.claims && w.cluster.claims[n].stamped && n !in w.cluster.workspaces
    requires forall s :: s in rest ==> !s.Fail? && !s.Crash?
    requires var p := Run(Next(w, List, dvd), rest, dvd).pass; !p.Listed? && !p.Sweeping?
    ensures Done(Run(Next(w, List, dvd), rest, dvd), n, w.cluster.claims[n].uid)
  {
    OwedUntilDone(Next(w, List, dvd), rest, dvd, n, w.cluster.claims[n].uid);
  }

  // ------------------------------------------------------------ why Orderly is needed

  /** One idle workspace with a claim that is not bound. */
  function OneWorkspace(n: Name): World {
    World(Cluster(1, {n}, {n}, map[n := Pvc(0, None, false, false)], map[]), Resting, map[], {}, map[], {})
  }

  const UNBOUND := Pvc(0, None, false, false)

  lemma RunCons(w: World, s: Step, rest: seq<Step>, dvd: bool)
    ensures Run(w, [s] + rest, dvd) == Run(Next(w, s, dvd), rest, dvd)
  {
    assert ([s] + rest)[1..] == rest;
  }

  /** The run up to where the volume has been dealt with and the stamp is next. */
  function Opening(n: Name, rest: seq<Step>): seq<Step> {
    [List] + ([ListClaims] + ([EndSweep] + ([GetClaim(n)] + ([ReleaseVolume] + rest))))
  }

  function AtRelease(n: Name): World { OneWorkspace(n).(pass := Released({n}, n, UNBOUND)) }

  lemma OpeningReachesRelease(n: Name, rest: seq<Step>)
    ensures Run(OneWorkspace(n), Opening(n, rest), true) == Run(AtRelease(n), rest, true)
  {
    var w := OneWorkspace(n);
    var tail := [GetClaim(n)] + ([ReleaseVolume] + rest);
    RunCons(w, List, [ListClaims] + ([EndSweep] + tail), true);
    RunCons(w.(pass := Listed({n})), ListClaims, [EndSweep] + tail, true);
    RunCons(w.(pass := Sweeping({n}, map[])), EndSweep, tail, true);
    RunCons(w.(pass := Choosing({n})), GetClaim(n), [ReleaseVolume] + rest, true);
    RunCons(w.(pass := Read({n}, n, UNBOUND)), ReleaseVolume, rest, true);
    assert Next(w.(pass := Listed({n})), ListClaims, true) == w.(pass := Sweeping({n}, map[]));
    assert Next(w.(pass := Choosing({n})), GetClaim(n), true) == w.(pass := Read({n}, n, UNBOUND));
    assert Next(w.(pass := Read({n}, n, UNBOUND)), ReleaseVolume, true) == AtRelease(n);
  }

  function Marked0(n: Name, nextUid: nat, claim: Pvc, policies: map<nat, Policy>): World {
    World(Cluster(nextUid, {n}, {n}, map[n := claim], policies), Marked({n}, n, 0, None), map[], {}, map[], {})
  }

  function Gone0(n: Name, nextUid: nat, claims: map<Name, Pvc>, policies: map<nat, Policy>): World {
    World(Cluster(nextUid, {n}, {}, claims, policies), WorkspaceGone({n}, n, 0, None), map[], {0}, map[], {})
  }

  /** From the stamp, the workspace's deletion comes next. */
  lemma WorkspaceNext(n: Name, nextUid: nat, claim: Pvc, policies: map<nat, Policy>, rest: seq<Step>)
    requires claim.stamped && claim.uid == 0
    ensures Run(Marked0(n, nextUid, claim, policies), [DeleteWorkspace] + rest, true)
         == Run(Gone0(n, nextUid, map[n := claim], policies), rest, true)
  {
    var w, w' := Marked0(n, nextUid, claim, policies), Gone0(n, nextUid, map[n := claim], policies);
    RunCons(w, DeleteWorkspace, rest, true);
    assert {n} - {n} == {};
    assert Vacant(w'.cluster) == {0} by { VacantHas(w'.cluster, n); }
    assert Next(w, DeleteWorkspace, true) == w';
  }

  lemma BindThenMark(n: Name, rest: seq<Step>)
    ensures Run(AtRelease(n), [Bind(n)] + ([Mark] + rest), true)
         == Run(Marked0(n, 2, Pvc(0, Some(1), true, false), map[1 := Retain]), rest, true)
  {
    var bound := Pvc(0, Some(1), false, false);
    var w := AtRelease(n).(cluster := Cluster(2, {n}, {n}, map[n := bound], map[1 := Retain]));
    RunCons(AtRelease(n), Bind(n), [Mark] + rest, true);
    assert Next(AtRelease(n), Bind(n), true) == w;
    RunCons(w, Mark, rest, true);
    assert Next(w, Mark, true) == Marked0(n, 2, Pvc(0, Some(1), true, false), map[1 := Retain]);
  }

  /** A volume bound between the read and the deletion is not flipped: its claim goes, and
      its data stays where it was to be destroyed. */
  lemma LateBindingIsNotReleased(n: Name)
    ensures var w := Run(OneWorkspace(n), Opening(n, [Bind(n)] + ([Mark] + ([DeleteWorkspace] + ([DeleteClaim] + [])))), true);
      0 in w.issued && !Flipped(w.cluster, w.issued[0].volume, true)
  {
    var tail := [DeleteWorkspace] + ([DeleteClaim] + []);
    var bound, kept := Pvc(0, Some(1), true, false), map[1 := Retain];
    OpeningReachesRelease(n, [Bind(n)] + ([Mark] + tail));
    BindThenMark(n, tail);
    WorkspaceNext(n, 2, bound, kept, [DeleteClaim] + []);
    RunCons(Gone0(n, 2, map[n := bound], kept), DeleteClaim, [], true);
  }

  lemma OutsideDeletion(n: Name, p: Pvc)
    requires p.stamped && p.uid == 0
    ensures Next(Gone0(n, 1, map[n := p], map[]), DeleteClaimOutside(n), true) == Gone0(n, 1, map[n := p.(deleting := true)], map[])
  {
    var w' := Gone0(n, 1, map[n := p.(deleting := true)], map[]);
    assert Vacant(w'.cluster) == {0} by { VacantHas(w'.cluster, n); }
  }

  lemma Finished(n: Name, p: Pvc)
    requires p.deleting && p.volume.None?
    ensures Next(Gone0(n, 1, map[n := p], map[]), FinishClaim(n), true) == Gone0(n, 1, map[], map[])
  {
  }

  lemma Recreated(n: Name)
    ensures Next(Gone0(n, 1, map[], map[]), NewClaim(n), true) == Gone0(n, 2, map[n := Pvc(1, None, false, false)], map[])
  {
  }

  lemma Replaced(n: Name, p: Pvc, rest: seq<Step>)
    requires p.stamped && p.uid == 0 && p.volume.None?
    ensures Run(Gone0(n, 1, map[n := p], map[]), [DeleteClaimOutside(n)] + ([FinishClaim(n)] + ([NewClaim(n)] + rest)), true)
         == Run(Gone0(n, 2, map[n := Pvc(1, None, false, false)], map[]), rest, true)
  {
    hide Next;
    RunCons(Gone0(n, 1, map[n := p], map[]), DeleteClaimOutside(n), [FinishClaim(n)] + ([NewClaim(n)] + rest), true);
    OutsideDeletion(n, p);
    RunCons(Gone0(n, 1, map[n := p.(deleting := true)], map[]), FinishClaim(n), [NewClaim(n)] + rest, true);
    Finished(n, p.(deleting := true));
    RunCons(Gone0(n, 1, map[], map[]), NewClaim(n), rest, true);
    Recreated(n);
  }

  lemma MarkedUnbound(n: Name)
    ensures Next(AtRelease(n), Mark, true) == Marked0(n, 1, UNBOUND.(stamped := true), map[])
  {
  }

  lemma SuccessorGone(n: Name)
    ensures var w := Run(Gone0(n, 2, map[n := Pvc(1, None, false, false)], map[]), [DeleteClaim] + [], true);
      1 in w.issued && !w.issued[1].stamped
  {
    RunCons(Gone0(n, 2, map[n := Pvc(1, None, false, false)], map[]), DeleteClaim, [], true);
  }

  /** A claim that someone else deleted, and that a returning user replaced, is deleted in
      its stead without ever having been stamped: the deletion goes by name. */
  lemma SuccessorIsDeletedUnstamped(n: Name)
    ensures var w := Run(OneWorkspace(n),
        Opening(n, [Mark] + ([DeleteWorkspace] + ([DeleteClaimOutside(n)] + ([FinishClaim(n)] + ([NewClaim(n)] + ([DeleteClaim] + [])))))), true);
      1 in w.issued && !w.issued[1].stamped
  {
    hide Next;
    hide Run;
    var tail := [DeleteClaimOutside(n)] + ([FinishClaim(n)] + ([NewClaim(n)] + ([DeleteClaim] + [])));
    var stamped := UNBOUND.(stamped := true);
    OpeningReachesRelease(n, [Mark] + ([DeleteWorkspace] + tail));
    RunCons(AtRelease(n), Mark, [DeleteWorkspace] + tail, true);
    MarkedUnbound(n);
    WorkspaceNext(n, 1, stamped, map[], tail);
    Replaced(n, stamped, [DeleteClaim] + []);
    SuccessorGone(n);
  }
}
