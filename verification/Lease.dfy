/** How long the fleet went without a leader, as the process that takes the lease works
    it out from the lease it read before. */
module Lease {
  import opened Api
  import Ordering
  import Protocol

  /** The lease as it was found: no lease at all, or its holder and last renewal. */
  datatype Snapshot = Snapshot(found: bool, holderIdentity: string, renewTime: int)

  predicate HasPrefix(s: string, prefix: string) { |prefix| <= |s| && s[..|prefix|] == prefix }

  predicate SameHolder(holderIdentity: string, podName: string) { HasPrefix(holderIdentity, podName + "_") }

  function Leaderless(now: int, snap: Snapshot, podName: string): int {
    if !snap.found then 0
    else if SameHolder(snap.holderIdentity, podName) then 0
    else now - snap.renewTime
  }

  /** The identity a process takes the lease under: its host's name and a fresh id. */
  function HolderIdentity(host: string, id: string): string { host + "_" + id }

  /** Pod and host names hold no underscore; then the holder is recognised exactly when it
      was this pod, in whatever process. */
  lemma RecognisesExactlyItsPod(host: string, id: string, podName: string)
    requires '_' !in host && '_' !in podName
    ensures SameHolder(HolderIdentity(host, id), podName) <==> host == podName
  {
    var s, p := HolderIdentity(host, id), podName + "_";
    assert s == host + ['_'] + id && p == podName + ['_'] + [];
    Ordering.BeforeSeparator(host, '_', id);
    if HasPrefix(s, p) {
      assert s == podName + ['_'] + s[|p|..];
      Ordering.BeforeSeparator(podName, '_', s[|p|..]);
    }
    if host == podName {
      assert s[..|p|] == p;
    }
  }

  /** A re-acquisition by the same pod, or the first of all, extends no deadline; one by
      another pod extends it by exactly the time since the last renewal. */
  lemma SweepAddsTheGap(host: string, id: string, podName: string, renewTime: int, found: bool, now: int,
                        st: Status, dep: Deployment, app: App)
    requires '_' !in host && '_' !in podName
    requires st.phase == Starting && st.startDeadline.Some?
    ensures var snap := Snapshot(found, HolderIdentity(host, id), renewTime);
      Protocol.SweepStatus(st, Some(dep), app, now, Leaderless(now, snap, podName))
        == if !found || host == podName then st
           else st.(startDeadline := Some(st.startDeadline.value + (now - renewTime)))
  {
    RecognisesExactlyItsPod(host, id, podName);
  }
}
