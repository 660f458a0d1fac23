/** FIFO admission of Pending workspaces under spec.limits.maxConcurrentStarts. */
module Admission {
  import opened Api
  import opened Ordering

  /** A start in flight that no recorded failure has released yet. */
  predicate Occupies(st: Status) { st.phase == Starting && st.backoffUntil.None? }

  function Occupied(list: seq<Workspace>): nat {
    if list == [] then 0
    else Occupied(list[..|list| - 1]) + (if Occupies(list[|list| - 1].status) then 1 else 0)
  }

  function Candidates(list: seq<Workspace>): seq<Workspace> {
    if list == [] then []
    else if list[|list| - 1].status.phase == Pending then Candidates(list[..|list| - 1]) + [list[|list| - 1]]
    else Candidates(list[..|list| - 1])
  }

  function EnqueueKey(w: Workspace): int {
    if w.status.traffic.enqueuedAt.Some? then w.status.traffic.enqueuedAt.value else w.created
  }

  function Queue(list: seq<Workspace>): seq<Workspace> { SortBy(Candidates(list), EnqueueKey) }

  function Slots(list: seq<Workspace>, app: App): int { app.maxConcurrentStarts - Occupied(list) }

  predicate InBackoff(st: Status, now: int) { st.backoffUntil.Some? && now < st.backoffUntil.value }

  /** The head of the queue: as many as there are free slots. */
  function Head(list: seq<Workspace>, app: App): seq<Workspace> { Prefix(Queue(list), Slots(list, app)) }

  /** The first n of q, or all of it. */
  function Prefix(q: seq<Workspace>, n: int): seq<Workspace> {
    if n <= 0 then [] else if n < |q| then q[..n] else q
  }

  function Elements(s: seq<Workspace>): set<Workspace> { set w | w in s }

  predicate Named(s: seq<Workspace>, name: Name) { exists w :: w in s && w.name == name }

  /** The two checks made before the fleet is even listed. */
  predicate Considered(st: Status, app: App, now: int) { app.migrated && !InBackoff(st, now) }

  predicate Admits(list: seq<Workspace>, ws: Workspace, app: App, now: int) {
    && Considered(ws.status, app, now)
    && Named(Head(list, app), ws.name)
  }

  /** The admission decision as the code takes it: one scan of the list for occupied
      slots and candidates, a stable sort, and a walk over the free slots. */
  method TryAdmit(list: seq<Workspace>, ws: Workspace, app: App, now: int) returns (admitted: bool)
    ensures admitted <==> Admits(list, ws, app, now)
  {
    if !app.migrated || InBackoff(ws.status, now) {
      return false;
    }
    var occupied := 0;
    var candidates := [];
    var i := 0;
    while i < |list|
      invariant 0 <= i <= |list|
      invariant occupied == Occupied(list[..i])
      invariant candidates == Candidates(list[..i])
    {
      assert list[..i + 1][..i] == list[..i];
      var w := list[i];
      if w.status.phase == Starting {
        if w.status.backoffUntil.None? {
          occupied := occupied + 1;
        }
      } else if w.status.phase == Pending {
        candidates := candidates + [w];
      }
      i := i + 1;
    }
    assert list[..|list|] == list;
    var slots := app.maxConcurrentStarts - occupied;
    if slots <= 0 {
      return false;
    }
    candidates := SortBy(candidates, EnqueueKey);
    i := 0;
    while i < |candidates| && i < slots
      invariant 0 <= i <= |candidates| && i <= slots
      invariant forall k :: 0 <= k < i ==> candidates[k].name != ws.name
    {
      if candidates[i].name == ws.name {
        assert candidates[i] in Head(list, app);
        return true;
      }
      i := i + 1;
    }
    return false;
  }

  // ------------------------------------------------- what admission accepts

  /** No candidate carries a backoff, expired or not. */
  ghost predicate Unarmed(list: seq<Workspace>) {
    forall i :: 0 <= i < |list| && list[i].status.phase == Pending ==> list[i].status.backoffUntil.None?
  }

  /** The workspaces of the list that TryAdmit would let start now. */
  ghost function Accepted(list: seq<Workspace>, app: App, now: int): set<Workspace> {
    set w | w in list && w.status.phase == Pending && Admits(list, w, app, now)
  }

  lemma {:induction false} CandidatesAre(list: seq<Workspace>, w: Workspace)
    ensures w in Candidates(list) <==> w in list && w.status.phase == Pending
  {
    if list != [] {
      CandidatesAre(list[..|list| - 1], w);
      assert w in list <==> w in list[..|list| - 1] || w == list[|list| - 1];
    }
  }

  lemma QueueIs(list: seq<Workspace>, w: Workspace)
    ensures w in Queue(list) <==> w in list && w.status.phase == Pending
  {
    CandidatesAre(list, w);
    SortByKeepsElements(Candidates(list), EnqueueKey, w);
  }

  lemma {:induction false} CandidatesDistinct(list: seq<Workspace>)
    requires DistinctNames(list)
    ensures Distinct(Candidates(list))
  {
    if list != [] {
      var front, last := list[..|list| - 1], list[|list| - 1];
      CandidatesDistinct(front);
      CandidatesAre(front, last);
    }
  }

  /** With the migration gate open, TryAdmit accepts exactly the first
      min(slots, pending) workspaces of the stable enqueue order, less any of them that
      is in backoff. */
  lemma AcceptedIsHead(list: seq<Workspace>, app: App, now: int)
    requires app.migrated && DistinctNames(list)
    ensures Accepted(list, app, now) == set w | w in Head(list, app) && !InBackoff(w.status, now)
    ensures Unarmed(list) ==> Accepted(list, app, now) == Elements(Head(list, app))
    ensures |Head(list, app)| == Max(0, Min(Slots(list, app), |Candidates(list)|))
    ensures Head(list, app) <= Queue(list)
  {
    var head := Head(list, app);
    forall w
      ensures w in Accepted(list, app, now) <==> w in head && !InBackoff(w.status, now)
      ensures w in head ==> w in list && w.status.phase == Pending
    {
      QueueIs(list, w);
      if w in head {
        assert w in Queue(list);
        var i :| 0 <= i < |list| && list[i] == w;
        assert Named(head, w.name);
      } else if w in Accepted(list, app, now) {
        var v :| v in head && v.name == w.name;
        QueueIs(list, v);
        SameName(list, v, w);
      }
    }
  }

  lemma AdmitsNeedsSlot(list: seq<Workspace>, ws: Workspace, app: App, now: int)
    requires Admits(list, ws, app, now)
    ensures Occupied(list) < app.maxConcurrentStarts
  {
  }

  lemma SameName(list: seq<Workspace>, v: Workspace, w: Workspace)
    requires DistinctNames(list) && v in list && w in list && v.name == w.name
    ensures v == w
  {
    var i :| 0 <= i < |list| && list[i] == v;
    var j :| 0 <= j < |list| && list[j] == w;
  }

  /** The list after the workspace at i has been admitted. */
  function AdmitAt(list: seq<Workspace>, i: nat, deadline: int): seq<Workspace>
    requires i < |list|
  {
    var w := list[i];
    list[i := w.(status := w.status.(phase := Starting, startDeadline := Some(deadline)))]
  }

  /** Admitting takes a slot, unless the workspace carries a backoff from before. */
  lemma {:induction false} AdmitAtOccupied(list: seq<Workspace>, i: nat, deadline: int)
    requires i < |list| && list[i].status.phase == Pending
    ensures Occupied(AdmitAt(list, i, deadline)) == Occupied(list) + SlotsTaken(list[i])
  {
    var after, n := AdmitAt(list, i, deadline), |list| - 1;
    if i < n {
      AdmitAtOccupied(list[..n], i, deadline);
      assert after[..n] == AdmitAt(list[..n], i, deadline);
    } else {
      assert after[..n] == list[..n];
    }
  }

  function SlotsTaken(w: Workspace): nat { if w.status.backoffUntil.None? then 1 else 0 }

  lemma AdmitAtEnds(list: seq<Workspace>, i: nat, deadline: int)
    requires i < |list|
    ensures var n := |list| - 1;
      if i < n then AdmitAt(list, i, deadline) == AdmitAt(list[..n], i, deadline) + [list[n]]
      else AdmitAt(list, i, deadline) == list[..n] + [AdmitAt(list, i, deadline)[n]] && AdmitAt(list, i, deadline)[n].status.phase == Starting
  {
  }

  lemma {:induction false} AdmitAtCandidates(list: seq<Workspace>, i: nat, deadline: int)
    requires i < |list| && list[i].status.phase == Pending && DistinctNames(list)
    ensures Candidates(AdmitAt(list, i, deadline)) == Without(Candidates(list), list[i])
  {
    hide Without;
    var n := |list| - 1;
    var front, last := list[..n], list[n];
    assert list == front + [last];
    ListSnoc(front, last);
    AdmitAtEnds(list, i, deadline);
    if i < n {
      AdmitAtCandidates(front, i, deadline);
      ListSnoc(AdmitAt(front, i, deadline), last);
      assert last.name != list[i].name;
      hide Candidates;
      hide AdmitAt;
      WithoutSnoc(Candidates(front), last, list[i]);
    } else {
      CandidatesAre(front, last);
      ListSnoc(front, AdmitAt(list, i, deadline)[n]);
      hide Candidates;
      hide AdmitAt;
      WithoutSnoc(Candidates(front), last, last);
      WithoutAbsent(Candidates(front), last);
    }
  }

  /** The queue after an admission is the queue with that workspace taken out. */
  lemma AdmitAtQueue(list: seq<Workspace>, i: nat, deadline: int, j: nat)
    requires i < |list| && list[i].status.phase == Pending && DistinctNames(list)
    requires j < |Queue(list)| && Queue(list)[j] == list[i]
    ensures Distinct(Queue(list))
    ensures Queue(AdmitAt(list, i, deadline)) == Queue(list)[..j] + Queue(list)[j + 1..]
  {
    AdmitAtCandidates(list, i, deadline);
    SortByWithout(Candidates(list), EnqueueKey, list[i]);
    CandidatesDistinct(list);
    SortByKeepsDistinct(Candidates(list), EnqueueKey);
    WithoutAt(Queue(list), j);
  }

  lemma PrefixWithout(queue: seq<Workspace>, slots: int, j: nat)
    requires Distinct(queue) && j < |queue| && j < slots
    ensures Elements(Prefix(queue[..j] + queue[j + 1..], slots - 1)) == Elements(Prefix(queue, slots)) - {queue[j]}
  {
    var rest := queue[..j] + queue[j + 1..];
    var before, after := Prefix(queue, slots), Prefix(rest, slots - 1);
    assert |after| == |before| - 1;
    forall k | 0 <= k < |after| ensures after[k] in before && after[k] != queue[j] {
      assert after[k] == if k < j then before[k] else before[k + 1];
    }
    forall w | w in before && w != queue[j] ensures w in after {
      var k :| 0 <= k < |before| && before[k] == w;
      assert w == if k < j then after[k] else after[k - 1];
    }
  }

  /** With the slots unchanged, the next in the queue moves up. */
  lemma PrefixMovesUp(queue: seq<Workspace>, slots: int, j: nat)
    requires Distinct(queue) && j < |queue| && j < slots
    ensures Elements(Prefix(queue[..j] + queue[j + 1..], slots))
         == (Elements(Prefix(queue, slots)) - {queue[j]}) + (if slots < |queue| then {queue[slots]} else {})
  {
    var rest := queue[..j] + queue[j + 1..];
    PrefixWithout(queue, slots, j);
    var fewer, more := Prefix(rest, slots - 1), Prefix(rest, slots);
    if slots < |queue| {
      assert rest[slots - 1] == queue[slots];
      assert more == fewer + [queue[slots]];
    } else {
      assert more == fewer;
    }
  }

  /** Where an accepted workspace stands in the queue, and what its admission does to the
      queue and the slots. */
  lemma AdmittedFrom(list: seq<Workspace>, i: nat, deadline: int, app: App, now: int) returns (j: nat)
    requires app.migrated && DistinctNames(list)
    requires i < |list| && list[i] in Accepted(list, app, now)
    ensures DistinctNames(AdmitAt(list, i, deadline)) && Distinct(Queue(list))
    ensures j < |Queue(list)| && j < Slots(list, app) && Queue(list)[j] == list[i] && !InBackoff(list[i].status, now)
    ensures Queue(AdmitAt(list, i, deadline)) == Queue(list)[..j] + Queue(list)[j + 1..]
    ensures Slots(AdmitAt(list, i, deadline), app) == Slots(list, app) - SlotsTaken(list[i])
  {
    hide Queue;
    hide Occupied;
    AcceptedIsHead(list, app, now);
    AdmitAtOccupied(list, i, deadline);
    j :| 0 <= j < |Head(list, app)| && Head(list, app)[j] == list[i];
    AdmitAtQueue(list, i, deadline, j);
  }

  ghost function OutOfBackoff(head: set<Workspace>, now: int): set<Workspace> {
    set w | w in head && !InBackoff(w.status, now)
  }

  lemma OutOfBackoffChange(head: set<Workspace>, x: Workspace, more: set<Workspace>, now: int)
    requires more !! head
    ensures OutOfBackoff((head - {x}) + more, now) == OutOfBackoff(head, now) - {x} <==> forall y :: y in more ==> InBackoff(y.status, now)
  {
    var after, before := OutOfBackoff((head - {x}) + more, now), OutOfBackoff(head, now) - {x};
    if after == before {
      forall y | y in more ensures InBackoff(y.status, now) {
        assert y !in before;
      }
    }
  }

  /** Those who come up behind the slots when x is admitted. */
  ghost function MovesUp(queue: seq<Workspace>, slots: int, x: Workspace): set<Workspace> {
    if x.status.backoffUntil.None? || slots <= 0 || slots >= |queue| then {} else {queue[slots]}
  }

  lemma HeadChange(queue: seq<Workspace>, slots: int, j: nat)
    requires Distinct(queue) && j < |queue| && j < slots
    ensures Elements(Prefix(queue[..j] + queue[j + 1..], slots - SlotsTaken(queue[j])))
         == (Elements(Prefix(queue, slots)) - {queue[j]}) + MovesUp(queue, slots, queue[j])
    ensures MovesUp(queue, slots, queue[j]) !! Elements(Prefix(queue, slots))
  {
    if queue[j].status.backoffUntil.None? {
      PrefixWithout(queue, slots, j);
    } else {
      PrefixMovesUp(queue, slots, j);
      NextIsNotInHead(queue, slots);
    }
  }

  lemma AcceptedIsOut(list: seq<Workspace>, app: App, now: int)
    requires app.migrated && DistinctNames(list)
    ensures Accepted(list, app, now) == OutOfBackoff(Elements(Head(list, app)), now)
  {
    hide Head;
    AcceptedIsHead(list, app, now);
  }

  /** Admitting one accepted workspace leaves exactly the others accepted, if and only if
      it carries no backoff, or nobody is waiting behind the slots, or the first who is is
      in backoff. */
  lemma AdmittingOneLeavesTheRest(list: seq<Workspace>, i: nat, deadline: int, app: App, now: int)
    requires app.migrated && DistinctNames(list)
    requires i < |list| && list[i] in Accepted(list, app, now)
    ensures DistinctNames(AdmitAt(list, i, deadline))
    ensures Accepted(AdmitAt(list, i, deadline), app, now) == Accepted(list, app, now) - {list[i]} <==>
      || list[i].status.backoffUntil.None?
      || Slots(list, app) >= |Queue(list)|
      || InBackoff(Queue(list)[Slots(list, app)].status, now)
  {
    hide Queue;
    hide Slots;
    hide AdmitAt;
    hide Accepted;
    hide InBackoff;
    hide Distinct;
    hide DistinctNames;
    hide OutOfBackoff;
    hide Elements;
    hide Prefix;
    var after, queue, slots := AdmitAt(list, i, deadline), Queue(list), Slots(list, app);
    var j := AdmittedFrom(list, i, deadline, app, now);
    AcceptedIsOut(list, app, now);
    AcceptedIsOut(after, app, now);
    HeadChange(queue, slots, j);
    OutOfBackoffChange(Elements(Head(list, app)), list[i], MovesUp(queue, slots, list[i]), now);
  }

  lemma NextIsNotInHead(queue: seq<Workspace>, slots: int)
    requires Distinct(queue)
    ensures 0 < slots < |queue| ==> queue[slots] !in Elements(Prefix(queue, slots))
  {
  }

  // -------------------------------------------------------------- first come

  lemma {:induction false} CandidatesKeepOrder(list: seq<Workspace>, v: Workspace, w: Workspace)
    requires Precedes(list, v, w) && v.status.phase == Pending && w.status.phase == Pending
    ensures Precedes(Candidates(list), v, w)
  {
    var front, last := list[..|list| - 1], list[|list| - 1];
    assert list == front + [last];
    var i, j :| 0 <= i < j < |list| && list[i] == v && list[j] == w;
    assert front[i] == v;
    if j < |front| {
      assert front[j] == w;
      CandidatesKeepOrder(front, v, w);
    } else {
      CandidatesAre(front, v);
    }
    PrecedesSnoc(Candidates(front), v, w, last);
  }

  lemma EarlierInPrefix(queue: seq<Workspace>, slots: int, v: Workspace, w: Workspace)
    requires Distinct(queue) && Precedes(queue, v, w) && w in Prefix(queue, slots)
    ensures v in Prefix(queue, slots)
  {
    var i, j :| 0 <= i < j < |queue| && queue[i] == v && queue[j] == w;
    var k :| 0 <= k < |Prefix(queue, slots)| && Prefix(queue, slots)[k] == w;
    assert queue[k] == w && k == j;
    assert Prefix(queue, slots)[i] == v;
  }

  /** First come, first admitted: when a Pending workspace is admitted, so is every Pending
      one out of backoff whose first request came earlier, or at the same instant and
      which stands earlier in the list; the instant is enqueuedAt, or without it the
      creation. A closed migration gate admits nobody. */
  lemma FirstComeFirstAdmitted(list: seq<Workspace>, i: nat, j: nat, app: App, now: int)
    requires DistinctNames(list) && i < |list| && j < |list|
    requires var v, w := list[i], list[j];
      var timeV := if v.status.traffic.enqueuedAt.Some? then v.status.traffic.enqueuedAt.value else v.created;
      var timeW := if w.status.traffic.enqueuedAt.Some? then w.status.traffic.enqueuedAt.value else w.created;
      && v.status.phase == Pending && w.status.phase == Pending
      && (v.status.backoffUntil.None? || now >= v.status.backoffUntil.value)
      && (timeV < timeW || (timeV == timeW && i < j))
    ensures Admits(list, list[j], app, now) ==> Admits(list, list[i], app, now)
    ensures !app.migrated ==> !Admits(list, list[i], app, now) && !Admits(list, list[j], app, now)
  {
    var v, w := list[i], list[j];
    if Admits(list, w, app, now) {
      QueueOrders(list, i, j);
      var u :| u in Head(list, app) && u.name == w.name;
      QueueIs(list, u);
      SameName(list, u, w);
      EarlierInPrefix(Queue(list), Slots(list, app), v, w);
    }
  }

  /** Nobody is admitted through a closed gate, before its backoff is over, or unless it is
      listed as Pending. */
  lemma AdmitsNobodyElse(list: seq<Workspace>, ws: Workspace, app: App, now: int)
    requires Admits(list, ws, app, now)
    ensures app.migrated && (ws.status.backoffUntil.None? || ws.status.backoffUntil.value <= now)
    ensures exists i :: 0 <= i < |list| && list[i].name == ws.name && list[i].status.phase == Pending
    ensures |UnarmedStarts(list)| < app.maxConcurrentStarts || !DistinctNames(list)
  {
    var u :| u in Head(list, app) && u.name == ws.name;
    assert u in Queue(list);
    QueueIs(list, u);
    if DistinctNames(list) {
      OccupiedSet(list);
    }
  }

  lemma QueueOrders(list: seq<Workspace>, i: nat, j: nat)
    requires DistinctNames(list) && i < |list| && j < |list|
    requires list[i].status.phase == Pending && list[j].status.phase == Pending
    requires EnqueueKey(list[i]) < EnqueueKey(list[j]) || (EnqueueKey(list[i]) == EnqueueKey(list[j]) && i < j)
    ensures Distinct(Queue(list)) && Precedes(Queue(list), list[i], list[j])
  {
    var v, w := list[i], list[j];
    CandidatesDistinct(list);
    SortByKeepsDistinct(Candidates(list), EnqueueKey);
    CandidatesAre(list, v);
    CandidatesAre(list, w);
    if i < j {
      assert Precedes(list, v, w);
      CandidatesKeepOrder(list, v, w);
    }
    SortByOrders(Candidates(list), EnqueueKey, v, w);
  }

  /** With the gate open and nobody in backoff, the number admitted is the free slots, the
      limit less the starts without an armed backoff, as far as there are Pending
      workspaces. */
  lemma HowManyAreAdmitted(list: seq<Workspace>, app: App, now: int)
    requires app.migrated && DistinctNames(list)
    requires forall w :: w in list && w.status.phase == Pending ==> w.status.backoffUntil.None? || now >= w.status.backoffUntil.value
    ensures |set w | w in list && w.status.phase == Pending && Admits(list, w, app, now)|
         == Max(0, Min(app.maxConcurrentStarts - |UnarmedStarts(list)|,
                       |set w | w in list && w.status.phase == Pending|))
  {
    var head := Head(list, app);
    AcceptedIsHead(list, app, now);
    OccupiedSet(list);
    CandidatesDistinct(list);
    CandidatesSet(list);
    SortByKeepsDistinct(Candidates(list), EnqueueKey);
    forall w ensures w in head ==> w in list && w.status.phase == Pending {
      QueueIs(list, w);
      assert w in head ==> w in Queue(list);
    }
    assert Accepted(list, app, now) == Elements(head);
    DistinctSize(head);
    assert Accepted(list, app, now) == set w | w in list && w.status.phase == Pending && Admits(list, w, app, now);
  }

  lemma {:induction false} DistinctSize(s: seq<Workspace>)
    requires Distinct(s)
    ensures |Elements(s)| == |s|
  {
    if s != [] {
      DistinctSize(s[1..]);
      assert Elements(s) == {s[0]} + Elements(s[1..]);
    }
  }

  lemma CandidatesSet(list: seq<Workspace>)
    requires Distinct(Candidates(list))
    ensures |set w | w in list && w.status.phase == Pending| == |Candidates(list)|
  {
    forall w ensures w in Candidates(list) <==> w in list && w.status.phase == Pending {
      CandidatesAre(list, w);
    }
    assert Elements(Candidates(list)) == set w | w in list && w.status.phase == Pending;
    DistinctSize(Candidates(list));
  }

  ghost function UnarmedStarts(list: seq<Workspace>): set<Workspace> {
    set w | w in list && w.status.phase == Starting && w.status.backoffUntil.None?
  }

  lemma UnarmedStartsSnoc(front: seq<Workspace>, last: Workspace)
    ensures UnarmedStarts(front + [last]) == UnarmedStarts(front) + if Occupies(last.status) then {last} else {}
  {
    assert forall w :: w in front + [last] <==> w in front || w == last;
  }

  lemma {:induction false} OccupiedSet(list: seq<Workspace>)
    requires DistinctNames(list)
    ensures |UnarmedStarts(list)| == Occupied(list)
  {
    if list != [] {
      var front, last := list[..|list| - 1], list[|list| - 1];
      assert list == front + [last] && last !in front;
      OccupiedSet(front);
      assert last !in UnarmedStarts(front);
      UnarmedStartsSnoc(front, last);
      hide UnarmedStarts;
    } else {
      assert UnarmedStarts(list) == {};
    }
  }

  // ------------------------------------------------------ any order of passes

  /** A run of admissions: each step names a position whose workspace is accepted then. */
  ghost predicate AdmissionRun(list: seq<Workspace>, steps: seq<(nat, int)>, app: App, now: int)
    decreases |steps|
  {
    steps == []
    || (&& steps[0].0 < |list|
        && list[steps[0].0] in Accepted(list, app, now)
        && AdmissionRun(AdmitAt(list, steps[0].0, steps[0].1), steps[1..], app, now))
  }

  ghost function AfterRun(list: seq<Workspace>, steps: seq<(nat, int)>, app: App, now: int): seq<Workspace>
    requires AdmissionRun(list, steps, app, now)
    decreases |steps|
  {
    if steps == [] then list
    else AfterRun(AdmitAt(list, steps[0].0, steps[0].1), steps[1..], app, now)
  }

  /** The workspaces a run admitted, as they were when it began. */
  ghost function Admitted(list: seq<Workspace>, steps: seq<(nat, int)>, app: App, now: int): set<Workspace>
    requires AdmissionRun(list, steps, app, now)
    decreases |steps|
  {
    if steps == [] then {}
    else {list[steps[0].0]} + Admitted(AdmitAt(list, steps[0].0, steps[0].1), steps[1..], app, now)
  }

  /** All that passes over the queue can ever admit with so many slots: each of the first
      takes a slot, an admitted one with an expired backoff gives it back, and one in
      backoff keeps it without being admitted. */
  function Admissible(queue: seq<Workspace>, slots: int, now: int): set<Workspace> {
    if queue == [] || slots <= 0 then {}
    else if InBackoff(queue[0].status, now) then Admissible(queue[1..], slots - 1, now)
    else {queue[0]} + Admissible(queue[1..], slots - SlotsTaken(queue[0]), now)
  }

  function AdmissibleIn(list: seq<Workspace>, app: App, now: int): set<Workspace> {
    Admissible(Queue(list), Slots(list, app), now)
  }

  lemma {:induction false} AdmissibleAreQueued(queue: seq<Workspace>, slots: int, now: int)
    ensures Admissible(queue, slots, now) <= Elements(queue)
  {
    if queue != [] && slots > 0 {
      AdmissibleAreQueued(queue[1..], slots - 1, now);
      AdmissibleAreQueued(queue[1..], slots - SlotsTaken(queue[0]), now);
    }
  }

  /** Whichever is admitted first, the others stay admissible and nobody else becomes so. */
  lemma {:induction false} AdmissibleWithout(queue: seq<Workspace>, slots: int, now: int, j: nat)
    requires j < |queue| && j < slots && !InBackoff(queue[j].status, now)
    ensures Admissible(queue, slots, now)
         == {queue[j]} + Admissible(queue[..j] + queue[j + 1..], slots - SlotsTaken(queue[j]), now)
  {
    var rest := queue[..j] + queue[j + 1..];
    if j == 0 {
      assert rest == queue[1..];
    } else {
      var x, tail := queue[0], queue[1..];
      assert rest[0] == x && rest[1..] == tail[..j - 1] + tail[j..];
      AdmissibleWithout(tail, if InBackoff(x.status, now) then slots - 1 else slots - SlotsTaken(x), now, j - 1);
    }
  }

  /** There is something to admit exactly when something is accepted. */
  lemma {:induction false} AdmissibleStarts(queue: seq<Workspace>, slots: int, now: int)
    ensures Admissible(queue, slots, now) == {} <==> forall w :: w in Prefix(queue, slots) ==> InBackoff(w.status, now)
  {
    if queue != [] && slots > 0 {
      var x, head := queue[0], Prefix(queue[1..], slots - 1);
      AdmissibleStarts(queue[1..], slots - 1, now);
      PrefixCons(queue, slots);
      AdmissibleCons(queue, slots, now);
      hide Prefix;
      hide Admissible;
      assert forall w :: w in [x] + head <==> w == x || w in head;
    }
  }

  lemma PrefixCons(queue: seq<Workspace>, slots: int)
    requires queue != [] && slots > 0
    ensures Prefix(queue, slots) == [queue[0]] + Prefix(queue[1..], slots - 1)
  {
  }

  lemma {:induction false} HeadIsAdmissible(queue: seq<Workspace>, slots: int, now: int, w: Workspace)
    requires w in Prefix(queue, slots) && !InBackoff(w.status, now)
    ensures w in Admissible(queue, slots, now)
  {
    AdmissibleCons(queue, slots, now);
    if w != queue[0] {
      FurtherInHead(queue, slots, w);
      hide Prefix;
      HeadIsAdmissible(queue[1..], slots - 1, now, w);
      hide Admissible;
      AdmissibleGrows(queue[1..], slots - 1, now);
    }
  }

  lemma FurtherInHead(queue: seq<Workspace>, slots: int, w: Workspace)
    requires w in Prefix(queue, slots) && w != queue[0]
    ensures w in Prefix(queue[1..], slots - 1)
  {
    PrefixCons(queue, slots);
    hide Prefix;
    assert w in [queue[0]] + Prefix(queue[1..], slots - 1);
  }

  /** A backoff that is armed and has run out. */
  predicate Expired(st: Status, now: int) { st.backoffUntil.Some? && !InBackoff(st, now) }

  function ExpiredIn(head: seq<Workspace>, now: int): nat {
    if head == [] then 0 else (if Expired(head[0].status, now) then 1 else 0) + ExpiredIn(head[1..], now)
  }

  /** The next k behind the slots, as far as there are any, are in backoff. */
  ghost predicate QuietBehind(queue: seq<Workspace>, slots: int, k: nat, now: int) {
    forall p :: slots <= p < slots + k && 0 <= p < |queue| ==> InBackoff(queue[p].status, now)
  }

  lemma ExpiredInSnoc(head: seq<Workspace>, w: Workspace, now: int)
    ensures ExpiredIn(head + [w], now) == ExpiredIn(head, now) + if Expired(w.status, now) then 1 else 0
  {
    if head == [] {
      assert ([] + [w])[1..] == [];
    } else {
      assert (head + [w])[1..] == head[1..] + [w];
      ExpiredInSnoc(head[1..], w, now);
    }
  }

  lemma OutCons(x: Workspace, head: seq<Workspace>, now: int)
    ensures OutOfBackoff(Elements([x] + head), now)
         == if InBackoff(x.status, now) then OutOfBackoff(Elements(head), now) else {x} + OutOfBackoff(Elements(head), now)
  {
    assert forall w :: w in [x] + head <==> w == x || w in head;
  }

  lemma OutSnoc(head: seq<Workspace>, y: Workspace, now: int)
    ensures OutOfBackoff(Elements(head + [y]), now)
         == if InBackoff(y.status, now) then OutOfBackoff(Elements(head), now) else OutOfBackoff(Elements(head), now) + {y}
  {
    assert forall w :: w in head + [y] <==> w == y || w in head;
  }

  /** Nothing but the accepted ones of the head is admissible, if and only if behind the
      slots as many as the head has expired backoffs are all in backoff. */
  lemma {:induction false} AdmissibleIsHeadExactly(queue: seq<Workspace>, slots: int, now: int)
    requires Distinct(queue)
    ensures Admissible(queue, slots, now) == OutOfBackoff(Elements(Prefix(queue, slots)), now) <==>
      QuietBehind(queue, slots, ExpiredIn(Prefix(queue, slots), now), now)
    decreases |queue|, 0
  {
    if queue != [] && slots > 0 {
      var x, tail, head := queue[0], queue[1..], Prefix(queue[1..], slots - 1);
      HeadCons(queue, slots, now);
      AdmissibleCons(queue, slots, now);
      FirstIsNotLater(queue, slots, now);
      hide OutOfBackoff;
      hide Prefix;
      hide QuietBehind;
      hide Elements;
      hide Admissible;
      hide Distinct;
      hide ExpiredIn;
      AddedAlike(x, Admissible(tail, slots, now), OutOfBackoff(Elements(head), now));
      AddedAlike(x, Admissible(tail, slots - 1, now), OutOfBackoff(Elements(head), now));
      if Expired(x.status, now) {
        ExpiredGivesWay(tail, slots, now);
        ShiftQuiet(queue, slots, 1 + ExpiredIn(head, now), now);
      } else {
        AdmissibleIsHeadExactly(tail, slots - 1, now);
        ShiftQuiet(queue, slots, ExpiredIn(head, now), now);
      }
    }
  }

  lemma AddedAlike<T>(x: T, a: set<T>, b: set<T>)
    requires x !in a && x !in b
    ensures {x} + a == {x} + b <==> a == b
  {
    assert ({x} + a) - {x} == a && ({x} + b) - {x} == b;
  }

  lemma HeadCons(queue: seq<Workspace>, slots: int, now: int)
    requires queue != [] && slots > 0
    ensures var x, head := queue[0], Prefix(queue[1..], slots - 1);
      && OutOfBackoff(Elements(Prefix(queue, slots)), now)
         == (if InBackoff(x.status, now) then OutOfBackoff(Elements(head), now) else {x} + OutOfBackoff(Elements(head), now))
      && ExpiredIn(Prefix(queue, slots), now) == (if Expired(x.status, now) then 1 else 0) + ExpiredIn(head, now)
  {
    var x, head := queue[0], Prefix(queue[1..], slots - 1);
    PrefixCons(queue, slots);
    hide Prefix;
    assert ([x] + head)[1..] == head && ([x] + head)[0] == x;
    hide OutOfBackoff;
    OutCons(x, head, now);
  }

  lemma AdmissibleCons(queue: seq<Workspace>, slots: int, now: int)
    requires queue != [] && slots > 0
    ensures var x, tail := queue[0], queue[1..];
      Admissible(queue, slots, now)
        == if Expired(x.status, now) then {x} + Admissible(tail, slots, now)
           else if InBackoff(x.status, now) then Admissible(tail, slots - 1, now)
           else {x} + Admissible(tail, slots - 1, now)
  {
  }

  lemma FirstIsNotLater(queue: seq<Workspace>, slots: int, now: int)
    requires Distinct(queue) && queue != []
    ensures Distinct(queue[1..])
    ensures queue[0] !in Admissible(queue[1..], slots - 1, now) && queue[0] !in Admissible(queue[1..], slots, now)
    ensures queue[0] !in OutOfBackoff(Elements(Prefix(queue[1..], slots - 1)), now)
  {
    hide Admissible;
    AdmissibleAreQueued(queue[1..], slots - 1, now);
    AdmissibleAreQueued(queue[1..], slots, now);
    assert queue[0] !in Elements(queue[1..]);
  }

  lemma ShiftQuiet(queue: seq<Workspace>, slots: int, k: nat, now: int)
    requires queue != []
    ensures slots > 0 ==> (QuietBehind(queue, slots, k, now) <==> QuietBehind(queue[1..], slots - 1, k, now))
  {
    var tail := queue[1..];
    if slots > 0 && QuietBehind(tail, slots - 1, k, now) {
      forall p | slots <= p < slots + k && 0 <= p < |queue| ensures InBackoff(queue[p].status, now) {
        assert tail[p - 1] == queue[p];
      }
    }
  }

  /** The same one place further on: what the admission of an expired one leaves. */
  lemma {:induction false} ExpiredGivesWay(tail: seq<Workspace>, slots: int, now: int)
    requires Distinct(tail) && slots > 0
    ensures Admissible(tail, slots, now) == OutOfBackoff(Elements(Prefix(tail, slots - 1)), now) <==>
      QuietBehind(tail, slots - 1, 1 + ExpiredIn(Prefix(tail, slots - 1), now), now)
    decreases |tail|, 1
  {
    var head := Prefix(tail, slots - 1);
    AdmissibleIsHeadExactly(tail, slots, now);
    if slots - 1 < |tail| {
      var y := tail[slots - 1];
      NextBehind(tail, slots, now);
      hide Distinct;
      hide Elements;
      hide Prefix;
      hide OutOfBackoff;
      hide QuietBehind;
      hide Admissible;
      hide ExpiredIn;
      OutSnoc(head, y, now);
      ExpiredInSnoc(head, y, now);
      QuietFrom(tail, slots - 1, ExpiredIn(head, now), now);
    } else {
      assert Prefix(tail, slots) == head;
    }
  }

  lemma NextBehind(queue: seq<Workspace>, slots: int, now: int)
    requires Distinct(queue) && 0 < slots <= |queue|
    ensures var head, y := Prefix(queue, slots - 1), queue[slots - 1];
      && Prefix(queue, slots) == head + [y]
      && y !in OutOfBackoff(Elements(head), now)
      && (!InBackoff(y.status, now) ==> y in Admissible(queue, slots, now))
  {
    var y := queue[slots - 1];
    assert Prefix(queue, slots)[slots - 1] == y;
    if !InBackoff(y.status, now) {
      HeadIsAdmissible(queue, slots, now, y);
    }
  }

  lemma QuietFrom(queue: seq<Workspace>, slots: int, k: nat, now: int)
    requires 0 <= slots < |queue|
    ensures QuietBehind(queue, slots, 1 + k, now) <==> InBackoff(queue[slots].status, now) && QuietBehind(queue, slots + 1, k, now)
  {
  }

  lemma {:induction false} AdmissibleGrows(queue: seq<Workspace>, slots: int, now: int)
    ensures Admissible(queue, slots, now) <= Admissible(queue, slots + 1, now)
  {
    if queue != [] && slots > 0 {
      AdmissibleGrows(queue[1..], slots - 1, now);
      AdmissibleGrows(queue[1..], slots - SlotsTaken(queue[0]), now);
    }
  }

  /** One admission takes its workspace out of the admissible ones and changes no other. */
  lemma AdmittingKeepsAdmissible(list: seq<Workspace>, i: nat, deadline: int, app: App, now: int)
    requires app.migrated && DistinctNames(list)
    requires i < |list| && list[i] in Accepted(list, app, now)
    ensures DistinctNames(AdmitAt(list, i, deadline))
    ensures list[i] in AdmissibleIn(list, app, now)
    ensures AdmissibleIn(AdmitAt(list, i, deadline), app, now) == AdmissibleIn(list, app, now) - {list[i]}
  {
    var queue, slots := Queue(list), Slots(list, app);
    var j := AdmittedFrom(list, i, deadline, app, now);
    hide Queue;
    hide Slots;
    hide AdmitAt;
    hide Accepted;
    hide Admissible;
    hide DistinctNames;
    TakenIsGone(queue, slots - SlotsTaken(queue[j]), now, j);
    hide Distinct;
    AdmissibleWithout(queue, slots, now, j);
    AddedIsLeft(queue[j], Admissible(queue[..j] + queue[j + 1..], slots - SlotsTaken(queue[j]), now));
  }

  lemma AddedIsLeft<T>(x: T, others: set<T>)
    requires x !in others
    ensures ({x} + others) - {x} == others
  {
  }

  lemma TakenIsGone(queue: seq<Workspace>, slots: int, now: int, j: nat)
    requires Distinct(queue) && j < |queue|
    ensures queue[j] !in Admissible(queue[..j] + queue[j + 1..], slots, now)
  {
    hide Admissible;
    var rest := queue[..j] + queue[j + 1..];
    AdmissibleAreQueued(rest, slots, now);
    assert queue[j] !in rest;
  }

  lemma NothingAccepted(list: seq<Workspace>, app: App, now: int)
    requires app.migrated && DistinctNames(list)
    ensures Accepted(list, app, now) == {} <==> AdmissibleIn(list, app, now) == {}
  {
    AcceptedIsHead(list, app, now);
    AdmissibleStarts(Queue(list), Slots(list, app), now);
    var head := Head(list, app);
    assert forall w :: w in Accepted(list, app, now) <==> w in head && !InBackoff(w.status, now);
  }

  /** Whatever order the passes come in, what they have admitted is admissible from the
      start, and what is still admissible is exactly the rest: so a run that leaves
      nothing to admit has admitted the same set as every other such run, whatever
      backoffs the candidates carry. */
  lemma {:induction false} EveryOrderAdmitsTheSameSet(list: seq<Workspace>, steps: seq<(nat, int)>, app: App, now: int)
    requires app.migrated && DistinctNames(list)
    requires AdmissionRun(list, steps, app, now)
    ensures AdmissibleIn(AfterRun(list, steps, app, now), app, now) == AdmissibleIn(list, app, now) - Admitted(list, steps, app, now)
    ensures Admitted(list, steps, app, now) <= AdmissibleIn(list, app, now)
    ensures Accepted(AfterRun(list, steps, app, now), app, now) == {}
      <==> Admitted(list, steps, app, now) == AdmissibleIn(list, app, now)
    decreases |steps|
  {
    hide Accepted;
    hide AdmissibleIn;
    hide AdmitAt;
    if steps == [] {
      NothingAccepted(list, app, now);
    } else {
      var i, deadline := steps[0].0, steps[0].1;
      var next := AdmitAt(list, i, deadline);
      AdmittingKeepsAdmissible(list, i, deadline, app, now);
      EveryOrderAdmitsTheSameSet(next, steps[1..], app, now);
      assert Admitted(list, steps, app, now) == {list[i]} + Admitted(next, steps[1..], app, now);
    }
  }

  /** That set holds all that is accepted at the start, and nothing else if and only if
      behind the free slots as many candidates as the head has expired backoffs are all in
      backoff: always, when the head has none. */
  lemma AdmissibleIsAccepted(list: seq<Workspace>, app: App, now: int)
    requires app.migrated && DistinctNames(list)
    ensures Accepted(list, app, now) <= AdmissibleIn(list, app, now)
    ensures AdmissibleIn(list, app, now) == Accepted(list, app, now) <==>
      QuietBehind(Queue(list), Slots(list, app), ExpiredIn(Head(list, app), now), now)
  {
    var queue, slots := Queue(list), Slots(list, app);
    AcceptedIsOut(list, app, now);
    forall w | w in Accepted(list, app, now) ensures w in AdmissibleIn(list, app, now) {
      HeadIsAdmissible(queue, slots, now, w);
    }
    CandidatesDistinct(list);
    SortByKeepsDistinct(Candidates(list), EnqueueKey);
    AdmissibleIsHeadExactly(queue, slots, now);
  }

  /** Two candidates and one slot: when the first carries an expired backoff its admission
      takes no slot, and the second is accepted although it was not before. */
  lemma ExpiredBackoffTakesNoSlot(a: Workspace, b: Workspace, app: App, now: int, deadline: int)
    requires app.migrated && app.maxConcurrentStarts == 1 && a.name != b.name
    requires a.status.phase == Pending && a.status.backoffUntil.Some? && now >= a.status.backoffUntil.value
    requires b.status.phase == Pending && b.status.backoffUntil.None? && EnqueueKey(a) < EnqueueKey(b)
    ensures Accepted([a, b], app, now) == {a}
    ensures Accepted(AdmitAt([a, b], 0, deadline), app, now) == {b}
  {
    var started := AdmitAt([a, b], 0, deadline)[0];
    assert AdmitAt([a, b], 0, deadline) == [started, b];
    HeadOfTwo(a, b, app);
    HeadOfTwo(started, b, app);
    AcceptedAlone([a, b], app, now, a);
    AcceptedAlone([started, b], app, now, b);
  }

  lemma HeadOfTwo(a: Workspace, b: Workspace, app: App)
    requires app.maxConcurrentStarts == 1 && EnqueueKey(a) < EnqueueKey(b)
    requires a.status.backoffUntil.Some? && (a.status.phase == Pending || a.status.phase == Starting) && b.status.phase == Pending
    ensures Head([a, b], app) == if a.status.phase == Pending then [a] else [b]
  {
    TwoListed(a, b);
    SortByTwo(a, b, EnqueueKey);
    SortByOne(b, EnqueueKey);
    hide Candidates;
    hide Occupied;
    hide SortBy;
    assert Slots([a, b], app) == 1;
    assert Candidates([a, b]) == if a.status.phase == Pending then [a, b] else [b];
  }

  lemma AcceptedAlone(list: seq<Workspace>, app: App, now: int, w: Workspace)
    requires app.migrated && DistinctNames(list) && Head(list, app) == [w] && !InBackoff(w.status, now)
    ensures Accepted(list, app, now) == {w}
  {
    AcceptedIsOut(list, app, now);
    hide Accepted;
    hide Head;
  }

  lemma ListSnoc(list: seq<Workspace>, w: Workspace)
    ensures Occupied(list + [w]) == Occupied(list) + if Occupies(w.status) then 1 else 0
    ensures Candidates(list + [w]) == if w.status.phase == Pending then Candidates(list) + [w] else Candidates(list)
  {
    assert (list + [w])[..|list|] == list;
  }

  lemma TwoListed(a: Workspace, b: Workspace)
    ensures Occupied([a, b]) == (if Occupies(a.status) then 1 else 0) + (if Occupies(b.status) then 1 else 0)
    ensures Candidates([a, b]) == (if a.status.phase == Pending then [a] else []) + (if b.status.phase == Pending then [b] else [])
  {
    assert [] + [a] == [a] && [a] + [b] == [a, b];
    ListSnoc([], a);
    ListSnoc([a], b);
  }
}
