/** Reads and merge patches of one Workspace status by many writers, interleaved at will:
    each router replica owns one connection entry, and everyone else's patch leaves the
    entries as its writer read them. */
module StatusPatches {
  import opened Api
  import opened MergePatch
  import Reconciliation
  import PassFacts
  import Protocol

  const CONNECTIONS := "connections"
  const COUNT := "count"
  const HEARTBEAT := "heartbeatAt"

  function EntryDoc(e: ConnectionEntry): Json {
    Obj(map[COUNT := Leaf(Number(e.count)), HEARTBEAT := Leaf(Number(e.heartbeatAt))])
  }

  predicate IsEntry(j: Json) {
    && j.Obj? && j.members.Keys == {COUNT, HEARTBEAT}
    && j.members[COUNT].Leaf? && j.members[HEARTBEAT].Leaf?
  }

  function Entries(doc: Json): map<string, Json> { MembersOf(Member(Some(doc), CONNECTIONS)) }

  function EntryOf(doc: Json, pod: string): Option<Json> { At(Some(doc), [CONNECTIONS, pod]) }

  lemma EntryIsMember(doc: Json, pod: string)
    ensures EntryOf(doc, pod) == Member(Member(Some(doc), CONNECTIONS), pod)
    ensures EntryOf(doc, pod) == if pod in Entries(doc) then Some(Entries(doc)[pod]) else None
  {
    var path := [CONNECTIONS, pod];
    assert path[1..] == [pod] && path[1..][1..] == [];
    assert At(Some(doc), path) == At(Member(Member(Some(doc), CONNECTIONS), pod), []);
  }

  /** A status document, as far as the entries go. */
  predicate IsStatus(doc: Json) {
    && doc.Obj?
    && (CONNECTIONS in doc.members ==> doc.members[CONNECTIONS].Obj?)
    && forall pod :: pod in Entries(doc) ==> IsEntry(Entries(doc)[pod])
  }

  /** The document a replica wants after a publish. */
  function PublishDoc(base: Json, pod: string, e: ConnectionEntry): (r: Json)
    requires base.Obj?
    ensures r.Obj?
  {
    Obj(base.members[CONNECTIONS := Obj(Entries(base)[pod := EntryDoc(e)])])
  }

  function PublishPatch(base: Json, pod: string, e: ConnectionEntry): (p: Json)
    requires base.Obj?
    ensures p.Obj?
  {
    Diff(base, PublishDoc(base, pod, e))
  }

  // ------------------------------------------------------------- one publish

  /** A publish leaves every other entry, and every other member, as it finds them. */
  lemma PublishKeepsOthers(base: Json, t: Json, pod: string, e: ConnectionEntry, other: string)
    requires base.Obj? && t.Obj?
    ensures var r := Apply(Some(t), PublishPatch(base, pod, e));
      && (other != pod ==> EntryOf(r, other) == EntryOf(t, other))
      && (other != CONNECTIONS ==> Member(Some(r), other) == Member(Some(t), other))
  {
    var b := PublishDoc(base, pod, e);
    if other != pod {
      var path := [CONNECTIONS, other];
      assert path[1..] == [other] && path[1..][0] == other && path[1..][1..] == [];
      var x, y := Member(Some(base), CONNECTIONS), Member(Some(b), CONNECTIONS);
      assert Member(x, other) == Member(y, other);
      assert Untouched(Member(x, other), Member(y, other), []);
      assert Untouched(x, y, path[1..]);
      PatchIsLocal(base, b, t, path);
    }
    if other != CONNECTIONS {
      MemberAfter(Some(t), PublishPatch(base, pod, e), other);
    }
  }

  /** The part of a publish's patch that is about one pod. */
  lemma PatchEntry(base: Json, pod: string, e: ConnectionEntry, other: string)
    requires IsStatus(base)
    ensures EntryOf(base, pod).Some? ==> EntryOf(base, pod).value.Obj?
    ensures EntryDoc(e).Obj?
    ensures var p := PublishPatch(base, pod, e);
      && (CONNECTIONS in p.members ==> p.members[CONNECTIONS].Obj?)
      && EntryOf(p, other)
      == if other != pod || EntryOf(base, pod) == Some(EntryDoc(e)) then None
         else if EntryOf(base, pod).None? then Some(EntryDoc(e))
         else Some(Diff(EntryOf(base, pod).value, EntryDoc(e)))
  {
    hide EntryDoc;
    hide EntryOf;
    var b := PublishDoc(base, pod, e);
    EntryIsMember(base, pod);
    EntryIsMember(PublishPatch(base, pod, e), other);
    EntryIsObject(e);
    DiffMember(base, b, CONNECTIONS);
    var x, y := Member(Some(base), CONNECTIONS), Member(Some(b), CONNECTIONS);
    if x == y {
      assert Entries(base)[pod] == EntryDoc(e);
    } else if x.Some? {
      DiffMember(x.value, y.value, other);
    }
  }

  lemma EntryIsObject(e: ConnectionEntry)
    ensures EntryDoc(e).Obj?
  {
  }

  /** What a publish makes of its own entry, whatever it finds there. */
  lemma PublishedEntry(base: Json, t: Json, pod: string, e: ConnectionEntry)
    requires IsStatus(base) && t.Obj?
    ensures EntryOf(base, pod).Some? ==> EntryOf(base, pod).value.Obj?
    ensures EntryDoc(e).Obj?
    ensures var before, read := EntryOf(t, pod), EntryOf(base, pod);
      EntryOf(Apply(Some(t), PublishPatch(base, pod, e)), pod)
        == if read == Some(EntryDoc(e)) then before
           else if read.None? then Some(Apply(before, EntryDoc(e)))
           else Some(Apply(before, Diff(read.value, EntryDoc(e))))
  {
    hide EntryDoc;
    hide EntryOf;
    hide PublishPatch;
    var p := PublishPatch(base, pod, e);
    EntryIsObject(e);
    EntryIsMember(base, pod);
    EntryIsMember(t, pod);
    EntryIsMember(p, pod);
    EntryIsMember(Apply(Some(t), p), pod);
    PatchEntry(base, pod, e, pod);
    MemberAfter(Some(t), p, CONNECTIONS);
    if CONNECTIONS in p.members {
      MemberAfter(Member(Some(t), CONNECTIONS), p.members[CONNECTIONS], pod);
    }
  }

  lemma EntryIsNullFree(e: ConnectionEntry)
    ensures NullFree(EntryDoc(e)) && IsEntry(EntryDoc(e))
  {
  }

  /** A replica that read its entry as it still is publishes exactly what it meant to. */
  lemma PublishLands(base: Json, t: Json, pod: string, e: ConnectionEntry)
    requires IsStatus(base) && t.Obj? && EntryOf(t, pod) == EntryOf(base, pod)
    ensures EntryOf(Apply(Some(t), PublishPatch(base, pod, e)), pod) == Some(EntryDoc(e))
  {
    PublishedEntry(base, t, pod, e);
    EntryIsNullFree(e);
    EntryIsMember(base, pod);
    match EntryOf(base, pod)
    case None => CreatedAsGiven(None, EntryDoc(e));
    case Some(read) => RoundTrip(read, EntryDoc(e));
  }

  /** The entry with the fields that a publish sends, and those it leaves alone. */
  function Landed(read: ConnectionEntry, live: ConnectionEntry, e: ConnectionEntry): ConnectionEntry {
    ConnectionEntry(if e.count == read.count then live.count else e.count,
                    if e.heartbeatAt == read.heartbeatAt then live.heartbeatAt else e.heartbeatAt)
  }

  lemma EntryPatched(read: ConnectionEntry, live: ConnectionEntry, e: ConnectionEntry)
    ensures Apply(Some(EntryDoc(live)), Diff(EntryDoc(read), EntryDoc(e))) == EntryDoc(Landed(read, live, e))
  {
    var d := Diff(EntryDoc(read), EntryDoc(e));
    var r := Apply(Some(EntryDoc(live)), d);
    forall k ensures Member(Some(r), k) == Member(Some(EntryDoc(Landed(read, live, e))), k) {
      DiffMember(EntryDoc(read), EntryDoc(e), k);
      MemberAfter(Some(EntryDoc(live)), d, k);
    }
    SameMembers(r, EntryDoc(Landed(read, live, e)));
  }

  /** Otherwise it lands as meant if and only if every field the publish leaves as it was
      read is still, in the store, as it was read. */
  lemma PublishLandsExactly(base: Json, t: Json, pod: string, read: ConnectionEntry, live: ConnectionEntry, e: ConnectionEntry)
    requires IsStatus(base) && t.Obj?
    requires EntryOf(base, pod) == Some(EntryDoc(read)) && EntryOf(t, pod) == Some(EntryDoc(live))
    ensures EntryOf(Apply(Some(t), PublishPatch(base, pod, e)), pod) == Some(EntryDoc(Landed(read, live, e)))
    ensures Landed(read, live, e) == e <==>
      ((e.count == read.count ==> live.count == read.count) && (e.heartbeatAt == read.heartbeatAt ==> live.heartbeatAt == read.heartbeatAt))
  {
    hide EntryOf;
    PublishedEntry(base, t, pod, e);
    EntryPatched(read, live, e);
    EntriesDiffer(read, e);
  }

  lemma EntriesDiffer(a: ConnectionEntry, b: ConnectionEntry)
    ensures EntryDoc(a) == EntryDoc(b) <==> a == b
  {
    var m, n := EntryDoc(a).members, EntryDoc(b).members;
    assert m == n ==> m[COUNT] == n[COUNT] && m[HEARTBEAT] == n[HEARTBEAT];
  }

  /** Two publishes of one replica in flight at once can leave an entry neither of them
      published: here a close and an open overlap, and the fresh entry that stays says
      zero while one connection is open. */
  lemma OverlappingPublishesMix(base: Json, pod: string, t: int)
    requires IsStatus(base) && EntryOf(base, pod) == Some(EntryDoc(ConnectionEntry(1, t)))
    ensures var closed := Apply(Some(base), PublishPatch(base, pod, ConnectionEntry(0, t + 1)));
      var reopened := Apply(Some(closed), PublishPatch(base, pod, ConnectionEntry(1, t + 2)));
      EntryOf(reopened, pod) == Some(EntryDoc(ConnectionEntry(0, t + 2)))
  {
    PublishLands(base, base, pod, ConnectionEntry(0, t + 1));
    var closed := Apply(Some(base), PublishPatch(base, pod, ConnectionEntry(0, t + 1)));
    PublishLandsExactly(base, closed, pod, ConnectionEntry(1, t), ConnectionEntry(0, t + 1), ConnectionEntry(1, t + 2));
  }

  /** Publishes under different pod names commute, whatever each of them had read and
      whatever they land on. */
  lemma PublishesCommute(t: Json, base: Json, base2: Json, pod: string, pod2: string, e: ConnectionEntry, e2: ConnectionEntry)
    requires pod != pod2 && IsStatus(base) && IsStatus(base2)
    ensures var p, q := PublishPatch(base, pod, e), PublishPatch(base2, pod2, e2);
      Apply(Some(Apply(Some(t), p)), q) == Apply(Some(Apply(Some(t), q)), p)
  {
    var p, q := PublishPatch(base, pod, e), PublishPatch(base2, pod2, e2);
    PatchNamesOneEntry(base, pod, e);
    PatchNamesOneEntry(base2, pod2, e2);
    assert Disjoint(p, q);
    DisjointPatchesCommute(Some(t), p, q);
  }

  lemma PatchNamesOneEntry(base: Json, pod: string, e: ConnectionEntry)
    requires IsStatus(base)
    ensures var p := PublishPatch(base, pod, e);
      && p.members.Keys <= {CONNECTIONS}
      && (CONNECTIONS in p.members ==> p.members[CONNECTIONS].Obj? && p.members[CONNECTIONS].members.Keys <= {pod})
  {
    var p := PublishPatch(base, pod, e);
    forall k | k in p.members ensures k == CONNECTIONS {
      DiffMember(base, PublishDoc(base, pod, e), k);
      assert Member(Some(p), k).Some?;
    }
    forall k | k in Entries(p) ensures k == pod {
      PatchEntry(base, pod, e, k);
      EntryIsMember(p, k);
    }
    PatchEntry(base, pod, e, pod);
    assert CONNECTIONS in p.members ==> Entries(p) == p.members[CONNECTIONS].members;
  }

  // ------------------------------------------------------------- interleavings

  datatype Writer = Replica(pod: string) | Anyone(id: nat)

  /** The status in the store, what each writer has read and not yet written, and the
      entry each replica last published. A replica has one publish in flight at most;
      there are any number of other reads. An update replaces the status whole, and is
      refused once the status is not the one its writer read. */
  datatype World = World(live: Json, held: map<Writer, Json>, published: map<string, ConnectionEntry>)

  datatype Step =
    | Read(who: Writer)
    | Publish(pod: string, entry: ConnectionEntry)
    | Patch(id: nat, result: Json)
    | Update(id: nat, result: Json)

  /** A write that is no publish wants the entries as it read them. */
  predicate LeavesEntries(base: Json, result: Json) {
    base.Obj? && result.Obj? && Member(Some(result), CONNECTIONS) == Member(Some(base), CONNECTIONS)
  }

  function Next(w: World, s: Step): World
    requires Inv(w)
  {
    match s
    case Read(who) => w.(held := w.held[who := w.live])
    case Publish(pod, entry) =>
      if Replica(pod) !in w.held then w
      else World(Apply(Some(w.live), PublishPatch(w.held[Replica(pod)], pod, entry)),
                 w.held - {Replica(pod)}, w.published[pod := entry])
    case Patch(id, result) =>
      if Anyone(id) in w.held && LeavesEntries(w.held[Anyone(id)], result)
      then w.(live := Apply(Some(w.live), Diff(w.held[Anyone(id)], result)), held := w.held - {Anyone(id)})
      else w
    case Update(id, result) =>
      if Anyone(id) in w.held && LeavesEntries(w.held[Anyone(id)], result) && w.held[Anyone(id)] == w.live
      then w.(live := result, held := w.held - {Anyone(id)})
      else w
  }

  predicate Inv(w: World) {
    && IsStatus(w.live)
    && (forall who :: who in w.held ==> IsStatus(w.held[who]))
    && (forall who :: who in w.held && who.Replica? ==> EntryOf(w.held[who], who.pod) == EntryOf(w.live, who.pod))
    && (forall pod :: pod in w.published ==> EntryOf(w.live, pod) == Some(EntryDoc(w.published[pod])))
  }

  lemma StillStatus(doc: Json)
    requires doc.Obj? && (CONNECTIONS in doc.members ==> doc.members[CONNECTIONS].Obj?)
    requires forall pod :: EntryOf(doc, pod).Some? ==> IsEntry(EntryOf(doc, pod).value)
    ensures IsStatus(doc)
  {
    forall pod | pod in Entries(doc) ensures IsEntry(Entries(doc)[pod]) {
      EntryIsMember(doc, pod);
    }
  }

  lemma PublishStep(w: World, pod: string, entry: ConnectionEntry)
    requires Inv(w) && Replica(pod) in w.held
    ensures Inv(Next(w, Publish(pod, entry)))
  {
    hide PublishPatch;
    hide EntryOf;
    var w', base := Next(w, Publish(pod, entry)), w.held[Replica(pod)];
    var p := PublishPatch(base, pod, entry);
    assert EntryOf(base, pod) == EntryOf(w.live, pod);
    PublishLands(base, w.live, pod, entry);
    forall other ensures other != pod ==> EntryOf(w'.live, other) == EntryOf(w.live, other) {
      PublishKeepsOthers(base, w.live, pod, entry, other);
    }
    forall other ensures EntryOf(w'.live, other).Some? ==> IsEntry(EntryOf(w'.live, other).value) {
      EntryIsMember(w.live, other);
      EntryIsNullFree(entry);
    }
    PatchNamesOneEntry(base, pod, entry);
    MemberAfter(Some(w.live), p, CONNECTIONS);
    StillStatus(w'.live);
  }

  /** The store after a write that leaves the entries as they are. */
  lemma EntriesLeft(w: World, w': World)
    requires Inv(w) && w'.live.Obj? && Member(Some(w'.live), CONNECTIONS) == Member(Some(w.live), CONNECTIONS)
    requires w'.published == w.published && w'.held.Keys <= w.held.Keys
    requires forall who :: who in w'.held ==> w'.held[who] == w.held[who]
    ensures Inv(w')
  {
    forall pod ensures EntryOf(w'.live, pod) == EntryOf(w.live, pod) {
      EntryIsMember(w'.live, pod);
      EntryIsMember(w.live, pod);
    }
    forall pod ensures EntryOf(w'.live, pod).Some? ==> IsEntry(EntryOf(w'.live, pod).value) {
      EntryIsMember(w.live, pod);
    }
    hide EntryOf;
    assert CONNECTIONS in w'.live.members ==> Member(Some(w'.live), CONNECTIONS).Some?;
    StillStatus(w'.live);
  }

  lemma OtherWriteStep(w: World, s: Step)
    requires Inv(w) && (s.Patch? || s.Update?)
    ensures Inv(Next(w, s))
    ensures Member(Some(Next(w, s).live), CONNECTIONS) == Member(Some(w.live), CONNECTIONS)
  {
    hide EntryOf;
    hide IsStatus;
    var w' := Next(w, s);
    assert w.live.Obj? by { LiveIsObject(w); }
    if w' != w {
      if s.Patch? {
        MemberAfter(Some(w.live), Diff(w.held[Anyone(s.id)], s.result), CONNECTIONS);
        DiffMember(w.held[Anyone(s.id)], s.result, CONNECTIONS);
      }
      EntriesLeft(w, w');
    }
  }

  lemma LiveIsObject(w: World)
    requires Inv(w)
    ensures w.live.Obj?
  {
  }

  lemma StepKeepsInv(w: World, s: Step)
    requires Inv(w)
    ensures Inv(Next(w, s))
  {
    match s
    case Read(who) =>
    case Publish(pod, entry) => if Replica(pod) in w.held { PublishStep(w, pod, entry); }
    case Patch(_, _) => OtherWriteStep(w, s);
    case Update(_, _) => OtherWriteStep(w, s);
  }

  function Run(w: World, steps: seq<Step>): (r: World)
    requires Inv(w)
    ensures Inv(r)
    decreases |steps|
  {
    if steps == [] then w
    else
      StepKeepsInv(w, steps[0]);
      Run(Next(w, steps[0]), steps[1..])
  }

  /** The entry a replica publishes last in a run. */
  function LastPublished(w: World, steps: seq<Step>, pod: string): Option<ConnectionEntry>
    requires Inv(w)
    decreases |steps|
  {
    if steps == [] then None
    else
      StepKeepsInv(w, steps[0]);
      var later := LastPublished(Next(w, steps[0]), steps[1..], pod);
      if later.Some? then later
      else if steps[0].Publish? && steps[0].pod == pod && Replica(pod) in w.held then Some(steps[0].entry)
      else None
  }

  /** Over every interleaving of reads and patches, by any writers, from any status: the
      entry a replica published last is the entry in the store. */
  lemma {:induction false} LastPublishedSurvives(w: World, steps: seq<Step>, pod: string)
    requires Inv(w)
    ensures var last, r := LastPublished(w, steps, pod), Run(w, steps);
      && (last.Some? ==> EntryOf(r.live, pod) == Some(EntryDoc(last.value)))
      && (last.None? ==> EntryOf(r.live, pod) == EntryOf(w.live, pod))
    decreases |steps|
  {
    if steps != [] {
      var s := steps[0];
      StepKeepsInv(w, s);
      LastPublishedSurvives(Next(w, s), steps[1..], pod);
      OneStep(w, s, pod);
    }
  }

  lemma OneStep(w: World, s: Step, pod: string)
    requires Inv(w)
    ensures EntryOf(Next(w, s).live, pod)
         == if s.Publish? && s.pod == pod && Replica(pod) in w.held then Some(EntryDoc(s.entry)) else EntryOf(w.live, pod)
  {
    var w' := Next(w, s);
    match s
    case Read(_) =>
    case Publish(p, e) =>
      if Replica(p) in w.held {
        if p == pod {
          PublishLands(w.held[Replica(p)], w.live, pod, e);
        } else {
          PublishKeepsOthers(w.held[Replica(p)], w.live, p, e, pod);
        }
      }
    case _ =>
      OtherWriteStep(w, s);
      EntryIsMember(w'.live, pod);
      EntryIsMember(w.live, pod);
  }

  // ------------------------------------------------------- statuses as documents

  function Instant(t: Option<int>): Option<Json> { if t.Some? then Some(Leaf(Number(t.value))) else None }

  function NonEmpty(s: string): Option<Json> { if s == "" then None else Some(Leaf(Text(s))) }

  function EntriesDoc(entries: map<string, ConnectionEntry>): Option<Json> {
    if entries == map[] then None else Some(Obj(map pod | pod in entries :: EntryDoc(entries[pod])))
  }

  function PhaseText(phase: Phase): string {
    match phase
    case Unset => ""
    case Pending => "Pending"
    case Starting => "Starting"
    case Ready => "Ready"
    case Idle => "Idle"
    case Failed => "Failed"
  }

  function WaitingText(reason: Waiting): string {
    match reason
    case NoReason => ""
    case CrashLoopBackOff => "CrashLoopBackOff"
    case RWOPConflict => "RWOPConflict"
    case OtherReason(text) => text
  }

  const FIELDS := {CONNECTIONS, "phase", "scaledDown", "lastActivity", "wakeRequestedAt", "enqueuedAt",
                   "consecutiveFailures", "backoffUntil", "startDeadline", "waitingReason",
                   "largestObservedSize", "conditions", "podRef", "serviceRef", "pvcRef"}

  /** A member of the marshalled status; a zero value is left out. */
  function Field(st: Status, key: string): Option<Json> {
    if key == CONNECTIONS then EntriesDoc(st.traffic.connections)
    else if key == "phase" then NonEmpty(PhaseText(st.phase))
    else if key == "scaledDown" then if st.scaledDown then Some(Leaf(Flag(true))) else None
    else if key == "lastActivity" then Instant(st.traffic.lastActivity)
    else if key == "wakeRequestedAt" then Instant(st.wakeRequestedAt)
    else if key == "enqueuedAt" then Instant(st.traffic.enqueuedAt)
    else if key == "consecutiveFailures" then
      if st.consecutiveFailures == 0 then None else Some(Leaf(Number(st.consecutiveFailures)))
    else if key == "backoffUntil" then Instant(st.backoffUntil)
    else if key == "startDeadline" then Instant(st.startDeadline)
    else if key == "waitingReason" then NonEmpty(WaitingText(st.report.waitingReason))
    else if key == "largestObservedSize" then Instant(st.storage.largestObservedSize)
    else if key == "conditions" then
      Some(Arr([Leaf(Flag(st.storage.specDrift)), Leaf(Flag(st.storage.shrinkRejected)), Leaf(Flag(st.storage.ambiguousVolume))]))
    else if key == "podRef" then NonEmpty(st.report.podRef)
    else if key == "serviceRef" then NonEmpty(st.report.serviceRef)
    else if key == "pvcRef" then NonEmpty(st.storage.pvcRef)
    else None
  }

  function Doc(st: Status): (doc: Json)
    ensures doc.Obj?
  {
    Obj(map k | k in FIELDS && Field(st, k).Some? :: Field(st, k).value)
  }

  lemma DocMember(st: Status, k: string)
    ensures Member(Some(Doc(st)), k) == Field(st, k)
  {
  }

  lemma EntriesDocIsEntries(entries: map<string, ConnectionEntry>)
    requires entries != map[]
    ensures var doc := EntriesDoc(entries).value;
      NullFree(doc) && doc.Obj? && forall pod :: pod in doc.members ==> IsEntry(doc.members[pod])
  {
    var doc := EntriesDoc(entries).value;
    forall pod | pod in doc.members ensures NullFree(doc.members[pod]) && IsEntry(doc.members[pod]) {
      EntryIsNullFree(entries[pod]);
    }
  }

  lemma DocIsStatus(st: Status)
    ensures IsStatus(Doc(st)) && NullFree(Doc(st))
  {
    var doc := Doc(st);
    DocMember(st, CONNECTIONS);
    if st.traffic.connections != map[] {
      EntriesDocIsEntries(st.traffic.connections);
    }
    forall k | k in doc.members ensures NullFree(doc.members[k]) {
      FieldIsNullFree(st, k);
      DocMember(st, k);
    }
  }

  lemma FieldIsNullFree(st: Status, k: string)
    ensures Field(st, k).Some? ==> NullFree(Field(st, k).value)
  {
    if k == CONNECTIONS && st.traffic.connections != map[] {
      EntriesDocIsEntries(st.traffic.connections);
    }
  }

  /** When nothing came between a read and its patch, the store holds what the writer
      wanted: the protocol's status writes are merge patches taken as one step. */
  lemma UninterruptedPatch(before: Status, after: Status)
    ensures Apply(Some(Doc(before)), Diff(Doc(before), Doc(after))) == Doc(after)
  {
    DocIsStatus(after);
    RoundTrip(Doc(before), Doc(after));
  }

  lemma EntriesDocExtends(entries: map<string, ConnectionEntry>, pod: string, e: ConnectionEntry)
    ensures EntriesDoc(entries[pod := e]) == Some(Obj(MembersOf(EntriesDoc(entries))[pod := EntryDoc(e)]))
  {
    var next := entries[pod := e];
    assert pod in next;
    assert (map p | p in next :: EntryDoc(next[p])) == MembersOf(EntriesDoc(entries))[pod := EntryDoc(e)];
  }

  lemma OtherFieldsKept(st: Status, pod: string, e: ConnectionEntry, k: string)
    requires k != CONNECTIONS
    ensures Field(Protocol.PublishStatus(st, pod, e), k) == Field(st, k)
  {
  }

  /** The protocol's publish is this document's publish. */
  lemma PublishIsPublishDoc(st: Status, pod: string, e: ConnectionEntry)
    ensures Doc(Protocol.PublishStatus(st, pod, e)) == PublishDoc(Doc(st), pod, e)
  {
    var next := Protocol.PublishStatus(st, pod, e);
    var entries := st.traffic.connections;
    assert Field(st, CONNECTIONS) == EntriesDoc(entries) && Field(next, CONNECTIONS) == EntriesDoc(entries[pod := e]);
    hide Field;
    hide EntriesDoc;
    EntriesDocExtends(entries, pod, e);
    DocMember(st, CONNECTIONS);
    forall k ensures Member(Some(Doc(next)), k) == Member(Some(PublishDoc(Doc(st), pod, e)), k) {
      DocMember(next, k);
      DocMember(st, k);
      if k != CONNECTIONS {
        OtherFieldsKept(st, pod, e, k);
      }
    }
    SameMembers(Doc(next), PublishDoc(Doc(st), pod, e));
  }

  lemma SameTrafficLeavesEntries(before: Status, after: Status)
    requires after.traffic.connections == before.traffic.connections
    ensures LeavesEntries(Doc(before), Doc(after))
  {
    DocMember(before, CONNECTIONS);
    DocMember(after, CONNECTIONS);
  }

  /** Every status write of the protocol that is no publish leaves the entries as its
      writer read them: a pass's, for whatever that pass read, every edit, and the
      reaper's update. */
  lemma OtherWritersLeaveEntries(st: Status, dep: Option<Deployment>, claims: seq<Claim>, name: Name,
                                 admitted: bool, now: int, env: Reconciliation.Env, edit: Protocol.Edit)
    requires st.phase != Unset && PassFacts.HashMatches(dep)
    ensures LeavesEntries(Doc(st), Doc(Reconciliation.Handle(st, dep, claims, name, admitted, now, env).st))
    ensures LeavesEntries(Doc(st), Doc(Protocol.Edited(st, dep, now, edit)))
    ensures LeavesEntries(Doc(st), Doc(st.(scaledDown := true)))
  {
    PassFacts.PassMeetsTable(st, dep, claims, name, admitted, now, env);
    SameTrafficLeavesEntries(st, Reconciliation.Handle(st, dep, claims, name, admitted, now, env).st);
    SameTrafficLeavesEntries(st, Protocol.Edited(st, dep, now, edit));
    SameTrafficLeavesEntries(st, st.(scaledDown := true));
  }

  /** A wake that lands between another writer's read and its patch outlives the patch,
      whoever that writer is, unless it is one that had read a wake and clears it. */
  lemma ConcurrentWakeSurvives(read: Status, wanted: Status, live: Status)
    requires read.wakeRequestedAt == wanted.wakeRequestedAt
    ensures Member(Some(Apply(Some(Doc(live)), Diff(Doc(read), Doc(wanted)))), "wakeRequestedAt") == Instant(live.wakeRequestedAt)
  {
    DocMember(read, "wakeRequestedAt");
    DocMember(wanted, "wakeRequestedAt");
    DocMember(live, "wakeRequestedAt");
    MemberAfter(Some(Doc(live)), Diff(Doc(read), Doc(wanted)), "wakeRequestedAt");
    DiffMember(Doc(read), Doc(wanted), "wakeRequestedAt");
  }

  /** Why a pass must be one step. A pass reads a Ready workspace that is not scaled down,
      and a scale-down lands before the pass's patch: the workspace stays scaled down, and
      is left in another phase than Ready, which is Pending, if and only if the pass read
      a wake, settled the storage and was let through by the policies. */
  lemma SplitPassKeepsScaleDown(read: Status, live: Status, dep: Option<Deployment>, claims: seq<Claim>, name: Name,
                                admitted: bool, now: int, env: Reconciliation.Env)
    requires read.phase == Ready && !read.scaledDown && live.phase == Ready && live.scaledDown
    ensures var s := Reconciliation.ReconcileStorage(read.storage, claims, name, env.app, env.faults);
      var wanted := Reconciliation.Handle(read, dep, claims, name, admitted, now, env).st;
      var patched := Apply(Some(Doc(live)), Diff(Doc(read), Doc(wanted)));
      var honoured := read.wakeRequestedAt.Some? && !s.failed && !s.refused && Reconciliation.PolicyFails !in env.faults;
      && Member(Some(patched), "scaledDown") == Some(Leaf(Flag(true)))
      && Member(Some(patched), "phase") == Some(Leaf(Text(if honoured then "Pending" else "Ready")))
      && (honoured ==> Member(Some(patched), "wakeRequestedAt") == None)
  {
    hide Reconciliation.ReconcileStorage;
    var wanted := Reconciliation.Handle(read, dep, claims, name, admitted, now, env).st;
    PatchedMember(read, wanted, live, "phase");
    PatchedMember(read, wanted, live, "scaledDown");
    PatchedMember(read, wanted, live, "wakeRequestedAt");
  }

  /** A handler that read no enqueue time sets its own, over whatever is there by then. */
  lemma EnqueuePatchReplaces(read: Status, live: Status, now: int)
    requires read.traffic.enqueuedAt.None?
    ensures var wanted := read.(traffic := read.traffic.(enqueuedAt := Some(now)));
      Member(Some(Apply(Some(Doc(live)), Diff(Doc(read), Doc(wanted)))), "enqueuedAt") == Some(Leaf(Number(now)))
  {
    PatchedMember(read, read.(traffic := read.traffic.(enqueuedAt := Some(now))), live, "enqueuedAt");
  }

  lemma LifecycleFields(st: Status)
    ensures Field(st, "phase") == NonEmpty(PhaseText(st.phase))
    ensures Field(st, "startDeadline") == Instant(st.startDeadline)
    ensures Field(st, "backoffUntil") == Instant(st.backoffUntil)
  {
  }

  /** What the failover sweep's patch does to a start that has moved on since the list was
      read: its phase stays, a deadline is set from the one that was read, and a start
      whose Deployment was not there is armed, whatever has been created since. */
  lemma SplitSweep(read: Status, live: Status, dep: Option<Deployment>, app: App, now: int, leaderless: int)
    requires read.phase == Starting
    ensures var wanted := Protocol.SweepStatus(read, dep, app, now, leaderless);
      var patched := Some(Apply(Some(Doc(live)), Diff(Doc(read), Doc(wanted))));
      && Member(patched, "phase") == Member(Some(Doc(live)), "phase")
      && Member(patched, "startDeadline") == Instant(
           if dep.Some? && read.startDeadline.Some? && leaderless != 0 then Some(read.startDeadline.value + leaderless)
           else live.startDeadline)
      && Member(patched, "backoffUntil") == Instant(
           if dep.None? && wanted.backoffUntil != read.backoffUntil then wanted.backoffUntil else live.backoffUntil)
  {
    var wanted := Protocol.SweepStatus(read, dep, app, now, leaderless);
    assert wanted.phase == read.phase;
    assert wanted.startDeadline == if dep.Some? && read.startDeadline.Some? then Some(read.startDeadline.value + leaderless) else read.startDeadline;
    assert dep.Some? ==> wanted.backoffUntil == read.backoffUntil;
    LifecycleFields(read);
    LifecycleFields(wanted);
    LifecycleFields(live);
    hide Field;
    hide Doc;
    hide Protocol.SweepStatus;
    DocMember(live, "phase");
    PatchedMember(read, wanted, live, "phase");
    PatchedMember(read, wanted, live, "startDeadline");
    PatchedMember(read, wanted, live, "backoffUntil");
  }

  lemma PatchedMember(read: Status, wanted: Status, live: Status, k: string)
    requires !(Field(wanted, k).Some? && Field(wanted, k).value.Obj?)
    ensures Member(Some(Apply(Some(Doc(live)), Diff(Doc(read), Doc(wanted)))), k)
         == if Field(read, k) == Field(wanted, k) then Field(live, k) else Field(wanted, k)
  {
    hide Field;
    DocMember(read, k);
    DocMember(wanted, k);
    DocMember(live, k);
    MemberAfter(Some(Doc(live)), Diff(Doc(read), Doc(wanted)), k);
    DiffMember(Doc(read), Doc(wanted), k);
    DocIsStatus(wanted);
  }
}
