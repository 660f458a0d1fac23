/** The router's cache of Service addresses, the delete watch that purges it, and what a
    cached address can be relied on for while ClusterIPs are released and reused. */
module Resolver {
  import opened Api

  datatype Addr = Addr(ip: nat, port: int)

  datatype EventType = Added | Modified | Deleted | Other

  /** A watch event; the object is None when it is not of the kind the handler expects. */
  datatype Event = Event(kind: EventType, name: Option<Name>)

  // ------------------------------------------------------------------ the resolver

  /** What the lookup comes to: the cached address, else the live Service's, else none. */
  function Lookup(cache: map<Name, Addr>, services: map<Name, nat>, n: Name, port: int): Option<Addr> {
    if n in cache then Some(cache[n])
    else if n in services then Some(Addr(services[n], port))
    else None
  }

  class ServiceApi {
    var services: map<Name, nat>

    constructor () { services := map[]; }
  }

  class AddressResolver {
    const api: ServiceApi
    var cache: map<Name, Addr>

    constructor (api: ServiceApi)
      ensures this.api == api && cache == map[]
    {
      this.api := api;
      cache := map[];
    }

    /** The cached address or the live Service's; only a hit or a live Service yields one. */
    method Resolve(n: Name, port: int) returns (addr: Option<Addr>)
      modifies this`cache
      ensures addr == Lookup(old(cache), api.services, n, port)
      ensures n in old(cache) ==> addr == Some(old(cache[n]))
      ensures n !in old(cache) && n in api.services ==> addr == Some(Addr(api.services[n], port))
      ensures n !in old(cache) && n !in api.services ==> addr == None
      ensures cache == if addr.Some? then old(cache)[n := addr.value] else old(cache)
    {
      if n in cache {
        assert cache[n := cache[n]] == cache;
        return Some(cache[n]);
      }
      if n !in api.services {
        return None;
      }
      var found := Addr(api.services[n], port);
      cache := cache[n := found];
      return Some(found);
    }

    method Invalidate(n: Name)
      modifies this`cache
      ensures cache == old(cache) - {n}
    {
      cache := cache - {n};
    }

    method HandleServiceEvent(e: Event)
      modifies this`cache
      ensures cache == if e.kind == Deleted && e.name.Some? then old(cache) - {e.name.value} else old(cache)
    {
      if e.kind != Deleted {
        return;
      }
      if e.name.Some? {
        Invalidate(e.name.value);
      }
    }

    method HandleWorkspaceEvent(e: Event)
      modifies this`cache
      ensures cache == if e.kind == Deleted && e.name.Some? then old(cache) - {e.name.value} else old(cache)
    {
      if e.kind != Deleted {
        return;
      }
      if e.name.None? {
        return;
      }
      Invalidate(e.name.value);
    }
  }

  datatype Endpoint = Endpoint(addresses: nat, ready: Option<bool>)

  method HasEndpoints(slices: seq<seq<Endpoint>>) returns (found: bool)
    ensures found <==> exists i, j :: 0 <= i < |slices| && 0 <= j < |slices[i]|
                              && slices[i][j].addresses > 0 && (slices[i][j].ready.None? || slices[i][j].ready.value)
  {
    for i := 0 to |slices|
      invariant forall k, j :: 0 <= k < i && 0 <= j < |slices[k]| ==> !(slices[k][j].addresses > 0 && (slices[k][j].ready.None? || slices[k][j].ready.value))
    {
      for j := 0 to |slices[i]|
        invariant forall l :: 0 <= l < j ==> !(slices[i][l].addresses > 0 && (slices[i][l].ready.None? || slices[i][l].ready.value))
      {
        if slices[i][j].addresses == 0 {
          continue;
        }
        if slices[i][j].ready.None? || slices[i][j].ready.value {
          return true;
        }
      }
    }
    return false;
  }

  // ----------------------------------------------------------------- coherence

  /** A live Service: no two that ever are have one uid. */
  datatype Service = Service(uid: nat, ip: nat)

  /** An address and the uid of the Service it was read from. */
  datatype Entry = Entry(addr: Addr, uid: nat)

  /** A lookup between its read of the Service and its write to the cache. */
  datatype UnderWay = UnderWay(name: Name, entry: Entry)

  /** The delete event of one Service. */
  datatype Gone = Gone(name: Name, uid: nat)

  /** The live Services, one router's cache, its lookups under way, and its watch: whether
      it is connected, and the delete events not yet handled. The rest is history: the
      name and address of every Service there has been, and the uids of those whose delete
      event was lost to a watch gap, or has been handled. */
  datatype World = World(
    services: map<Name, Service>,
    cache: map<Name, Entry>,
    pending: map<nat, UnderWay>,
    connected: bool,
    events: seq<Gone>,
    known: map<nat, (Name, nat)>,
    lost: set<nat>,
    handled: set<nat>)

  datatype Step =
    | CreateService(name: Name, service: Service)
    | DeleteService(name: Name)
    | Connect
    | Disconnect
    | HandleDelete
    | HandleWorkspaceDelete(name: Name)
    | Read(id: nat, name: Name, port: int)
    | Fill(id: nat)

  function Queued(events: seq<Gone>): set<nat> { set e | e in events :: e.uid }

  function Next(w: World, s: Step): World {
    match s
    case CreateService(n, service) =>
      if n in w.services || service.uid in w.known || exists m :: m in w.services && w.services[m].ip == service.ip then w
      else w.(services := w.services[n := service], known := w.known[service.uid := (n, service.ip)])
    case DeleteService(n) =>
      if n !in w.services then w
      else
        var uid := w.services[n].uid;
        var gone := w.(services := w.services - {n});
        if w.connected then gone.(events := w.events + [Gone(n, uid)]) else gone.(lost := w.lost + {uid})
    case Connect => w.(connected := true)
    case Disconnect => w.(connected := false, events := [], lost := w.lost + Queued(w.events))
    case HandleDelete =>
      if w.events == [] then w
      else w.(cache := w.cache - {w.events[0].name}, events := w.events[1..], handled := w.handled + {w.events[0].uid})
    case HandleWorkspaceDelete(n) => w.(cache := w.cache - {n})
    case Read(id, n, port) =>
      if n in w.cache || n !in w.services || id in w.pending then w
      else w.(pending := w.pending[id := UnderWay(n, Entry(Addr(w.services[n].ip, port), w.services[n].uid))])
    case Fill(id) =>
      if id !in w.pending then w
      else w.(cache := w.cache[w.pending[id].name := w.pending[id].entry], pending := w.pending - {id})
  }

  function Run(w: World, steps: seq<Step>): World
    decreases |steps|
  {
    if steps == [] then w else Run(Next(w, steps[0]), steps[1..])
  }

  /** The Service of that uid is the live one of that name. */
  predicate Lives(w: World, n: Name, uid: nat) { n in w.services && w.services[n].uid == uid }

  /** The Service has been deleted: its event is queued, was lost, or has been handled. */
  predicate Deleted(w: World, uid: nat) { uid in Queued(w.events) || uid in w.lost || uid in w.handled }

  predicate OfKnown(w: World, n: Name, e: Entry) { e.uid in w.known && w.known[e.uid] == (n, e.addr.ip) }

  predicate Inv(w: World) {
    && (forall n :: n in w.services ==> w.services[n].uid in w.known && w.known[w.services[n].uid] == (n, w.services[n].ip))
    && (forall uid :: uid in w.known ==> (Lives(w, w.known[uid].0, uid) <==> !Deleted(w, uid)))
    && (forall n :: n in w.cache ==> OfKnown(w, n, w.cache[n]))
    && (forall id :: id in w.pending ==> OfKnown(w, w.pending[id].name, w.pending[id].entry))
    && (forall e :: e in w.events ==> e.uid in w.known && w.known[e.uid].0 == e.name)
    && (forall uid :: uid in w.lost + w.handled ==> uid in w.known)
    && (forall m, n :: m in w.services && n in w.services && m != n ==> w.services[m].ip != w.services[n].ip)
  }

  /** Before the router looked anything up: every Service there has been is still live. */
  predicate Initial(w: World) {
    && Inv(w)
    && w.cache == map[] && w.pending == map[] && w.events == [] && w.lost == {} && w.handled == {}
  }

  lemma QueuedMore(events: seq<Gone>, e: Gone)
    ensures Queued(events + [e]) == Queued(events) + {e.uid}
  {
    assert forall d :: d in events + [e] <==> d in events || d == e;
  }

  lemma QueuedNone()
    ensures Queued([]) == {}
  {
  }

  lemma QueuedTail(events: seq<Gone>)
    requires events != []
    ensures Queued(events) == {events[0].uid} + Queued(events[1..])
  {
    assert forall d :: d in events <==> d == events[0] || d in events[1..];
  }

  lemma StepKeepsInv(w: World, s: Step)
    requires Inv(w)
    ensures Inv(Next(w, s))
  {
    hide Next;
    hide Inv;
    match s
    case CreateService(n, service) => CreateKeepsInv(w, n, service);
    case DeleteService(n) => DeleteKeepsInv(w, n);
    case Disconnect => DisconnectKeepsInv(w);
    case HandleDelete => HandleKeepsInv(w);
    case _ => CacheKeepsInv(w, s);
  }

  lemma CacheKeepsInv(w: World, s: Step)
    requires Inv(w) && (s.Connect? || s.HandleWorkspaceDelete? || s.Read? || s.Fill?)
    ensures Inv(Next(w, s))
  {
    hide Queued;
  }

  lemma CreateEffect(w: World, n: Name, service: Service)
    ensures var w' := Next(w, CreateService(n, service));
      || w' == w
      || (&& n !in w.services && service.uid !in w.known && (forall m :: m in w.services ==> w.services[m].ip != service.ip)
          && w' == w.(services := w.services[n := service], known := w.known[service.uid := (n, service.ip)]))
  {
  }

  lemma CreateKeepsLives(w: World, n: Name, service: Service, uid: nat)
    requires Inv(w) && n !in w.services && service.uid !in w.known
    requires uid in w.known || uid == service.uid
    ensures var w' := w.(services := w.services[n := service], known := w.known[service.uid := (n, service.ip)]);
      Lives(w', w'.known[uid].0, uid) <==> !Deleted(w', uid)
  {
    QueuedAreKnown(w, service.uid);
    hide Queued;
  }

  lemma CreateKeepsInv(w: World, n: Name, service: Service)
    requires Inv(w)
    ensures Inv(Next(w, CreateService(n, service)))
  {
    hide Queued;
    hide Next;
    hide Lives;
    hide Deleted;
    var w' := Next(w, CreateService(n, service));
    CreateEffect(w, n, service);
    if w' != w {
      assert forall uid :: uid in w.known ==> uid in w'.known && w'.known[uid] == w.known[uid];
      forall m | m in w'.cache ensures OfKnown(w', m, w'.cache[m]) {
        assert OfKnown(w, m, w.cache[m]);
      }
      forall id | id in w'.pending ensures OfKnown(w', w'.pending[id].name, w'.pending[id].entry) {
        assert OfKnown(w, w.pending[id].name, w.pending[id].entry);
      }
      forall uid | uid in w'.known ensures Lives(w', w'.known[uid].0, uid) <==> !Deleted(w', uid) {
        CreateKeepsLives(w, n, service, uid);
      }
    }
  }

  lemma QueuedAreKnown(w: World, uid: nat)
    requires Inv(w)
    ensures uid in Queued(w.events) ==> uid in w.known
  {
  }

  lemma DeleteKeepsInv(w: World, n: Name)
    requires Inv(w)
    ensures Inv(Next(w, DeleteService(n)))
  {
    hide Queued;
    if n in w.services {
      var w', gone := Next(w, DeleteService(n)), w.services[n].uid;
      QueuedMore(w.events, Gone(n, gone));
      forall uid | uid in w'.known ensures Lives(w', w'.known[uid].0, uid) <==> !Deleted(w', uid) {
        assert Deleted(w', uid) <==> uid == gone || Deleted(w, uid);
        assert Lives(w', w.known[uid].0, uid) <==> uid != gone && Lives(w, w.known[uid].0, uid);
      }
    }
  }

  lemma DisconnectKeepsInv(w: World)
    requires Inv(w)
    ensures Inv(Next(w, Disconnect))
  {
    hide Queued;
    QueuedNone();
    forall uid | uid in Queued(w.events) ensures uid in w.known {
      QueuedAreKnown(w, uid);
    }
  }

  lemma HandleKeepsInv(w: World)
    requires Inv(w)
    ensures Inv(Next(w, HandleDelete))
  {
    hide Queued;
    if w.events != [] {
      QueuedTail(w.events);
      assert w.events == [w.events[0]] + w.events[1..];
      assert w.events[0] in w.events;
    }
  }

  lemma {:induction false} RunKeepsInv(w: World, steps: seq<Step>)
    requires Inv(w)
    ensures Inv(Run(w, steps))
    decreases |steps|
  {
    hide Next;
    if steps != [] {
      StepKeepsInv(w, steps[0]);
      RunKeepsInv(Next(w, steps[0]), steps[1..]);
    }
  }

  /** Over every run, lookups interleaved at will: a cached address belongs to the live
      Service of that name, the one it was read from, if and only if that Service's own
      delete event is not queued, was not lost to a watch gap, and was not handled, which
      it then was before the address was written. */
  lemma CachedAddressExactly(w: World, steps: seq<Step>, n: Name)
    requires Initial(w)
    ensures var w' := Run(w, steps);
      n in w'.cache ==>
        && (Lives(w', n, w'.cache[n].uid) <==> !Deleted(w', w'.cache[n].uid))
        && (Lives(w', n, w'.cache[n].uid) ==> w'.services[n].ip == w'.cache[n].addr.ip)
  {
    RunKeepsInv(w, steps);
  }

  // --------------------------------------------------------------- as one step

  /** Every lookup writes right after it reads. */
  predicate Whole(steps: seq<Step>)
    decreases |steps|
  {
    if steps == [] then true
    else if steps[0].Read? then |steps| >= 2 && steps[1] == Fill(steps[0].id) && Whole(steps[2..])
    else !steps[0].Fill? && Whole(steps[1..])
  }

  /** Between lookups nothing is under way, and what is cached has no handled event. */
  predicate Settled(w: World) {
    Inv(w) && w.pending == map[] && forall n :: n in w.cache ==> w.cache[n].uid !in w.handled
  }

  lemma {:induction false} WholeStaysSettled(w: World, steps: seq<Step>)
    requires Settled(w) && Whole(steps)
    ensures Settled(Run(w, steps))
    decreases |steps|
  {
    hide Next;
    if steps == [] {
    } else if steps[0].Read? {
      LookupStaysSettled(w, steps[0].id, steps[0].name, steps[0].port);
      assert steps[1..][1..] == steps[2..];
      WholeStaysSettled(Next(Next(w, steps[0]), steps[1]), steps[2..]);
    } else {
      OtherStaysSettled(w, steps[0]);
      WholeStaysSettled(Next(w, steps[0]), steps[1..]);
    }
  }

  lemma OtherStaysSettled(w: World, s: Step)
    requires Settled(w) && !s.Read? && !s.Fill?
    ensures Settled(Next(w, s))
  {
    StepKeepsInv(w, s);
  }

  lemma LookupStaysSettled(w: World, id: nat, n: Name, port: int)
    requires Settled(w)
    ensures Settled(Next(Next(w, Read(id, n, port)), Fill(id)))
  {
    hide Queued;
    var r := Next(w, Read(id, n, port));
    StepKeepsInv(w, Read(id, n, port));
    StepKeepsInv(r, Fill(id));
    if r != w {
      assert Lives(w, n, w.services[n].uid);
      assert r.pending - {id} == map[];
    }
  }

  function Addresses(cache: map<Name, Entry>): map<Name, Addr> { map n | n in cache :: cache[n].addr }

  function Ips(services: map<Name, Service>): map<Name, nat> { map n | n in services :: services[n].ip }

  /** Reading and writing at once is the resolver's lookup. */
  lemma ReadThenFill(w: World, id: nat, n: Name, port: int)
    requires w.pending == map[]
    ensures var w', addr := Next(Next(w, Read(id, n, port)), Fill(id)), Lookup(Addresses(w.cache), Ips(w.services), n, port);
      Addresses(w'.cache) == if addr.Some? then Addresses(w.cache)[n := addr.value] else Addresses(w.cache)
  {
    if n in w.cache {
      assert Addresses(w.cache)[n := w.cache[n].addr] == Addresses(w.cache);
    } else if n in w.services {
      var e := Entry(Addr(w.services[n].ip, port), w.services[n].uid);
      assert Addresses(w.cache[n := e]) == Addresses(w.cache)[n := e.addr];
    }
  }

  /** With each lookup as one step, a cached address belongs to the live Service of its
      name, the one it was read from, if and only if that Service's delete event is
      neither queued nor lost to a watch gap; then no other Service has the address. A
      Service whose event is lost was live when its address was cached, and has been
      deleted since. */
  lemma CacheIsCoherent(w: World, steps: seq<Step>, n: Name)
    requires Initial(w) && Whole(steps)
    ensures var w' := Run(w, steps);
      n in w'.cache ==>
        var e := w'.cache[n];
        && (Lives(w', n, e.uid) <==> e.uid !in Queued(w'.events) && e.uid !in w'.lost)
        && (Lives(w', n, e.uid) ==>
              w'.services[n].ip == e.addr.ip && forall m :: m in w'.services && m != n ==> w'.services[m].ip != e.addr.ip)
  {
    WholeStaysSettled(w, steps);
  }

  // ----------------------------------------------------- why each exception is there

  lemma Run4(w: World, a: Step, b: Step, c: Step, d: Step)
    ensures Run(w, [a, b, c, d]) == Next(Next(Next(Next(w, a), b), c), d)
  {
    hide Next;
    assert [a, b, c, d][1..] == [b, c, d] && [b, c, d][1..] == [c, d] && [c, d][1..] == [d] && [d][1..] == [];
    var w1 := Next(w, a);
    var w2 := Next(w1, b);
    var w3 := Next(w2, c);
    assert Run(w3, [d]) == Next(w3, d);
    assert Run(w2, [c, d]) == Run(w3, [d]);
    assert Run(w1, [b, c, d]) == Run(w2, [c, d]);
  }

  function OneService(n: Name): World { World(map[n := Service(0, 1)], map[], map[], true, [], map[0 := (n, 1)], {}, {}) }

  /** When the delete event is handled between a lookup's read and its write, the dead
      address is cached with nothing left to purge it. */
  lemma SplitLookupGoesStale(n: Name, port: int)
    ensures Initial(OneService(n))
    ensures var w := Run(OneService(n), [Read(0, n, port), DeleteService(n), HandleDelete, Fill(0)]);
      n in w.cache && n !in w.services && w.connected && w.events == [] && w.lost == {}
  {
    var w, e := OneService(n), Entry(Addr(1, port), 0);
    assert Queued([]) == {};
    Run4(w, Read(0, n, port), DeleteService(n), HandleDelete, Fill(0));
    var w1 := Next(w, Read(0, n, port));
    assert w1 == w.(pending := map[0 := UnderWay(n, e)]);
    var w2 := Next(w1, DeleteService(n));
    assert w2.events == [Gone(n, 0)] && w2.pending == w1.pending && n !in w2.services && w2.connected && w2.lost == {};
    var w3 := Next(w2, HandleDelete);
    assert w3.pending == w1.pending && w3.events == [] && n !in w3.services && w3.connected && w3.lost == {};
  }

  /** Watching the Workspace's deletion as well does not close the gap: while the Service
      outlives its Workspace, a lookup caches it again. */
  lemma WorkspaceEventIsNotEnough(w: World, n: Name, port: int)
    requires Inv(w) && n in w.services && !w.connected && w.events == [] && w.pending == map[]
    ensures var w' := Run(w, [HandleWorkspaceDelete(n), Read(0, n, port), Fill(0), DeleteService(n)]);
      n in w'.cache && n !in w'.services && w'.events == []
  {
    Run4(w, HandleWorkspaceDelete(n), Read(0, n, port), Fill(0), DeleteService(n));
  }
}
