/** The fleet limit at the router: a new user's Workspace is created only below the limit,
    by a check and a creation that many request handlers interleave. */
module FleetLimit {
  import opened Api
  import Ordering

  datatype Call = Get | List | Create | GetAgain | PatchStatus

  datatype Outcome = Serve(enqueuedAt: int) | LimitReached | Error

  /** The workspaces there are when each call is made, others creating and deleting in
      between; each has its enqueue time, or none yet. `atPatch` is the time stored in
      the user's own when its patch is made. */
  datatype Views = Views(
    atGet: map<Name, Option<int>>,
    atList: map<Name, Option<int>>,
    atCreate: map<Name, Option<int>>,
    atGetAgain: map<Name, Option<int>>,
    atPatch: Option<int>)

  /** A handler that read a time writes nothing; one that read none stores its own. */
  function TimeAfter(read: Option<int>, stored: Option<int>, now: int): Option<int> {
    if read.Some? then stored else Some(now)
  }

  method EnsureEnqueuedAt(read: Option<int>, stored: Option<int>, now: int, failing: set<Call>)
    returns (outcome: Outcome, after: Option<int>)
    ensures outcome == Error <==> read.None? && PatchStatus in failing
    ensures outcome != Error ==> outcome == Serve(if read.Some? then read.value else now)
    ensures after == if outcome == Error then stored else TimeAfter(read, stored, now)
  {
    if read.Some? {
      return Serve(read.value), stored;
    }
    if PatchStatus in failing {
      return Error, stored;
    }
    return Serve(now), Some(now);
  }

  /** No Workspace is found, and the list has reached a positive limit. */
  predicate Refuses(name: Name, maxWorkspaces: int, v: Views, failing: set<Call>) {
    Get !in failing && name !in v.atGet && List !in failing && maxWorkspaces > 0 && |v.atList| >= maxWorkspaces
  }

  /** No Workspace is found, the limit is not reached, and nobody else is first. */
  predicate Creates(name: Name, maxWorkspaces: int, v: Views, failing: set<Call>) {
    && Get !in failing && name !in v.atGet && List !in failing
    && (maxWorkspaces > 0 ==> |v.atList| < maxWorkspaces)
    && Create !in failing && name !in v.atCreate
  }

  /** A user whose Workspace is found is never refused for the limit; a new one is refused
      exactly when the list has reached it, and losing the race to create one's own
      Workspace is no error. */
  method EnsureWorkspace(name: Name, maxWorkspaces: int, now: int, v: Views, failing: set<Call>)
    returns (outcome: Outcome, created: bool, enqueuedAt: Option<int>)
    ensures outcome == LimitReached <==> Refuses(name, maxWorkspaces, v, failing)
    ensures created <==> Creates(name, maxWorkspaces, v, failing)
    ensures name in v.atGet ==> outcome != LimitReached && !created
    ensures failing == {} && name !in v.atGet && outcome != LimitReached ==>
      (outcome == Error <==> name in v.atCreate && name !in v.atGetAgain)
    ensures failing == {} && name in v.atGet ==>
      && outcome == Serve(if v.atGet[name].Some? then v.atGet[name].value else now)
      && enqueuedAt == TimeAfter(v.atGet[name], v.atPatch, now)
    ensures failing == {} && created ==> outcome == Serve(now) && enqueuedAt == Some(now)
    ensures failing == {} && name !in v.atGet && outcome.Serve? && !created ==>
      && name in v.atGetAgain
      && outcome == Serve(if v.atGetAgain[name].Some? then v.atGetAgain[name].value else now)
      && enqueuedAt == TimeAfter(v.atGetAgain[name], v.atPatch, now)
    ensures Get in failing || (name !in v.atGet && List in failing) ==> outcome == Error
  {
    created, enqueuedAt := false, v.atPatch;
    if Get in failing {
      return Error, created, enqueuedAt;
    }
    if name in v.atGet {
      outcome, enqueuedAt := EnsureEnqueuedAt(v.atGet[name], v.atPatch, now, failing);
      return;
    }
    if List in failing {
      return Error, created, enqueuedAt;
    }
    if maxWorkspaces > 0 && |v.atList| >= maxWorkspaces {
      return LimitReached, created, enqueuedAt;
    }
    if Create in failing {
      return Error, created, enqueuedAt;
    }
    if name in v.atCreate {
      if GetAgain in failing || name !in v.atGetAgain {
        return Error, created, enqueuedAt;
      }
      outcome, enqueuedAt := EnsureEnqueuedAt(v.atGetAgain[name], v.atPatch, now, failing);
      return;
    }
    created := true;
    outcome, enqueuedAt := EnsureEnqueuedAt(None, v.atPatch, now, failing);
  }

  // ---------------------------------------------------------- the enqueue time

  /** The stored time of one Workspace, and what handlers that have not yet ensured it
      have read. */
  datatype Times = Times(stored: Option<int>, read: map<nat, Option<int>>)

  datatype TimeStep = ReadTime(handler: nat) | EnsureTime(handler: nat, now: int)

  function NextTimes(w: Times, s: TimeStep): Times {
    match s
    case ReadTime(h) => w.(read := w.read[h := w.stored])
    case EnsureTime(h, now) =>
      if h in w.read then Times(TimeAfter(w.read[h], w.stored, now), w.read - {h}) else w
  }

  function RunTimes(w: Times, steps: seq<TimeStep>): Times
    decreases |steps|
  {
    if steps == [] then w else RunTimes(NextTimes(w, steps[0]), steps[1..])
  }

  /** No handler has yet to write over the stored time. */
  predicate NoneOutstanding(w: Times) { forall h :: h in w.read ==> w.read[h].Some? }

  lemma {:induction false} SettledTimeStays(w: Times, steps: seq<TimeStep>)
    requires w.stored.Some? && NoneOutstanding(w)
    ensures RunTimes(w, steps).stored == w.stored
    decreases |steps|
  {
    if steps != [] {
      SettledTimeStays(NextTimes(w, steps[0]), steps[1..]);
    }
  }

  /** The first time a handler stores is kept over every later run if and only if, when it
      is stored, no other handler has read that there was none. */
  lemma FirstTimeIsKept(w: Times, h: nat, now: int)
    requires h in w.read && w.read[h].None?
    ensures var w' := NextTimes(w, EnsureTime(h, now));
      (forall steps: seq<TimeStep> :: RunTimes(w', steps).stored == Some(now)) <==>
        (forall g :: g in w.read && g != h ==> w.read[g].Some?)
  {
    var w' := NextTimes(w, EnsureTime(h, now));
    if g :| g in w.read && g != h && w.read[g].None? {
      var steps := [EnsureTime(g, now + 1)];
      assert RunTimes(w', steps) == RunTimes(NextTimes(w', steps[0]), []);
      assert RunTimes(w', steps).stored == Some(now + 1);
    } else {
      forall steps: seq<TimeStep> ensures RunTimes(w', steps).stored == Some(now) {
        SettledTimeStays(w', steps);
      }
    }
  }

  // -------------------------------------------------------- handlers interleaved

  /** A handler between requests, or with its user found to have no Workspace, or past
      the limit check and about to create one. */
  datatype Handler = Free | Absent(name: Name) | Armed(name: Name)

  datatype World = World(fleet: set<Name>, handlers: map<nat, Handler>)

  datatype Step =
    | Lookup(handler: nat, name: Name)
    | CheckLimit(handler: nat)
    | CreateWorkspace(handler: nat)
    | Fail(handler: nat)
    | DeleteWorkspace(name: Name)

  function Next(w: World, s: Step, max: nat): World {
    match s
    case Lookup(h, n) =>
      if h !in w.handlers || !w.handlers[h].Free? || n in w.fleet then w
      else w.(handlers := w.handlers[h := Absent(n)])
    case CheckLimit(h) =>
      if h !in w.handlers || !w.handlers[h].Absent? then w
      else w.(handlers := w.handlers[h := if |w.fleet| >= max then Free else Armed(w.handlers[h].name)])
    case CreateWorkspace(h) =>
      if h !in w.handlers || !w.handlers[h].Armed? then w
      else World(w.fleet + {w.handlers[h].name}, w.handlers[h := Free])
    case Fail(h) => if h !in w.handlers then w else w.(handlers := w.handlers[h := Free])
    case DeleteWorkspace(n) => w.(fleet := w.fleet - {n})
  }

  lemma LookupAt(w: World, h: nat, name: Name, max: nat)
    requires h in w.handlers && w.handlers[h] == Free
    ensures var w' := Next(w, Lookup(h, name), max);
      h in w'.handlers && w'.handlers[h] == if name in w.fleet then Free else Absent(name)
  {
  }

  lemma CheckLimitAt(w: World, h: nat, max: nat)
    requires h in w.handlers
    ensures var w', before := Next(w, CheckLimit(h), max), w.handlers[h];
      && h in w'.handlers
      && w'.handlers[h] == if !before.Absent? then before else if |w.fleet| >= max then Free else Armed(before.name)
  {
  }

  lemma CreateAt(w: World, h: nat, max: nat)
    requires h in w.handlers
    ensures var w', before := Next(w, CreateWorkspace(h), max), w.handlers[h];
      && h in w'.handlers
      && w'.handlers[h] == (if before.Armed? then Free else before)
      && w'.fleet == if before.Armed? then w.fleet + {before.name} else w.fleet
  {
  }

  /** A handler's pass through the code is its three steps here, whatever the others do
      between them: it is refused exactly when the check frees it, and it creates exactly
      when the last step puts a name into the fleet that was not there. */
  lemma EnsureFollowsSteps(h: nat, name: Name, max: nat, v: Views, atGet: World, atList: World, atCreate: World)
    requires 0 < max && h in atGet.handlers && atGet.handlers[h] == Free
    requires atGet.fleet == v.atGet.Keys && atList.fleet == v.atList.Keys && atCreate.fleet == v.atCreate.Keys
    requires h in atList.handlers && atList.handlers[h] == Next(atGet, Lookup(h, name), max).handlers[h]
    requires h in atCreate.handlers && atCreate.handlers[h] == Next(atList, CheckLimit(h), max).handlers[h]
    ensures name in v.atGet <==> atList.handlers[h].Free?
    ensures Refuses(name, max, v, {}) <==> atList.handlers[h] == Absent(name) && atCreate.handlers[h].Free?
    ensures var last := Next(atCreate, CreateWorkspace(h), max);
      && last.handlers[h].Free?
      && last.fleet == atCreate.fleet + (if Creates(name, max, v, {}) then {name} else {})
      && (Creates(name, max, v, {}) <==> last.fleet != atCreate.fleet)
  {
    hide Next;
    LookupAt(atGet, h, name, max);
    CheckLimitAt(atList, h, max);
    CreateAt(atCreate, h, max);
    assert |v.atList.Keys| == |v.atList|;
    var full := |v.atList| >= max;
    assert atList.handlers[h] == if name in v.atGet then Free else Absent(name);
    assert atCreate.handlers[h] == if name in v.atGet || full then Free else Armed(name);
    var last := Next(atCreate, CreateWorkspace(h), max);
    if name in v.atGet || full {
      assert last.fleet == atCreate.fleet;
    } else {
      assert last.fleet == atCreate.fleet + {name};
      assert name in last.fleet;
    }
  }

  function Run(w: World, steps: seq<Step>, max: nat): World
    decreases |steps|
  {
    if steps == [] then w else Run(Next(w, steps[0], max), steps[1..], max)
  }

  function ArmedIn(w: World): set<nat> { set h | h in w.handlers && w.handlers[h].Armed? }

  /** Whatever is about to be created counts as if it were there already. */
  predicate Bounded(w: World, max: nat, k: nat) {
    |w.handlers| == k && |w.fleet| + |ArmedIn(w)| <= max + k - 1
  }

  lemma ArmedFit(w: World)
    ensures |ArmedIn(w)| <= |w.handlers|
  {
    assert ArmedIn(w) <= w.handlers.Keys;
    Ordering.SubsetSize(ArmedIn(w), w.handlers.Keys);
  }

  lemma StepKeepsBound(w: World, s: Step, max: nat, k: nat)
    requires Bounded(w, max, k) && 0 < max && 0 < k
    ensures Bounded(Next(w, s, max), max, k)
  {
    var w' := Next(w, s, max);
    ArmedFit(w');
    if s.DeleteWorkspace? {
      Ordering.SubsetSize(w'.fleet, w.fleet);
      assert ArmedIn(w') == ArmedIn(w);
    } else if s.handler in w.handlers {
      var h := s.handler;
      assert w'.handlers.Keys == w.handlers.Keys;
      assert |w'.handlers| == |w.handlers| by { assert |w'.handlers| == |w'.handlers.Keys| && |w.handlers| == |w.handlers.Keys|; }
      if w' != w {
        assert ArmedIn(w') == if w'.handlers[h].Armed? then ArmedIn(w) + {h} else ArmedIn(w) - {h};
      }
    }
  }

  lemma {:induction false} RunKeepsBound(w: World, steps: seq<Step>, max: nat, k: nat)
    requires Bounded(w, max, k) && 0 < max && 0 < k
    ensures Bounded(Run(w, steps, max), max, k)
    decreases |steps|
  {
    hide Next;
    if steps != [] {
      StepKeepsBound(w, steps[0], max, k);
      RunKeepsBound(Next(w, steps[0], max), steps[1..], max, k);
    }
  }

  /** Over every interleaving of k handlers, with deletions and failures at will, a fleet
      that starts within a positive limit never exceeds it by more than k - 1: with one
      handler, the limit holds exactly. */
  lemma FleetStaysBounded(w: World, steps: seq<Step>, max: nat, k: nat)
    requires |w.handlers| == k && ArmedIn(w) == {} && |w.fleet| <= max && 0 < max && 0 < k
    ensures |Run(w, steps, max).fleet| <= max + k - 1
  {
    RunKeepsBound(w, steps, max, k);
  }

  // ------------------------------------------------------------- and no better

  function User(i: nat): Name { seq(i, _ => 'u') }

  function Users(n: nat): set<Name> { if n == 0 then {} else Users(n - 1) + {User(n - 1)} }

  lemma {:induction false} UsersAre(n: nat, i: nat)
    ensures User(i) in Users(n) <==> i < n
    ensures |Users(n)| == n
  {
    if n > 0 {
      UsersAre(n - 1, i);
      UsersAre(n - 1, n - 1);
      assert |User(i)| == i && |User(n - 1)| == n - 1;
    }
  }

  function Numbers(k: nat): set<nat> { if k == 0 then {} else Numbers(k - 1) + {k - 1} }

  lemma {:induction false} NumbersAre(k: nat, h: nat)
    ensures h in Numbers(k) <==> h < k
    ensures |Numbers(k)| == k
  {
    if k > 0 {
      NumbersAre(k - 1, h);
      NumbersAre(k - 1, k - 1);
    }
  }

  /** The first `armed` of k handlers about to create the users after the first n, but for
      the first `done` of them, which have. */
  function Midway(n: nat, k: nat, armed: nat, done: nat): World {
    World(Users(n + done), map h | h in Numbers(k) :: if done <= h < armed then Armed(User(n + h)) else Free)
  }

  function Arming(n: nat, k: nat): seq<Step> {
    if k == 0 then [] else Arming(n, k - 1) + [Lookup(k - 1, User(n + k - 1)), CheckLimit(k - 1)]
  }

  function Creating(k: nat): seq<Step> { if k == 0 then [] else Creating(k - 1) + [CreateWorkspace(k - 1)] }

  lemma {:induction false} RunConcat(w: World, a: seq<Step>, b: seq<Step>, max: nat)
    ensures Run(w, a + b, max) == Run(Run(w, a, max), b, max)
    decreases |a|
  {
    hide Next;
    if a == [] {
      assert a + b == b;
    } else {
      assert (a + b)[1..] == a[1..] + b;
      RunConcat(Next(w, a[0], max), a[1..], b, max);
    }
  }

  lemma ArmOne(n: nat, k: nat, h: nat)
    requires h < k
    ensures Run(Midway(n, k, h, 0), [Lookup(h, User(n + h)), CheckLimit(h)], n + 1) == Midway(n, k, h + 1, 0)
  {
    hide Users;
    hide Numbers;
    var w, a, b := Midway(n, k, h, 0), Lookup(h, User(n + h)), CheckLimit(h);
    UsersAre(n, n + h);
    NumbersAre(k, h);
    assert [a, b][1..] == [b] && [b][1..] == [];
    var w1 := Next(w, a, n + 1);
    assert w1 == w.(handlers := w.handlers[h := Absent(User(n + h))]);
    var w2 := Next(w1, b, n + 1);
    assert w2.handlers == Midway(n, k, h + 1, 0).handlers;
    assert Run(w1, [b], n + 1) == Run(w2, [], n + 1);
  }

  lemma {:induction false} AllArm(n: nat, k: nat, j: nat)
    requires j <= k
    ensures Run(Midway(n, k, 0, 0), Arming(n, j), n + 1) == Midway(n, k, j, 0)
  {
    hide Next;
    hide Midway;
    if j > 0 {
      AllArm(n, k, j - 1);
      RunConcat(Midway(n, k, 0, 0), Arming(n, j - 1), [Lookup(j - 1, User(n + j - 1)), CheckLimit(j - 1)], n + 1);
      ArmOne(n, k, j - 1);
    }
  }

  lemma CreateOne(n: nat, k: nat, h: nat)
    requires h < k
    ensures Run(Midway(n, k, k, h), [CreateWorkspace(h)], n + 1) == Midway(n, k, k, h + 1)
  {
    hide Numbers;
    var w, a := Midway(n, k, k, h), CreateWorkspace(h);
    NumbersAre(k, h);
    assert [a][1..] == [];
    var w1 := Next(w, a, n + 1);
    assert w1.handlers == Midway(n, k, k, h + 1).handlers;
    assert w1.fleet == Midway(n, k, k, h + 1).fleet;
    assert Run(w, [a], n + 1) == Run(w1, [], n + 1);
  }

  lemma {:induction false} AllCreate(n: nat, k: nat, j: nat)
    requires j <= k
    ensures Run(Midway(n, k, k, 0), Creating(j), n + 1) == Midway(n, k, k, j)
  {
    hide Next;
    hide Midway;
    if j > 0 {
      AllCreate(n, k, j - 1);
      RunConcat(Midway(n, k, k, 0), Creating(j - 1), [CreateWorkspace(j - 1)], n + 1);
      CreateOne(n, k, j - 1);
    }
  }

  lemma MidwayIs(n: nat, k: nat, done: nat)
    ensures |Midway(n, k, 0, done).handlers| == k && ArmedIn(Midway(n, k, 0, done)) == {}
    ensures |Midway(n, k, 0, done).fleet| == |Midway(n, k, k, done).fleet| == n + done
  {
    var m := Midway(n, k, 0, done).handlers;
    NumbersAre(k, 0);
    UsersAre(n + done, 0);
    assert m.Keys == Numbers(k);
    assert |m| == |m.Keys|;
  }

  /** The bound is reached, for every limit and every number of handlers: each of them
      checks the limit before any of them creates. */
  lemma BoundIsReached(max: nat, k: nat)
    requires 0 < max && 0 < k
    ensures var w, steps := Midway(max - 1, k, 0, 0), Arming(max - 1, k) + Creating(k);
      && |w.handlers| == k && ArmedIn(w) == {} && |w.fleet| <= max
      && |Run(w, steps, max).fleet| == max + k - 1
  {
    hide Next;
    hide Midway;
    hide ArmedIn;
    var n, w := max - 1, Midway(max - 1, k, 0, 0);
    RunConcat(w, Arming(n, k), Creating(k), max);
    AllArm(n, k, k);
    AllCreate(n, k, k);
    MidwayIs(n, k, 0);
    MidwayIs(n, k, k);
  }

  /** A user can be refused for the limit whose Workspace is there by then: another
      request of the same user has just created it, and filled the fleet. */
  lemma RefusedBesideOwnCreation(n: Name, fleet: set<Name>)
    requires n !in fleet
    ensures var max := |fleet| + 1;
      var w := World(fleet, map[0 := Free, 1 := Free]);
      var w' := Run(w, [Lookup(0, n), Lookup(1, n)] + [CheckLimit(0), CreateWorkspace(0)], max);
      && w' == World(fleet + {n}, map[0 := Free, 1 := Absent(n)])
      && Next(w', CheckLimit(1), max) == World(fleet + {n}, map[0 := Free, 1 := Free])
  {
    hide Run;
    var max, w := |fleet| + 1, World(fleet, map[0 := Free, 1 := Free]);
    RunConcat(w, [Lookup(0, n), Lookup(1, n)], [CheckLimit(0), CreateWorkspace(0)], max);
    RunTwo(w, Lookup(0, n), Lookup(1, n), max);
    var looked := World(fleet, map[0 := Absent(n), 1 := Absent(n)]);
    assert Next(Next(w, Lookup(0, n), max), Lookup(1, n), max) == looked;
    RunTwo(looked, CheckLimit(0), CreateWorkspace(0), max);
    assert Next(looked, CheckLimit(0), max) == World(fleet, map[0 := Armed(n), 1 := Absent(n)]);
  }

  lemma RunTwo(w: World, a: Step, b: Step, max: nat)
    ensures Run(w, [a, b], max) == Next(Next(w, a, max), b, max)
  {
    hide Next;
    assert [a, b][1..] == [b] && [b][1..] == [];
    assert Run(Next(w, a, max), [b], max) == Run(Next(Next(w, a, max), b, max), [], max);
  }
}
