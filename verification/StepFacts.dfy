/** What a single action can do to the store: how far it reaches, how versions move, and
    what it makes of the workspace it is about. */
module StepFacts {
  import opened Api
  import opened Reconciliation
  import opened PassFacts
  import opened Protocol

  /** Everything the store and the history hold about one name. */
  ghost predicate SameAt(w: World, w': World, m: Name) {
    && (m in w'.store.objs <==> m in w.store.objs)
    && (m in w.store.objs ==> w'.store.objs[m] == w.store.objs[m])
    && DeploymentOf(w'.store, m) == DeploymentOf(w.store, m)
    && ClaimsOf(w'.store, m) == ClaimsOf(w.store, m)
    && (m in w'.synced <==> m in w.synced)
    && (m in w.synced ==> w'.synced[m] == w.synced[m])
  }

  lemma ReconcileKeepsOthers(w: World, n: Name, env: Env, h: Handled, m: Name)
    requires n != m
    ensures SameAt(w, ReconcileWorld(w, n, env, h), m)
  {
  }

  /** An action leaves every workspace but the one it names, and its children, alone. */
  lemma OthersKept(w: World, a: Action, m: Name)
    requires a.Tick? || a.name != m
    ensures SameAt(w, Apply(w, a), m)
  {
    if a.Reconcile? {
      ReconcileKeepsOthers(w, a.name, a.env, OutcomeOf(w.store, a.name, w.now, a.env, a.order), m);
    } else {
      OtherActorsKeepOthers(w, a, m);
    }
  }

  lemma OtherActorsKeepOthers(w: World, a: Action, m: Name)
    requires !a.Reconcile? && (a.Tick? || a.name != m)
    ensures SameAt(w, ApplyOther(w, a), m)
  {
    if WritesStatus(w, a) {
      WriteKeepsOthers(w.store, a.name, NewStatus(w, a), m);
    }
  }

  lemma WriteKeepsOthers(s: Store, n: Name, st: Status, m: Name)
    requires n in s.objs && n != m
    ensures var s' := WriteStatus(s, n, st);
      && (m in s'.objs <==> m in s.objs)
      && (m in s.objs ==> s'.objs[m] == s.objs[m])
      && s' == s.(objs := s'.objs, nextVersion := s'.nextVersion)
  {
  }

  // ----------------------------------------------------------------- versions

  /** Every object is as it was or carries a version that was never used before. */
  ghost predicate Evolves(s: Store, s': Store) {
    && s.nextVersion <= s'.nextVersion
    && forall n :: n in s'.objs ==>
         || (n in s.objs && s'.objs[n] == s.objs[n])
         || s.nextVersion <= s'.objs[n].version < s'.nextVersion
  }

  lemma ReconcileEvolves(s: Store, n: Name, env: Env, h: Handled)
    ensures Evolves(s, ReconcileWith(s, n, env, h))
  {
  }

  lemma ApplyEvolves(w: World, a: Action)
    ensures Evolves(w.store, Apply(w, a).store)
  {
    if a.Reconcile? {
      ReconcileEvolves(w.store, a.name, a.env, OutcomeOf(w.store, a.name, w.now, a.env, a.order));
    } else {
      OtherActorsEvolve(w, a);
    }
  }

  lemma OtherActorsEvolve(w: World, a: Action)
    requires !a.Reconcile?
    ensures Evolves(w.store, ApplyOther(w, a).store)
  {
    if WritesStatus(w, a) {
      WriteEvolves(w.store, a.name, NewStatus(w, a));
    }
  }

  lemma WriteEvolves(s: Store, n: Name, st: Status)
    requires n in s.objs
    ensures Evolves(s, WriteStatus(s, n, st))
  {
  }

  // --------------------------------------------------------- the reconcile step

  ghost predicate HashesMatch(s: Store) { forall n :: n in s.deps ==> HashMatches(Some(s.deps[n])) }

  /** What a pass comes to for its own workspace, in terms of its handler's outcome. */
  lemma ReconcileAt(w: World, n: Name, env: Env, h: Handled)
    requires n in w.store.objs
    requires Handles(w.store, n, env) && DeploymentOf(w.store, n).Some? ==> h.dep.Some?
    ensures var w' := ReconcileWorld(w, n, env, h);
      if Handles(w.store, n, env) then
        && n in w'.store.objs
        && w'.store.objs[n].ws == w.store.objs[n].ws.(status := Persisted(StatusOf(w, n), h, env.faults))
        && DeploymentOf(w'.store, n) == h.dep
        && ClaimsOf(w'.store, n) == h.claims
      else
        && (n in w'.store.objs ==>
              || StatusOf(w', n) == StatusOf(w, n)
              || (StatusOf(w, n).phase == Unset && StatusOf(w', n) == StatusOf(w, n).(phase := Pending)))
        && DeploymentOf(w'.store, n) == DeploymentOf(w.store, n)
        && ClaimsOf(w'.store, n) == ClaimsOf(w.store, n)
  {
  }

  /** A pass that reaches its handler makes a move of the table. */
  lemma OutcomeMeetsTable(w: World, n: Name, env: Env, order: seq<Name>)
    requires Handles(w.store, n, env) && HashesMatch(w.store)
    ensures Table(StatusOf(w, n), DeploymentOf(w.store, n), ClaimsOf(w.store, n), n,
                  Admitted(w.store, n, w.now, env.app, order), w.now, env,
                  OutcomeOf(w.store, n, w.now, env, order))
  {
    PassMeetsTable(StatusOf(w, n), DeploymentOf(w.store, n), ClaimsOf(w.store, n), n,
                   Admitted(w.store, n, w.now, env.app, order), w.now, env);
  }
}
