/** Whose the objects are: what a run creates belongs to the Phare it fetched, so that what
    the Phare no longer asks for is found and removed. */
module ReconcileOwnership {
  import opened Options
  import opened Phares
  import opened Cluster
  import opened ReconcileSpec
  import opened ReconcileSafety
  import opened CalmCluster
  import opened ReconcileConvergence
  import W = Workloads

  ghost predicate Alone(env: Env) {
    forall n, s :: env.others(n, s) == s
  }

  /** Every object of `t` is the Phare's own, or has the owner that it had in `s`. */
  predicate OwnOrKept(s: Store, t: Store, uid: string) {
    forall k :: k in t.objects ==>
      t.objects[k].owner == Some(uid) || (k in s.objects && t.objects[k].owner == s.objects[k].owner)
  }

  /** The same of a step, which leaves the Phare alone. */
  predicate StepOwned(s: Store, t: Store, uid: string) {
    OwnOrKept(s, t, uid) && s.phare == t.phare
  }

  lemma OwnTransitively(s: Store, t: Store, u: Store, uid: string)
    requires StepOwned(s, t, uid) && StepOwned(t, u, uid)
    ensures StepOwned(s, u, uid)
  {}

  /** A call that creates for the Phare, replaces or deletes; whatever becomes of it. */
  lemma CallsKeepOwners(env: Env, w: World, k: Kind, o: Object, uid: string)
    requires Alone(env) && KeepsOwner(env)
    ensures StepOwned(w.store, DoGet(env, w, k).0.store, uid)
    ensures o.owner == Some(uid) ==> StepOwned(w.store, DoCreate(env, w, k, o).0.store, uid)
    ensures StepOwned(w.store, DoReplace(env, w, k, o).0.store, uid)
    ensures StepOwned(w.store, DoDelete(env, w, k).0.store, uid)
  {}

  lemma ConfigMapOwned(env: Env, w: World, p: Phare)
    requires Alone(env) && KeepsOwner(env)
    ensures StepOwned(w.store, StepConfigMap(env, w, p).0.store, p.uid)
  {
    var (t, got) := DoGet(env, w, ConfigMapKind);
    var o := if got.Found? then got.value else ConfigMap(map[], None);
    var data := if Config(p).Some? then Rendered(Config(p).value, env.render, p) else map[];
    CallsKeepOwners(env, t, ConfigMapKind, o.(data := data), p.uid);
    CallsKeepOwners(env, t, ConfigMapKind, ConfigMap(data, Some(p.uid)), p.uid);
  }

  lemma ServiceOwned(env: Env, w: World, p: Phare)
    requires Alone(env) && KeepsOwner(env)
    ensures StepOwned(w.store, StepService(env, w, p).0.store, p.uid)
  {
    var (t, got) := DoGet(env, w, ServiceKind);
    CallsKeepOwners(env, t, ServiceKind, ConfigMap(map[], None), p.uid);
    if p.service.Some? {
      var desired := DesiredServiceSpec(p, p.service.value);
      CallsKeepOwners(env, t, ServiceKind,
        Service(desired, ServiceLabels(p), ServiceAnnotations(p), Some(p.uid)), p.uid);
      if got.Found? {
        CallsKeepOwners(env, t, ServiceKind, UpdatedService(p, got.value, desired), p.uid);
      }
    }
  }

  lemma DeleteOwnedOwned(env: Env, w: World, k: Kind, uid: string)
    requires Alone(env) && KeepsOwner(env)
    ensures StepOwned(w.store, StepDeleteOwned(env, w, k, uid).0.store, uid)
  {
    CallsKeepOwners(env, DoGet(env, w, k).0, k, ConfigMap(map[], None), uid);
  }

  lemma RouteOwned(env: Env, w: World, p: Phare, k: RouteKind)
    requires Alone(env) && KeepsOwner(env)
    ensures StepOwned(w.store, StepRoute(env, w, p, k).0.store, p.uid)
  {
    match RouteSpec(p, k)
    case None => DeleteOwnedOwned(env, w, RouteOf(k), p.uid);
    case Some(spec) =>
      var (t, got) := DoGet(env, w, RouteOf(k));
      CallsKeepOwners(env, t, RouteOf(k), Route(spec, MetadataLabels(p), Some(p.uid)), p.uid);
      if got.Found? {
        CallsKeepOwners(env, t, RouteOf(k), got.value.(route := spec, labels := ReadBackLabels(p, k)), p.uid);
      }
  }

  lemma RoutesOwned(env: Env, w: World, p: Phare)
    requires Alone(env) && KeepsOwner(env)
    ensures StepOwned(w.store, StepRoutes(env, w, p).0.store, p.uid)
  {
    var (w1, ok1) := StepRoute(env, w, p, HTTPRoute);
    RouteOwned(env, w, p, HTTPRoute);
    var (w2, ok2) := StepRoute(env, w1, p, GCPBackendPolicy);
    RouteOwned(env, w1, p, GCPBackendPolicy);
    OwnTransitively(w.store, w1.store, w2.store, p.uid);
    var (w3, ok3) := StepRoute(env, w2, p, HealthCheckPolicy);
    RouteOwned(env, w2, p, HealthCheckPolicy);
    OwnTransitively(w.store, w2.store, w3.store, p.uid);
  }

  lemma ApplyOwned(env: Env, w: World, k: WorkloadKind, desired: W.WorkloadSpec, uid: string)
    requires Alone(env) && KeepsOwner(env)
    ensures StepOwned(w.store, StepApply(env, w, k, desired, uid).0.store, uid)
  {
    var (t, got) := DoGet(env, w, WorkloadOf(k));
    CallsKeepOwners(env, t, WorkloadOf(k), Workload(desired, Some(uid)), uid);
    if got.Found? {
      CallsKeepOwners(env, t, WorkloadOf(k), got.value.(workload := W.Merged(desired, got.value.workload)), uid);
    }
  }

  lemma MicroServiceOwned(env: Env, w: World, p: Phare)
    requires Alone(env) && KeepsOwner(env)
    ensures StepOwned(w.store, StepMicroService(env, w, p).0.store, p.uid)
  {
    if WantedKind(p).Some? {
      var k := WantedKind(p).value;
      var (t, ok) := StepDeleteOwned(env, w, WorkloadOf(OtherKind(k)), p.uid);
      DeleteOwnedOwned(env, w, WorkloadOf(OtherKind(k)), p.uid);
      var (u, desired) := StepDesired(env, t, p, k);
      assert u.store == t.store;
      if desired.Some? {
        ApplyOwned(env, u, k, desired.value, p.uid);
        OwnTransitively(w.store, u.store, StepApply(env, u, k, desired.value, p.uid).0.store, p.uid);
      }
    }
  }

  lemma ResourcesOwned(env: Env, w: World, p: Phare)
    requires Alone(env) && KeepsOwner(env)
    ensures StepOwned(w.store, StepResources(env, w, p).0.store, p.uid)
  {
    var (w1, ok1) := StepConfigMap(env, w, p);
    ConfigMapOwned(env, w, p);
    var (w2, ok2) := StepService(env, w1, p);
    ServiceOwned(env, w1, p);
    OwnTransitively(w.store, w1.store, w2.store, p.uid);
    var (w3, ok3) := StepRoutes(env, w2, p);
    RoutesOwned(env, w2, p);
    OwnTransitively(w.store, w2.store, w3.store, p.uid);
    MicroServiceOwned(env, w3, p);
    OwnTransitively(w.store, w3.store, StepMicroService(env, w3, p).0.store, p.uid);
  }

  /** Whatever fails, when nobody else writes: an object that a run finds absent and leaves
      present is controlled by the Phare it fetched; every other one keeps its owner or becomes
      the Phare's. */
  lemma CreatedIsControlled(env: Env, w: World, p: Phare)
    requires Alone(env) && KeepsOwner(env) && w.store.phare == Some(p)
    ensures OwnOrKept(w.store, StepReconcile(env, w).0.store, p.uid)
    ensures var t := StepReconcile(env, w).0.store;
      forall k :: k !in w.store.objects && Present(t, k) ==> Controlled(t, k, p.uid)
    ensures var q := StepReconcile(env, w).0.store.phare; q.Some? && q.value.uid == p.uid
  {
    var (u, got) := DoFetch(env, w);
    var v := StepResources(env, u, p).0;
    ResourcesOwned(env, u, p);
    if got.Found? {
      var ok := StepResources(env, u, p).1;
      var status := if ok then ACTIVE else Status(Failed, env.errorText(v.clock));
      StatusOwned(env, v, p, status);
      assert StepReconcile(env, w).0 == StepStatus(env, v, p, status).0;
    }
  }

  lemma StatusOwned(env: Env, v: World, p: Phare, status: Status)
    requires Alone(env) && v.store.phare == Some(p)
    ensures var t := StepStatus(env, v, p, status).0.store;
      t.objects == v.store.objects && t.phare.Some? && t.phare.value.uid == p.uid
  {}

  // ---------- what is no longer asked for ----------

  /** If there is an object under `k`, it is this Phare's; and so is the Phare. */
  predicate OwnAt(s: Store, k: Kind, uid: string) {
    && (k in s.objects ==> s.objects[k].owner == Some(uid))
    && s.phare.Some? && s.phare.value.uid == uid
  }

  lemma StaysOwnAt(env: Env, w: World, k: Kind, uid: string)
    requires Alone(env) && KeepsOwner(env) && OwnAt(w.store, k, uid)
    ensures OwnAt(StepReconcile(env, w).0.store, k, uid)
  {
    CreatedIsControlled(env, w, w.store.phare.value);
  }

  ghost predicate KeepsOwnAt(x: World, y: World, k: Kind, uid: string) {
    OwnAt(x.store, k, uid) ==> OwnAt(y.store, k, uid)
  }

  lemma EveryNextOwnAt(env: Env, k: Kind, uid: string)
    requires Alone(env) && KeepsOwner(env)
    ensures forall x :: KeepsOwnAt(x, Next(env)(x), k, uid)
  {
    forall x ensures KeepsOwnAt(x, Next(env)(x), k, uid) {
      if OwnAt(x.store, k, uid) {
        StaysOwnAt(env, x, k, uid);
      }
    }
  }

  lemma RunsOwnAt(f: World -> World, w: World, n: nat, k: Kind, uid: string)
    requires OwnAt(w.store, k, uid) && forall x :: KeepsOwnAt(x, f(x), k, uid)
    ensures OwnAt(Iterate(f, w, n).store, k, uid)
  {
    var keeps := (x: World) => OwnAt(x.store, k, uid);
    forall x | keeps(x) ensures keeps(f(x)) {
      assert KeepsOwnAt(x, f(x), k, uid);
    }
    IterateKeeps(f, keeps, w, n);
  }

  /** Over any number of runs, failed ones included: an object that was absent is the Phare's
      whenever it is there. */
  lemma AbsentThenOwn(env: Env, w: World, n: nat, k: Kind, p: Phare)
    requires Alone(env) && KeepsOwner(env) && w.store.phare == Some(p) && k !in w.store.objects
    ensures OwnAt(Run(env, w, n).store, k, p.uid)
  {
    EveryNextOwnAt(env, k, p.uid);
    RunsOwnAt(Next(env), w, n, k, p.uid);
  }

  lemma CalmIsAlone(env: Env)
    requires Calm(env)
    ensures Alone(env)
  {}

  /** The user edits the Phare: another spec under the same identity. */
  function Edited(w: World, q: Phare): World {
    w.(store := w.store.(phare := Some(q)))
  }

  /** The Phare does not ask for an object of this kind, and cleans such ones up. */
  predicate NotWanted(p: Phare, k: Kind) {
    match k
    case RouteOf(r) => RouteSpec(p, r).None?
    case WorkloadOf(v) => WantedKind(p).Some? && v == OtherKind(WantedKind(p).value)
    case ConfigMapKind => Config(p).None?
    case ServiceKind => p.service.None?
  }

  /** An object that was absent at first, whatever n runs then made of it, is not in the store
      after the first calm run for a Phare that no longer wants it. */
  lemma DroppedObjectIsGone(env: Env, w: World, p: Phare, n: nat, q: Phare, k: Kind)
    requires Calm(env) && KeepsOwner(env) && w.store.phare == Some(p) && k !in w.store.objects
    requires q.uid == p.uid && NotWanted(q, k) && Starts(env, Edited(Run(env, w, n), q), q)
    ensures k !in StepReconcile(env, Edited(Run(env, w, n), q)).0.store.objects
  {
    CalmIsAlone(env);
    AbsentThenOwn(env, w, n, k, p);
    OwnIsRemoved(env, Edited(Run(env, w, n), q), q, k);
  }

  lemma OwnIsRemoved(env: Env, y: World, q: Phare, k: Kind)
    requires Calm(env) && KeepsOwner(env) && Alone(env) && Starts(env, y, q)
    requires NotWanted(q, k) && OwnAt(y.store, k, q.uid)
    ensures k !in StepReconcile(env, y).0.store.objects
  {
    StaysOwnAt(env, y, k, q.uid);
    OneReconcileConverges(env, y, q);
    UnwantedIsNotOwn(env, q, StepReconcile(env, y).0.store, k);
  }

  lemma UnwantedIsNotOwn(env: Env, q: Phare, t: Store, k: Kind)
    requires Ready(env, q) && InLine(env, q, t) && Typed(t) && NotWanted(q, k) && OwnAt(t, k, q.uid)
    ensures k !in t.objects
  {
    match k
    case RouteOf(r) => assert r == HTTPRoute || r == GCPBackendPolicy || r == HealthCheckPolicy;
    case _ =>
  }

  /** And what is asked for and was absent is there, and the Phare's. */
  lemma WantedIsCreated(env: Env, w: World, p: Phare)
    requires Calm(env) && KeepsOwner(env) && Starts(env, w, p)
    ensures var t := StepReconcile(env, w).0.store;
      && (Config(p).Some? && ConfigMapKind !in w.store.objects ==> Controlled(t, ConfigMapKind, p.uid))
      && (p.service.Some? && ServiceKind !in w.store.objects ==> Controlled(t, ServiceKind, p.uid))
      && (forall r :: RouteSpec(p, r).Some? && RouteOf(r) !in w.store.objects ==> Controlled(t, RouteOf(r), p.uid))
      && (var k := WorkloadOf(WantedKind(p).value); k !in w.store.objects ==> Controlled(t, k, p.uid))
  {
    CalmIsAlone(env);
    CreatedIsControlled(env, w, p);
    OneReconcileConverges(env, w, p);
    AllWantedPresent(env, p, StepReconcile(env, w).0.store);
  }

  lemma AllWantedPresent(env: Env, p: Phare, t: Store)
    requires Ready(env, p) && InLine(env, p, t)
    ensures Config(p).Some? ==> Present(t, ConfigMapKind)
    ensures p.service.Some? ==> Present(t, ServiceKind)
    ensures forall r :: RouteSpec(p, r).Some? ==> Present(t, RouteOf(r))
    ensures Present(t, WorkloadOf(WantedKind(p).value))
  {
    forall r | RouteSpec(p, r).Some? ensures Present(t, RouteOf(r)) {
      assert r == HTTPRoute || r == GCPBackendPolicy || r == HealthCheckPolicy;
    }
  }
}
