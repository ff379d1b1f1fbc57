/** When a reconcile fails: exactly when one of its calls does, or the Phare cannot be built. */
module ReconcileFailures {
  import opened Options
  import opened Phares
  import opened Cluster
  import opened ReconcileSpec
  import opened CalmCluster
  import opened ReconcileOwnership
  import W = Workloads

  /** The server stores an object as one of its kind; it may change everything else. */
  ghost predicate KeepsKind(env: Env) {
    forall k, o :: OfKind(k, o) ==> OfKind(k, env.admit(k, o))
  }

  ghost predicate AloneAndTyped(env: Env) {
    Alone(env) && KeepsKind(env)
  }

  /** Every call from number a to number b - 1 works. */
  predicate AllWork(env: Env, a: nat, b: nat) {
    forall n: nat :: a <= n < b ==> env.outcome(n).Works?
  }

  /** The step changes nothing but objects of the given kinds, and returns without an error
      exactly when all its calls work and `can` holds. */
  predicate Went(env: Env, w: World, r: Step, kinds: set<Kind>, can: bool) {
    && w.clock <= r.0.clock && SameBut(w.store, r.0.store, kinds) && Typed(r.0.store)
    && (r.1 <==> AllWork(env, w.clock, r.0.clock) && can)
  }

  /** One step, and the next one if that succeeds. */
  lemma WentOn(env: Env, w: World, q: Step, r: Step, kinds: set<Kind>, can: bool)
    requires Went(env, w, q, kinds, true)
    requires if q.1 then Went(env, q.0, r, kinds, can) else r == (q.0, false)
    ensures Went(env, w, r, kinds, can)
  {}

  lemma WentMore(env: Env, w: World, r: Step, kinds: set<Kind>, more: set<Kind>, can: bool)
    requires Went(env, w, r, kinds, can) && kinds <= more
    ensures Went(env, w, r, more, can)
  {}

  // ---------- calls ----------

  lemma GetWent(env: Env, w: World, k: Kind)
    requires Alone(env) && Typed(w.store)
    ensures var (t, got) := DoGet(env, w, k);
      && Went(env, w, (t, !got.Unavailable?), {}, true) && t.store == w.store
      && (got.Found? ==> Present(w.store, k) && got.value == w.store.objects[k])
      && (got.Missing? ==> k !in w.store.objects)
  {}

  lemma CreateWent(env: Env, w: World, k: Kind, o: Object)
    requires AloneAndTyped(env) && Typed(w.store) && OfKind(k, o) && k !in w.store.objects
    ensures Went(env, w, MustWork(DoCreate(env, w, k, o)), {k}, true)
    ensures DoCreate(env, w, k, o).1.Done? ==> Present(DoCreate(env, w, k, o).0.store, k)
  {}

  lemma ReplaceWent(env: Env, w: World, k: Kind, o: Object)
    requires AloneAndTyped(env) && Typed(w.store) && OfKind(k, o) && Present(w.store, k)
    ensures Went(env, w, MustWork(DoReplace(env, w, k, o)), {k}, true)
    ensures DoReplace(env, w, k, o).1.Done? ==> Present(DoReplace(env, w, k, o).0.store, k)
  {}

  lemma DeleteWent(env: Env, w: World, k: Kind)
    requires Alone(env) && Typed(w.store) && Present(w.store, k)
    ensures Went(env, w, MustWork(DoDelete(env, w, k)), {k}, true)
    ensures NotFoundTolerated(DoDelete(env, w, k)) == MustWork(DoDelete(env, w, k))
  {}

  // ---------- the steps ----------

  lemma ConfigMapWent(env: Env, w: World, p: Phare)
    requires AloneAndTyped(env) && Typed(w.store)
    ensures Went(env, w, StepConfigMap(env, w, p), {ConfigMapKind}, true)
    ensures var (t, ok) := StepConfigMap(env, w, p); ok && Config(p).Some? ==> Present(t.store, ConfigMapKind)
  {
    var (t, got) := DoGet(env, w, ConfigMapKind);
    var r := StepConfigMap(env, w, p);
    GetWent(env, w, ConfigMapKind);
    WentMore(env, w, (t, !got.Unavailable?), {}, {ConfigMapKind}, true);
    var data := if Config(p).Some? then Rendered(Config(p).value, env.render, p) else map[];
    if got.Found? {
      ReplaceWent(env, t, ConfigMapKind, got.value.(data := data));
      DeleteWent(env, t, ConfigMapKind);
    } else if got.Missing? {
      CreateWent(env, t, ConfigMapKind, ConfigMap(data, Some(p.uid)));
    }
    Rested(env, t, {ConfigMapKind});
    WentOn(env, w, (t, !got.Unavailable?), r, {ConfigMapKind}, true);
  }

  /** No call at all. */
  lemma Rested(env: Env, t: World, kinds: set<Kind>)
    requires Typed(t.store)
    ensures Went(env, t, (t, true), kinds, true)
  {}

  lemma ServiceWent(env: Env, w: World, p: Phare)
    requires AloneAndTyped(env) && Typed(w.store)
    ensures Went(env, w, StepService(env, w, p), {ServiceKind}, true)
  {
    var (t, got) := DoGet(env, w, ServiceKind);
    var r := StepService(env, w, p);
    GetWent(env, w, ServiceKind);
    WentMore(env, w, (t, !got.Unavailable?), {}, {ServiceKind}, true);
    Rested(env, t, {ServiceKind});
    if p.service.None? {
      if got.Found? {
        DeleteWent(env, t, ServiceKind);
      }
    } else {
      var desired := DesiredServiceSpec(p, p.service.value);
      if got.Found? {
        ReplaceWent(env, t, ServiceKind, UpdatedService(p, got.value, desired));
      } else if got.Missing? {
        CreateWent(env, t, ServiceKind, Service(desired, ServiceLabels(p), ServiceAnnotations(p), Some(p.uid)));
      }
    }
    WentOn(env, w, (t, !got.Unavailable?), r, {ServiceKind}, true);
  }

  lemma DeleteOwnedWent(env: Env, w: World, k: Kind, uid: string)
    requires AloneAndTyped(env) && Typed(w.store)
    ensures Went(env, w, StepDeleteOwned(env, w, k, uid), {k}, true)
  {
    var (t, got) := DoGet(env, w, k);
    GetWent(env, w, k);
    WentMore(env, w, (t, !got.Unavailable?), {}, {k}, true);
    Rested(env, t, {k});
    if got.Found? {
      DeleteWent(env, t, k);
    }
    WentOn(env, w, (t, !got.Unavailable?), StepDeleteOwned(env, w, k, uid), {k}, true);
  }

  lemma RouteWent(env: Env, w: World, p: Phare, k: RouteKind)
    requires AloneAndTyped(env) && Typed(w.store)
    ensures Went(env, w, StepRoute(env, w, p, k), {RouteOf(k)}, true)
  {
    match RouteSpec(p, k)
    case None => DeleteOwnedWent(env, w, RouteOf(k), p.uid);
    case Some(spec) =>
      var (t, got) := DoGet(env, w, RouteOf(k));
      GetWent(env, w, RouteOf(k));
      WentMore(env, w, (t, !got.Unavailable?), {}, {RouteOf(k)}, true);
      Rested(env, t, {RouteOf(k)});
      if got.Found? {
        ReplaceWent(env, t, RouteOf(k), got.value.(route := spec, labels := ReadBackLabels(p, k)));
      } else if got.Missing? {
        CreateWent(env, t, RouteOf(k), Route(spec, MetadataLabels(p), Some(p.uid)));
      }
      WentOn(env, w, (t, !got.Unavailable?), StepRoute(env, w, p, k), {RouteOf(k)}, true);
  }

  lemma RoutesWent(env: Env, w: World, p: Phare)
    requires AloneAndTyped(env) && Typed(w.store)
    ensures Went(env, w, StepRoutes(env, w, p), ROUTES, true)
  {
    var q1 := StepRoute(env, w, p, HTTPRoute);
    RouteWent(env, w, p, HTTPRoute);
    WentMore(env, w, q1, {RouteOf(HTTPRoute)}, ROUTES, true);
    var q2 := if q1.1 then StepRoute(env, q1.0, p, GCPBackendPolicy) else (q1.0, false);
    RouteWent(env, q1.0, p, GCPBackendPolicy);
    WentMore(env, q1.0, StepRoute(env, q1.0, p, GCPBackendPolicy), {RouteOf(GCPBackendPolicy)}, ROUTES, true);
    WentOn(env, w, q1, q2, ROUTES, true);
    var q3 := if q2.1 then StepRoute(env, q2.0, p, HealthCheckPolicy) else (q2.0, false);
    RouteWent(env, q2.0, p, HealthCheckPolicy);
    WentMore(env, q2.0, StepRoute(env, q2.0, p, HealthCheckPolicy), {RouteOf(HealthCheckPolicy)}, ROUTES, true);
    WentOn(env, w, q2, q3, ROUTES, true);
  }

  /** The kind is one of the two, and the path of the liveness probe, if any, renders. */
  predicate Buildable(env: Env, p: Phare) {
    var ms := p.microservice;
    && (ms.kind == "Deployment" || ms.kind == "StatefulSet")
    && (ms.livenessProbe.Some? ==> env.render(ms.livenessProbe.value.path, MetaOf(p)).Some?)
  }

  lemma ApplyWent(env: Env, w: World, k: WorkloadKind, desired: W.WorkloadSpec, uid: string)
    requires AloneAndTyped(env) && Typed(w.store)
    ensures Went(env, w, StepApply(env, w, k, desired, uid), {WorkloadOf(k)}, true)
  {
    var n := WorkloadOf(k);
    var (t, got) := DoGet(env, w, n);
    GetWent(env, w, n);
    WentMore(env, w, (t, !got.Unavailable?), {}, {n}, true);
    Rested(env, t, {n});
    if got.Found? {
      ReplaceWent(env, t, n, got.value.(workload := W.Merged(desired, got.value.workload)));
    } else if got.Missing? {
      CreateWent(env, t, n, Workload(desired, Some(uid)));
    }
    WentOn(env, w, (t, !got.Unavailable?), StepApply(env, w, k, desired, uid), {n}, true);
  }

  lemma WorkloadWent(env: Env, w: World, p: Phare, k: WorkloadKind)
    requires AloneAndTyped(env) && Typed(w.store) && WantedKind(p) == Some(k)
    requires HasConfig(p) ==> Present(w.store, ConfigMapKind)
    ensures Went(env, w, StepWorkload(env, w, p, k), {WorkloadOf(k)}, Buildable(env, p))
  {
    var (t, desired) := StepDesired(env, w, p, k);
    var r := StepWorkload(env, w, p, k);
    GetWent(env, w, ConfigMapKind);
    if Buildable(env, p) {
      assert Went(env, w, (t, desired.Some?), {WorkloadOf(k)}, true);
      if desired.Some? {
        ApplyWent(env, t, k, desired.value, p.uid);
      }
      WentOn(env, w, (t, desired.Some?), r, {WorkloadOf(k)}, true);
    } else {
      assert r == (w, false);
    }
  }

  lemma MicroServiceWent(env: Env, w: World, p: Phare)
    requires AloneAndTyped(env) && Typed(w.store)
    requires HasConfig(p) ==> Present(w.store, ConfigMapKind)
    ensures Went(env, w, StepMicroService(env, w, p), WORKLOADS, Buildable(env, p))
  {
    if WantedKind(p).Some? {
      var k := WantedKind(p).value;
      var q := StepDeleteOwned(env, w, WorkloadOf(OtherKind(k)), p.uid);
      DeleteOwnedWent(env, w, WorkloadOf(OtherKind(k)), p.uid);
      WentMore(env, w, q, {WorkloadOf(OtherKind(k))}, WORKLOADS, true);
      WorkloadWent(env, q.0, p, k);
      WentMore(env, q.0, StepWorkload(env, q.0, p, k), {WorkloadOf(k)}, WORKLOADS, Buildable(env, p));
      WentOn(env, w, q, StepMicroService(env, w, p), WORKLOADS, Buildable(env, p));
    }
  }

  const ALL := SUPPORT + WORKLOADS

  lemma ResourcesWent(env: Env, w: World, p: Phare)
    requires AloneAndTyped(env) && Typed(w.store)
    ensures Went(env, w, StepResources(env, w, p), ALL, Buildable(env, p))
  {
    var q1 := StepConfigMap(env, w, p);
    ConfigMapWent(env, w, p);
    WentMore(env, w, q1, {ConfigMapKind}, ALL, true);
    var s2, s3 := StepService(env, q1.0, p), StepRoutes(env, StepService(env, q1.0, p).0, p);
    ServiceWent(env, q1.0, p);
    WentMore(env, q1.0, s2, {ServiceKind}, ALL, true);
    RoutesWent(env, s2.0, p);
    WentMore(env, s2.0, s3, ROUTES, ALL, true);
    var q2 := if q1.1 then s2 else (q1.0, false);
    WentOn(env, w, q1, q2, ALL, true);
    var q3 := if q2.1 then s3 else (q2.0, false);
    WentOn(env, w, q2, q3, ALL, true);
    if q3.1 {
      assert HasConfig(p) ==> Present(s3.0.store, ConfigMapKind);
      MicroServiceWent(env, s3.0, p);
      WentMore(env, s3.0, StepMicroService(env, s3.0, p), WORKLOADS, ALL, Buildable(env, p));
    }
    FinishedOn(env, w, q3, StepResources(env, w, p), Buildable(env, p));
  }

  lemma FinishedOn(env: Env, w: World, q: Step, r: Step, can: bool)
    requires Went(env, w, q, ALL, true)
    requires if q.1 then Went(env, q.0, r, ALL, can) else r == (q.0, false)
    ensures Went(env, w, r, ALL, can)
  {
    WentOn(env, w, q, r, ALL, can);
  }

  /** When nobody else writes: a reconcile returns without an error exactly when every call it
      makes works and the Phare, if there is one, can be built.  So no failure of a call is
      swallowed, and none is made up. */
  lemma SucceedsIff(env: Env, w: World)
    requires AloneAndTyped(env) && Typed(w.store)
    ensures var (t, ok) := StepReconcile(env, w);
      && w.clock < t.clock
      && (ok <==>
           AllWork(env, w.clock, t.clock) && (w.store.phare.Some? ==> Buildable(env, w.store.phare.value)))
  {
    var (u, got) := DoFetch(env, w);
    if got.Found? {
      FoundShape(env, w, got.value);
      ResourcesWent(env, u, got.value);
      var q, r := StepResources(env, u, got.value), StepReconcile(env, w);
      Finishes(env, w, u, q, r, Buildable(env, got.value));
    }
  }

  lemma FoundShape(env: Env, w: World, p: Phare)
    requires AloneAndTyped(env) && Typed(w.store) && DoFetch(env, w).1 == Found(p)
    ensures var u := DoFetch(env, w).0; var (q, r) := (StepResources(env, u, p), StepReconcile(env, w));
      && u.clock == w.clock + 1 && env.outcome(w.clock).Works? && u.store == w.store && w.store.phare == Some(p)
      && q.0.clock <= r.0.clock
      && (r.1 <==> q.1 && AllWork(env, q.0.clock, r.0.clock))
  {
    var u := DoFetch(env, w).0;
    var q := StepResources(env, u, p);
    ResourcesWent(env, u, p);
    StatusWent(env, q.0, p, if q.1 then ACTIVE else Status(Failed, env.errorText(q.0.clock)));
  }

  lemma Finishes(env: Env, w: World, u: World, q: Step, r: Step, can: bool)
    requires u.clock == w.clock + 1 && env.outcome(w.clock).Works? && Went(env, u, q, ALL, can)
    requires q.0.clock <= r.0.clock && (r.1 <==> q.1 && AllWork(env, q.0.clock, r.0.clock))
    ensures w.clock < r.0.clock && (r.1 <==> AllWork(env, w.clock, r.0.clock) && can)
  {
    if r.1 {
      forall n: nat | w.clock <= n < r.0.clock ensures env.outcome(n).Works? {}
    }
    if AllWork(env, w.clock, r.0.clock) && can {
      assert AllWork(env, u.clock, q.0.clock) && AllWork(env, q.0.clock, r.0.clock);
    }
  }

  lemma StatusWent(env: Env, w: World, p: Phare, status: Status)
    requires Alone(env) && w.store.phare == Some(p)
    ensures var (t, ok) := StepStatus(env, w, p, status);
      w.clock <= t.clock && (ok <==> AllWork(env, w.clock, t.clock))
  {}
}
