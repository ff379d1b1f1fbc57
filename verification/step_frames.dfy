/** Which objects a step touches, whether it succeeds or not, when nobody else writes. */
module StepFrames {
  import opened Options
  import opened Phares
  import opened Cluster
  import opened ReconcileSpec
  import opened CalmCluster
  import W = Workloads
  import S = ServiceSpecs

  /** No call fails, nobody else writes, and what the server stores is of the right kind.
      Apart from that it may change whatever it likes. */
  ghost predicate Undisturbed(env: Env) {
    && (forall n :: env.outcome(n).Works?)
    && (forall n, s :: env.others(n, s) == s)
    && (forall k, o :: OfKind(k, o) ==> OfKind(k, env.admit(k, o)) && env.admit(k, o).owner == o.owner)
  }

  predicate About(e: Event, kinds: set<Kind>) {
    !e.Recorded? && e.kind in kinds
  }

  /** Only objects of the given kinds have changed, and all events are about them. */
  predicate Touches(w: World, t: World, kinds: set<Kind>) {
    && SameBut(w.store, t.store, kinds) && (Typed(w.store) ==> Typed(t.store))
    && |w.log| <= |t.log| && t.log[..|w.log|] == w.log
    && forall i :: |w.log| <= i < |t.log| ==> About(t.log[i], kinds)
  }

  lemma TouchesTransitively(w: World, t: World, u: World, kinds: set<Kind>, kinds': set<Kind>)
    requires Touches(w, t, kinds) && Touches(t, u, kinds')
    ensures Touches(w, u, kinds + kinds')
  {
    assert u.log[..|w.log|] == u.log[..|t.log|][..|w.log|];
    forall i | |w.log| <= i < |u.log| ensures About(u.log[i], kinds + kinds') {
      if i < |t.log| {
        assert u.log[i] == u.log[..|t.log|][i] == t.log[i];
      }
    }
  }

  lemma TouchesFrom(w: World, t: World, u: World, kinds: set<Kind>)
    requires t.store == w.store && t.log == w.log && (u == t || Touches(t, u, kinds))
    ensures Touches(w, u, kinds)
  {}

  lemma TouchesMore(w: World, t: World, kinds: set<Kind>, kinds': set<Kind>)
    requires Touches(w, t, kinds) && kinds <= kinds'
    ensures Touches(w, t, kinds')
  {}

  lemma OneEventTouches(w: World, t: World, k: Kind, e: Event)
    requires SameBut(w.store, t.store, {k}) && (Typed(w.store) ==> Typed(t.store))
    requires t.log == w.log || (t.log == w.log + [e] && About(e, {k}))
    ensures Touches(w, t, {k})
  {}

  lemma GetTouches(env: Env, w: World, k: Kind)
    requires Undisturbed(env)
    ensures var (t, got) := DoGet(env, w, k);
      && t.store == w.store && t.log == w.log && !got.Unavailable?
      && (got.Found? <==> Present(w.store, k)) && (got.Found? ==> got.value == w.store.objects[k])
  {}

  /** The step has succeeded and put `o` under `k`, by one write. */
  predicate Puts(w: World, r: Step, k: Kind, o: Object) {
    r.1 && r.0.log == w.log + [Wrote(k)] && r.0.store == w.store.(objects := w.store.objects[k := o])
  }

  lemma CreateTouches(env: Env, w: World, k: Kind, o: Object)
    requires Undisturbed(env) && OfKind(k, o)
    ensures Touches(w, DoCreate(env, w, k, o).0, {k})
    ensures k !in w.store.objects ==> Puts(w, MustWork(DoCreate(env, w, k, o)), k, env.admit(k, o))
  {
    OneEventTouches(w, DoCreate(env, w, k, o).0, k, Wrote(k));
  }

  lemma ReplaceTouches(env: Env, w: World, k: Kind, o: Object)
    requires Undisturbed(env) && OfKind(k, o)
    ensures Touches(w, DoReplace(env, w, k, o).0, {k})
    ensures Present(w.store, k) ==>
      Puts(w, MustWork(DoReplace(env, w, k, o)), k, env.admit(k, o.(owner := w.store.objects[k].owner)))
  {
    OneEventTouches(w, DoReplace(env, w, k, o).0, k, Wrote(k));
  }

  lemma DeleteTouches(env: Env, w: World, k: Kind)
    requires Undisturbed(env)
    ensures Touches(w, DoDelete(env, w, k).0, {k}) && !DoDelete(env, w, k).1.Rejected?
    ensures Present(w.store, k) ==> DoDelete(env, w, k).1.Done?
  {
    OneEventTouches(w, DoDelete(env, w, k).0, k,
      Removed(k, if Present(w.store, k) then w.store.objects[k].owner else None));
  }

  // ---------- the steps ----------

  lemma ConfigMapTouches(env: Env, w: World, p: Phare)
    requires Undisturbed(env)
    ensures Touches(w, StepConfigMap(env, w, p).0, {ConfigMapKind})
    ensures Typed(w.store) ==> StepConfigMap(env, w, p).1
  {
    var t := DoGet(env, w, ConfigMapKind).0;
    GetTouches(env, w, ConfigMapKind);
    DeleteTouches(env, t, ConfigMapKind);
    if Config(p).Some? {
      var data := Rendered(Config(p).value, env.render, p);
      CreateTouches(env, t, ConfigMapKind, ConfigMap(data, Some(p.uid)));
      if Present(w.store, ConfigMapKind) {
        ReplaceTouches(env, t, ConfigMapKind, w.store.objects[ConfigMapKind].(data := data));
      }
    }
  }

  lemma ServiceTouches(env: Env, w: World, p: Phare)
    requires Undisturbed(env)
    ensures Touches(w, StepService(env, w, p).0, {ServiceKind})
    ensures Typed(w.store) ==> StepService(env, w, p).1
  {
    var t := DoGet(env, w, ServiceKind).0;
    GetTouches(env, w, ServiceKind);
    if p.service.None? {
      DeleteTouches(env, t, ServiceKind);
      TouchesFrom(w, t, StepService(env, w, p).0, {ServiceKind});
    } else {
      var desired := DesiredServiceSpec(p, p.service.value);
      CreateTouches(env, t, ServiceKind, Service(desired, ServiceLabels(p), ServiceAnnotations(p), Some(p.uid)));
      if Present(w.store, ServiceKind) {
        ReplaceTouches(env, t, ServiceKind, UpdatedService(p, w.store.objects[ServiceKind], desired));
      }
      TouchesFrom(w, t, StepService(env, w, p).0, {ServiceKind});
    }
  }

  lemma DeleteOwnedTouches(env: Env, w: World, k: Kind, uid: string)
    requires Undisturbed(env)
    ensures Touches(w, StepDeleteOwned(env, w, k, uid).0, {k})
    ensures StepDeleteOwned(env, w, k, uid).1
  {
    GetTouches(env, w, k);
    DeleteTouches(env, DoGet(env, w, k).0, k);
  }

  lemma RouteTouches(env: Env, w: World, p: Phare, k: RouteKind)
    requires Undisturbed(env)
    ensures Touches(w, StepRoute(env, w, p, k).0, {RouteOf(k)})
    ensures Typed(w.store) ==> StepRoute(env, w, p, k).1
  {
    if RouteSpec(p, k).None? {
      DeleteOwnedTouches(env, w, RouteOf(k), p.uid);
    } else {
      var t, spec := DoGet(env, w, RouteOf(k)).0, RouteSpec(p, k).value;
      GetTouches(env, w, RouteOf(k));
      CreateTouches(env, t, RouteOf(k), Route(spec, MetadataLabels(p), Some(p.uid)));
      if Present(w.store, RouteOf(k)) {
        var o := w.store.objects[RouteOf(k)];
        ReplaceTouches(env, t, RouteOf(k), o.(route := spec, labels := ReadBackLabels(p, k)));
      }
      TouchesFrom(w, t, StepRoute(env, w, p, k).0, {RouteOf(k)});
    }
  }

  lemma RoutesTouch(env: Env, w: World, p: Phare)
    requires Undisturbed(env)
    ensures Touches(w, StepRoutes(env, w, p).0, ROUTES)
  {
    var (w1, ok1) := StepRoute(env, w, p, HTTPRoute);
    RouteTouches(env, w, p, HTTPRoute);
    TouchesMore(w, w1, {RouteOf(HTTPRoute)}, ROUTES);
    var (w2, ok2) := StepRoute(env, w1, p, GCPBackendPolicy);
    RouteTouches(env, w1, p, GCPBackendPolicy);
    TouchesMore(w1, w2, {RouteOf(GCPBackendPolicy)}, ROUTES);
    TouchesTransitively(w, w1, w2, ROUTES, ROUTES);
    var (w3, ok3) := StepRoute(env, w2, p, HealthCheckPolicy);
    RouteTouches(env, w2, p, HealthCheckPolicy);
    TouchesMore(w2, w3, {RouteOf(HealthCheckPolicy)}, ROUTES);
    TouchesTransitively(w, w2, w3, ROUTES, ROUTES);
    assert ROUTES + ROUTES == ROUTES;
  }

  lemma ApplyTouches(env: Env, w: World, k: WorkloadKind, desired: W.WorkloadSpec, uid: string)
    requires Undisturbed(env)
    ensures Touches(w, StepApply(env, w, k, desired, uid).0, {WorkloadOf(k)})
  {
    var t := DoGet(env, w, WorkloadOf(k)).0;
    GetTouches(env, w, WorkloadOf(k));
    CreateTouches(env, t, WorkloadOf(k), Workload(desired, Some(uid)));
    if Present(w.store, WorkloadOf(k)) {
      var o := w.store.objects[WorkloadOf(k)];
      ReplaceTouches(env, t, WorkloadOf(k), o.(workload := W.Merged(desired, o.workload)));
    }
  }

  lemma DesiredTouches(env: Env, w: World, p: Phare, k: WorkloadKind)
    requires Undisturbed(env)
    ensures Touches(w, StepDesired(env, w, p, k).0, {})
  {}

  lemma MicroServiceTouches(env: Env, w: World, p: Phare)
    requires Undisturbed(env)
    ensures Touches(w, StepMicroService(env, w, p).0, WORKLOADS)
  {
    if WantedKind(p).Some? {
      var k := WantedKind(p).value;
      var (t, ok) := StepDeleteOwned(env, w, WorkloadOf(OtherKind(k)), p.uid);
      DeleteOwnedTouches(env, w, WorkloadOf(OtherKind(k)), p.uid);
      TouchesMore(w, t, {WorkloadOf(OtherKind(k))}, WORKLOADS);
      var (u, desired) := StepDesired(env, t, p, k);
      DesiredTouches(env, t, p, k);
      TouchesMore(t, u, {}, WORKLOADS);
      TouchesTransitively(w, t, u, WORKLOADS, WORKLOADS);
      assert WORKLOADS + WORKLOADS == WORKLOADS;
      if desired.Some? {
        var v := StepApply(env, u, k, desired.value, p.uid).0;
        ApplyTouches(env, u, k, desired.value, p.uid);
        TouchesMore(u, v, {WorkloadOf(k)}, WORKLOADS);
        TouchesTransitively(w, u, v, WORKLOADS, WORKLOADS);
      }
    }
  }

  /** The workload step, if it is reached. */
  lemma AfterRoutesTouches(env: Env, w: World, p: Phare, v: World)
    requires Undisturbed(env)
    requires v == w || v == StepMicroService(env, w, p).0
    ensures Touches(w, v, WORKLOADS)
  {
    MicroServiceTouches(env, w, p);
  }

  // ---------- counting writes ----------

  function Count(log: seq<Event>, e: Event): nat {
    if log == [] then 0 else Count(log[..|log|-1], e) + if log[|log|-1] == e then 1 else 0
  }

  lemma {:induction false} CountOfPrefix(log: seq<Event>, n: nat, e: Event)
    requires n <= |log| && forall i :: n <= i < |log| ==> log[i] != e
    ensures Count(log, e) == Count(log[..n], e)
  {
    if n < |log| {
      var shorter := log[..|log|-1];
      assert shorter[..n] == log[..n];
      forall i | n <= i < |shorter| ensures shorter[i] != e {
        assert shorter[i] == log[i];
      }
      CountOfPrefix(shorter, n, e);
    } else {
      assert log[..n] == log;
    }
  }

  lemma TouchesKeepsCount(w: World, t: World, kinds: set<Kind>, k: Kind)
    requires Touches(w, t, kinds) && k !in kinds
    ensures Count(t.log, Wrote(k)) == Count(w.log, Wrote(k))
    ensures k in t.store.objects <==> k in w.store.objects
    ensures k in w.store.objects ==> t.store.objects[k] == w.store.objects[k]
  {
    forall i | |w.log| <= i < |t.log| ensures t.log[i] != Wrote(k) {
      assert About(t.log[i], kinds);
    }
    CountOfPrefix(t.log, |w.log|, Wrote(k));
  }

  lemma CountOfWrite(log: seq<Event>, e: Event)
    ensures Count(log + [e], e) == Count(log, e) + 1
  {
    assert (log + [e])[..|log|] == log;
  }

  lemma {:induction false} IterateCounts(f: World -> World, keeps: World -> bool, w: World, n: nat, e: Event)
    requires keeps(w)
    requires forall x: World {:trigger f(x)} ::
      keeps(x) ==> keeps(f(x)) && Count(f(x).log, e) == Count(x.log, e) + 1
    ensures keeps(Iterate(f, w, n)) && Count(Iterate(f, w, n).log, e) == Count(w.log, e) + n
  {
    if n > 0 {
      IterateCounts(f, keeps, w, n - 1, e);
    }
  }
}
