/** Servers that fill in what the controller compares: the Service or the route is then
    written by every run, for ever. */
module EndlessWrites {
  import opened Options
  import opened Phares
  import opened Cluster
  import opened ReconcileSpec
  import opened CalmCluster
  import opened ReconcileConvergence
  import opened StepFrames
  import S = ServiceSpecs

  // ---------- one write in a run ----------

  /** From `w` to `v` one write has put `o` under `k`, and nothing else has been done there. */
  predicate PutOnce(w: World, v: World, k: Kind, o: Object) {
    && k in v.store.objects && v.store.objects[k] == o && Typed(v.store)
    && v.store.phare == w.store.phare
    && Count(v.log, Wrote(k)) == Count(w.log, Wrote(k)) + 1
  }

  lemma TouchThenPut(w: World, v: World, r: Step, k: Kind, o: Object, kinds: set<Kind>)
    requires Touches(w, v, kinds) && k !in kinds && Typed(w.store) && OfKind(k, o) && Puts(v, r, k, o)
    ensures PutOnce(w, r.0, k, o)
  {
    TouchesKeepsCount(w, v, kinds, k);
    CountOfWrite(v.log, Wrote(k));
  }

  lemma PutThenTouch(w: World, v: World, u: World, k: Kind, o: Object, kinds: set<Kind>)
    requires PutOnce(w, v, k, o) && Touches(v, u, kinds) && k !in kinds
    ensures PutOnce(w, u, k, o)
  {
    TouchesKeepsCount(v, u, kinds, k);
  }

  lemma FetchTouches(env: Env, w: World, p: Phare)
    requires Undisturbed(env) && w.store.phare == Some(p)
    ensures DoFetch(env, w).1 == Found(p) && DoFetch(env, w).0.store == w.store && DoFetch(env, w).0.log == w.log
  {}

  /** The status write changes no object, and nothing of the Phare but status and version. */
  lemma StatusAfterPut(env: Env, w: World, v: World, p: Phare, status: Status, k: Kind, o: Object)
    requires Undisturbed(env) && w.store.phare == Some(p) && PutOnce(w, v, k, o)
    ensures PutInRun(w, StepStatus(env, v, p, status).0, p, k, o)
  {
    var t := StepStatus(env, v, p, status).0;
    if t.log != v.log {
      assert t.log == v.log + [Recorded(status.phase)];
      assert t.log[..|v.log|] == v.log;
      CountOfPrefix(t.log, |v.log|, Wrote(k));
    }
  }

  /** What a whole run leaves. */
  predicate PutInRun(w: World, t: World, p: Phare, k: Kind, o: Object) {
    && k in t.store.objects && t.store.objects[k] == o && Typed(t.store)
    && t.store.phare.Some? && SameSpec(p, t.store.phare.value)
    && Count(t.log, Wrote(k)) == Count(w.log, Wrote(k)) + 1
  }

  lemma ReconcileAfterPut(env: Env, w: World, p: Phare, k: Kind, o: Object)
    requires Undisturbed(env) && w.store.phare == Some(p)
    requires PutOnce(w, StepResources(env, DoFetch(env, w).0, p).0, k, o)
    ensures PutInRun(w, StepReconcile(env, w).0, p, k, o)
  {
    var (v, ok) := StepResources(env, DoFetch(env, w).0, p);
    FetchTouches(env, w, p);
    StatusAfterPut(env, w, v, p, if ok then ACTIVE else Status(Failed, env.errorText(v.clock)), k, o);
  }

  /** Up to the routes, when nothing fails. */
  lemma ResourcesSplit(env: Env, w: World, p: Phare)
    requires StepConfigMap(env, w, p).1 && StepService(env, StepConfigMap(env, w, p).0, p).1
    ensures var w2 := StepService(env, StepConfigMap(env, w, p).0, p).0; var w3 := StepRoutes(env, w2, p).0;
      StepResources(env, w, p).0 == w3 || StepResources(env, w, p).0 == StepMicroService(env, w3, p).0
  {}

  // ---------- the Service ----------

  /** A Service that the drift check finds different. */
  predicate ServiceDrifted(p: Phare, s: Store) {
    p.service.Some? && Present(s, ServiceKind) &&
    ServiceDrifts(p, s.objects[ServiceKind], DesiredServiceSpec(p, p.service.value))
  }

  function Rewritten(env: Env, p: Phare, live: Object): Object
    requires p.service.Some? && live.Service?
  {
    env.admit(ServiceKind, UpdatedService(p, live, DesiredServiceSpec(p, p.service.value)))
  }

  lemma ServiceIsRewritten(env: Env, w: World, p: Phare)
    requires Undisturbed(env) && Typed(w.store) && w.store.phare == Some(p) && ServiceDrifted(p, w.store)
    ensures PutInRun(w, StepReconcile(env, w).0, p, ServiceKind, Rewritten(env, p, w.store.objects[ServiceKind]))
  {
    FetchTouches(env, w, p);
    ServiceInResources(env, DoFetch(env, w).0, p);
    ReconcileAfterPut(env, w, p, ServiceKind, Rewritten(env, p, w.store.objects[ServiceKind]));
  }

  lemma ServiceInResources(env: Env, u: World, p: Phare)
    requires Undisturbed(env) && Typed(u.store) && ServiceDrifted(p, u.store)
    ensures PutOnce(u, StepResources(env, u, p).0, ServiceKind, Rewritten(env, p, u.store.objects[ServiceKind]))
  {
    var r := ServiceAfterConfigMap(env, u, p);
    ResourcesSplit(env, u, p);
    var w3 := RestTouches(env, r.0, p, StepResources(env, u, p).0);
    PutSurvives(u, r.0, w3, StepResources(env, u, p).0, Rewritten(env, p, u.store.objects[ServiceKind]));
  }

  lemma RestTouches(env: Env, x: World, p: Phare, v: World) returns (w3: World)
    requires Undisturbed(env)
    requires v == StepRoutes(env, x, p).0 || v == StepMicroService(env, StepRoutes(env, x, p).0, p).0
    ensures Touches(x, w3, ROUTES) && Touches(w3, v, WORKLOADS)
  {
    w3 := StepRoutes(env, x, p).0;
    RoutesTouch(env, x, p);
    AfterRoutesTouches(env, w3, p, v);
  }

  lemma PutSurvives(u: World, x: World, w3: World, v: World, o: Object)
    requires PutOnce(u, x, ServiceKind, o) && Touches(x, w3, ROUTES) && Touches(w3, v, WORKLOADS)
    ensures PutOnce(u, v, ServiceKind, o)
  {
    PutThenTouch(u, x, w3, ServiceKind, o, ROUTES);
    PutThenTouch(u, w3, v, ServiceKind, o, WORKLOADS);
  }

  lemma ServiceAfterConfigMap(env: Env, u: World, p: Phare) returns (r: Step)
    requires Undisturbed(env) && Typed(u.store) && ServiceDrifted(p, u.store)
    ensures StepConfigMap(env, u, p).1 && r == StepService(env, StepConfigMap(env, u, p).0, p) && r.1
    ensures PutOnce(u, r.0, ServiceKind, Rewritten(env, p, u.store.objects[ServiceKind]))
  {
    var w1 := StepConfigMap(env, u, p).0;
    ConfigMapTouches(env, u, p);
    TouchesKeepsCount(u, w1, {ConfigMapKind}, ServiceKind);
    r := StepService(env, w1, p);
    ServicePut(env, w1, p);
    TouchThenPut(u, w1, r, ServiceKind, Rewritten(env, p, u.store.objects[ServiceKind]), {ConfigMapKind});
  }

  lemma ServicePut(env: Env, w: World, p: Phare)
    requires Undisturbed(env) && ServiceDrifted(p, w.store)
    ensures Puts(w, StepService(env, w, p), ServiceKind, Rewritten(env, p, w.store.objects[ServiceKind]))
  {
    var t, live := DoGet(env, w, ServiceKind).0, w.store.objects[ServiceKind];
    GetTouches(env, w, ServiceKind);
    ReplaceTouches(env, t, ServiceKind, UpdatedService(p, live, DesiredServiceSpec(p, p.service.value)));
  }

  /** Whatever Service the controller writes for this Phare, the server makes one of it that
      drifts. */
  ghost predicate KeepsDrifting(env: Env, p: Phare) {
    p.service.Some? && forall o: Object :: o.Service? ==>
      Rewritten(env, p, o).Service? && ServiceDrifts(p, Rewritten(env, p, o), DesiredServiceSpec(p, p.service.value))
  }

  ghost predicate ServiceLoops(p: Phare, w: World) {
    Typed(w.store) && w.store.phare.Some? && SameSpec(p, w.store.phare.value) && ServiceDrifted(p, w.store)
  }

  lemma ServiceLoopsOn(env: Env, p: Phare, w: World)
    requires Undisturbed(env) && KeepsDrifting(env, p) && ServiceLoops(p, w)
    ensures ServiceLoops(p, StepReconcile(env, w).0)
    ensures Count(StepReconcile(env, w).0.log, Wrote(ServiceKind)) == Count(w.log, Wrote(ServiceKind)) + 1
  {
    var q := w.store.phare.value;
    DriftAlike(env, p, q);
    ServiceIsRewritten(env, w, q);
  }

  lemma DriftAlike(env: Env, p: Phare, q: Phare)
    requires SameSpec(p, q)
    ensures forall s :: ServiceDrifted(q, s) <==> ServiceDrifted(p, s)
    ensures p.service.Some? ==> forall o: Object :: o.Service? ==> Rewritten(env, q, o) == Rewritten(env, p, o)
  {}

  /** Then every one of n runs writes the Service once more. */
  lemma ServiceWrittenForever(env: Env, w: World, p: Phare, n: nat)
    requires Undisturbed(env) && KeepsDrifting(env, p) && ServiceLoops(p, w)
    ensures ServiceLoops(p, Run(env, w, n))
    ensures Count(Run(env, w, n).log, Wrote(ServiceKind)) == Count(w.log, Wrote(ServiceKind)) + n
  {
    EveryNextWritesService(env, p);
    ServiceRuns(Next(env), w, p, n);
  }

  ghost predicate ServiceLoopStep(p: Phare, x: World, y: World) {
    ServiceLoops(p, x) ==>
      ServiceLoops(p, y) && Count(y.log, Wrote(ServiceKind)) == Count(x.log, Wrote(ServiceKind)) + 1
  }

  lemma EveryNextWritesService(env: Env, p: Phare)
    requires Undisturbed(env) && KeepsDrifting(env, p)
    ensures forall x :: ServiceLoopStep(p, x, Next(env)(x))
  {
    forall x ensures ServiceLoopStep(p, x, Next(env)(x)) {
      if ServiceLoops(p, x) {
        ServiceLoopsOn(env, p, x);
      }
    }
  }

  lemma ServiceRuns(f: World -> World, w: World, p: Phare, n: nat)
    requires ServiceLoops(p, w) && forall x :: ServiceLoopStep(p, x, f(x))
    ensures ServiceLoops(p, Iterate(f, w, n))
    ensures Count(Iterate(f, w, n).log, Wrote(ServiceKind)) == Count(w.log, Wrote(ServiceKind)) + n
  {
    var loops := (x: World) => ServiceLoops(p, x);
    forall x: World | loops(x)
      ensures loops(f(x)) && Count(f(x).log, Wrote(ServiceKind)) == Count(x.log, Wrote(ServiceKind)) + 1
    {
      assert ServiceLoopStep(p, x, f(x));
    }
    IterateCounts(f, loops, w, n, Wrote(ServiceKind));
  }

  /** The server assigns a node port where none is given. */
  ghost predicate AssignsPorts(env: Env) {
    forall o: Object, i: nat :: o.Service? && i < |o.service.ports| && o.service.ports[i].nodePort == 0 ==>
      var a := env.admit(ServiceKind, o);
      a.Service? && i < |a.service.ports| && a.service.ports[i].nodePort != 0
  }

  /** With reallocation asked for and a port left open, the drift never ends. */
  lemma ReallocationNeverSettles(env: Env, p: Phare, i: nat)
    requires Undisturbed(env) && AssignsPorts(env) && ShouldReallocateNodePorts(p)
    requires p.service.Some? && i < |p.service.value.ports| && p.service.value.ports[i].nodePort == 0
    ensures KeepsDrifting(env, p)
  {
    var desired := DesiredServiceSpec(p, p.service.value);
    forall o: Object | o.Service?
      ensures Rewritten(env, p, o).Service? && ServiceDrifts(p, Rewritten(env, p, o), desired)
    {
      var written := UpdatedService(p, o, desired);
      assert written.service.ports[i].nodePort == 0;
      var a := env.admit(ServiceKind, written);
      S.NoDriftIffConforms(a.service, desired, false);
      assert |a.service.ports| == |desired.ports| ==>
        !S.PortConforms(desired.ports[i], a.service.ports[i], a.service.ports, false);
    }
  }

  /** The server fills in a target port where none is given. */
  ghost predicate FillsTargets(env: Env) {
    forall o: Object, i: nat :: o.Service? && i < |o.service.ports| && o.service.ports[i].targetPort == "" ==>
      var a := env.admit(ServiceKind, o);
      a.Service? && i < |a.service.ports| && a.service.ports[i].targetPort != ""
  }

  /** With a target port omitted it never ends either, under either port policy. */
  lemma OmittedTargetPortNeverSettles(env: Env, p: Phare, i: nat)
    requires Undisturbed(env) && FillsTargets(env)
    requires p.service.Some? && i < |p.service.value.ports| && p.service.value.ports[i].targetPort == ""
    ensures KeepsDrifting(env, p)
  {
    var desired, preserve := DesiredServiceSpec(p, p.service.value), !ShouldReallocateNodePorts(p);
    forall o: Object | o.Service?
      ensures Rewritten(env, p, o).Service? && ServiceDrifts(p, Rewritten(env, p, o), desired)
    {
      var written := UpdatedService(p, o, desired);
      assert written.service.ports[i].targetPort == "";
      var a := env.admit(ServiceKind, written);
      S.NoDriftIffConforms(a.service, desired, preserve);
      if |a.service.ports| == |desired.ports| {
        S.FilledTargetPortDrifts(a.service, desired, preserve, i);
      }
    }
  }

  /** There are such servers. */
  function FillingServer(
    render: Renderer, sha: string -> string, errorText: nat -> string, versions: nat -> string): Env
  {
    PlainServer(render, sha, errorText, versions).(admit := (_, o) => WithPortsFilled(o))
  }

  function WithPortsFilled(o: Object): Object {
    if o.Service? then o.(service := o.service.(ports := seq(|o.service.ports|,
      i requires 0 <= i < |o.service.ports| => PortFilled(o.service.ports[i]))))
    else o
  }

  function PortFilled(port: S.ServicePort): S.ServicePort {
    port.(nodePort := if port.nodePort == 0 then 30000 else port.nodePort,
          targetPort := if port.targetPort == "" then S.Decimal(port.port) else port.targetPort)
  }

  lemma FillingServerFills(
    render: Renderer, sha: string -> string, errorText: nat -> string, versions: nat -> string)
    ensures var env := FillingServer(render, sha, errorText, versions);
      Undisturbed(env) && AssignsPorts(env) && FillsTargets(env)
  {}

  // ---------- the routes ----------

  predicate RouteDrifted(p: Phare, s: Store, k: RouteKind) {
    RouteSpec(p, k).Some? && Present(s, RouteOf(k)) && !RouteQuiet(p, s, k)
  }

  function RouteRewritten(env: Env, p: Phare, live: Object, k: RouteKind): Object
    requires RouteSpec(p, k).Some? && live.Route?
  {
    env.admit(RouteOf(k), live.(route := RouteSpec(p, k).value, labels := ReadBackLabels(p, k)))
  }

  lemma RoutePut(env: Env, w: World, p: Phare, k: RouteKind)
    requires Undisturbed(env) && RouteDrifted(p, w.store, k)
    ensures Puts(w, StepRoute(env, w, p, k), RouteOf(k), RouteRewritten(env, p, w.store.objects[RouteOf(k)], k))
  {
    var t, live := DoGet(env, w, RouteOf(k)).0, w.store.objects[RouteOf(k)];
    GetTouches(env, w, RouteOf(k));
    ReplaceTouches(env, t, RouteOf(k), live.(route := RouteSpec(p, k).value, labels := ReadBackLabels(p, k)));
  }

  /** The three route steps one after the other; each leaves the others' objects alone. */
  lemma RouteInRoutes(env: Env, w: World, p: Phare, k: RouteKind)
    requires Undisturbed(env) && Typed(w.store) && RouteDrifted(p, w.store, k)
    ensures PutOnce(w, StepRoutes(env, w, p).0, RouteOf(k), RouteRewritten(env, p, w.store.objects[RouteOf(k)], k))
  {
    var o := RouteRewritten(env, p, w.store.objects[RouteOf(k)], k);
    var r1 := StepRoute(env, w, p, HTTPRoute);
    RouteStepEffect(env, w, w, p, HTTPRoute, k, o);
    var r2 := StepRoute(env, r1.0, p, GCPBackendPolicy);
    RouteStepEffect(env, w, r1.0, p, GCPBackendPolicy, k, o);
    RouteStepEffect(env, w, r2.0, p, HealthCheckPolicy, k, o);
    assert k == HTTPRoute || k == GCPBackendPolicy || k == HealthCheckPolicy;
  }

  /** Untouched so far: as it was in `w`. */
  predicate Untouched(w: World, v: World, k: Kind) {
    && Typed(v.store) && v.store.phare == w.store.phare
    && k in w.store.objects && k in v.store.objects && v.store.objects[k] == w.store.objects[k]
    && Count(v.log, Wrote(k)) == Count(w.log, Wrote(k))
  }

  lemma RouteStepEffect(env: Env, w: World, v: World, p: Phare, step: RouteKind, k: RouteKind, o: Object)
    requires Undisturbed(env) && Typed(v.store) && RouteDrifted(p, w.store, k)
    requires o == RouteRewritten(env, p, w.store.objects[RouteOf(k)], k)
    ensures StepRoute(env, v, p, step).1 && Typed(StepRoute(env, v, p, step).0.store)
    ensures step == k && Untouched(w, v, RouteOf(k)) ==> PutOnce(w, StepRoute(env, v, p, step).0, RouteOf(k), o)
    ensures step != k && Untouched(w, v, RouteOf(k)) ==> Untouched(w, StepRoute(env, v, p, step).0, RouteOf(k))
    ensures step != k && PutOnce(w, v, RouteOf(k), o) ==> PutOnce(w, StepRoute(env, v, p, step).0, RouteOf(k), o)
  {
    var r := StepRoute(env, v, p, step);
    RouteTouches(env, v, p, step);
    if step == k {
      if Untouched(w, v, RouteOf(k)) {
        RoutePut(env, v, p, k);
        CountOfWrite(v.log, Wrote(RouteOf(k)));
      }
    } else {
      TouchesKeepsCount(v, r.0, {RouteOf(step)}, RouteOf(k));
    }
  }

  lemma RouteIsRewritten(env: Env, w: World, p: Phare, k: RouteKind)
    requires Undisturbed(env) && Typed(w.store) && w.store.phare == Some(p) && RouteDrifted(p, w.store, k)
    ensures PutInRun(w, StepReconcile(env, w).0, p, RouteOf(k), RouteRewritten(env, p, w.store.objects[RouteOf(k)], k))
  {
    var o := RouteRewritten(env, p, w.store.objects[RouteOf(k)], k);
    var u := DoFetch(env, w).0;
    FetchTouches(env, w, p);
    var w1 := StepConfigMap(env, u, p).0;
    ConfigMapTouches(env, u, p);
    TouchesKeepsCount(u, w1, {ConfigMapKind}, RouteOf(k));
    var w2 := StepService(env, w1, p).0;
    ServiceTouches(env, w1, p);
    TouchesKeepsCount(w1, w2, {ServiceKind}, RouteOf(k));
    RouteInRoutes(env, w2, p, k);
    ResourcesSplit(env, u, p);
    var w3, v := StepRoutes(env, w2, p).0, StepResources(env, u, p).0;
    AfterRoutesTouches(env, w3, p, v);
    PutThenTouch(w2, w3, v, RouteOf(k), o, WORKLOADS);
    ReconcileAfterPut(env, w, p, RouteOf(k), o);
  }

  /** The server never stores the spec of this route as it was sent: it fills something in. */
  ghost predicate FillsRoute(env: Env, p: Phare, k: RouteKind) {
    RouteSpec(p, k).Some? && forall o: Object :: o.Route? ==>
      RouteRewritten(env, p, o, k).Route? && RouteRewritten(env, p, o, k).route != RouteSpec(p, k).value
  }

  /** There are such servers too. */
  lemma RouteFillers(
    render: Renderer, sha: string -> string, errorText: nat -> string, versions: nat -> string, p: Phare, k: RouteKind)
    requires RouteSpec(p, k).Some?
    ensures var env := PlainServer(render, sha, errorText, versions).(admit := (_, o) => WithRules(o));
      Undisturbed(env) && FillsRoute(env, p, k)
  {}

  function WithRules(o: Object): Object {
    if o.Route? then o.(route := o.route + " with rules") else o
  }

  ghost predicate RouteLoops(p: Phare, w: World, k: RouteKind) {
    Typed(w.store) && w.store.phare.Some? && SameSpec(p, w.store.phare.value) && RouteDrifted(p, w.store, k)
  }

  lemma RouteLoopsOn(env: Env, p: Phare, w: World, k: RouteKind)
    requires Undisturbed(env) && FillsRoute(env, p, k) && RouteLoops(p, w, k)
    ensures RouteLoops(p, StepReconcile(env, w).0, k)
    ensures Count(StepReconcile(env, w).0.log, Wrote(RouteOf(k))) == Count(w.log, Wrote(RouteOf(k))) + 1
  {
    var q := w.store.phare.value;
    RouteIsRewritten(env, w, q, k);
    var o := w.store.objects[RouteOf(k)];
    assert RouteRewritten(env, q, o, k) == RouteRewritten(env, p, o, k);
  }

  /** A route whose spec the server fills in is written by every one of n runs. */
  lemma RouteWrittenForever(env: Env, w: World, p: Phare, k: RouteKind, n: nat)
    requires Undisturbed(env) && FillsRoute(env, p, k) && RouteLoops(p, w, k)
    ensures RouteLoops(p, Run(env, w, n), k)
    ensures Count(Run(env, w, n).log, Wrote(RouteOf(k))) == Count(w.log, Wrote(RouteOf(k))) + n
  {
    EveryNextWritesRoute(env, p, k);
    RouteRuns(Next(env), w, p, k, n);
  }

  ghost predicate RouteLoopStep(p: Phare, x: World, y: World, k: RouteKind) {
    RouteLoops(p, x, k) ==>
      RouteLoops(p, y, k) && Count(y.log, Wrote(RouteOf(k))) == Count(x.log, Wrote(RouteOf(k))) + 1
  }

  lemma EveryNextWritesRoute(env: Env, p: Phare, k: RouteKind)
    requires Undisturbed(env) && FillsRoute(env, p, k)
    ensures forall x :: RouteLoopStep(p, x, Next(env)(x), k)
  {
    forall x ensures RouteLoopStep(p, x, Next(env)(x), k) {
      if RouteLoops(p, x, k) {
        RouteLoopsOn(env, p, x, k);
      }
    }
  }

  lemma RouteRuns(f: World -> World, w: World, p: Phare, k: RouteKind, n: nat)
    requires RouteLoops(p, w, k) && forall x :: RouteLoopStep(p, x, f(x), k)
    ensures RouteLoops(p, Iterate(f, w, n), k)
    ensures Count(Iterate(f, w, n).log, Wrote(RouteOf(k))) == Count(w.log, Wrote(RouteOf(k))) + n
  {
    var loops := (x: World) => RouteLoops(p, x, k);
    forall x: World | loops(x)
      ensures loops(f(x)) && Count(f(x).log, Wrote(RouteOf(k))) == Count(x.log, Wrote(RouteOf(k))) + 1
    {
      assert RouteLoopStep(p, x, f(x), k);
    }
    IterateCounts(f, loops, w, n, Wrote(RouteOf(k)));
  }
}
