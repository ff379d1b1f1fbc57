/** What keeps a calm cluster from being left alone at once: the labels of a policy, templates
    that mention the version of the Phare, nil lists in the pod, and what an update clears. */
module ReconcileLoops {
  import opened Options
  import opened Phares
  import opened Cluster
  import opened ReconcileSpec
  import opened CalmCluster
  import opened ReconcileConvergence
  import M = WorkloadMerge
  import W = Workloads
  import S = ServiceSpecs

  // ---------- the labels of a policy ----------

  /** For all environments: a route step writes exactly when the object is missing, or its
      spec differs from the wanted one, or its labels from what reading the wanted object
      back gives; for a policy that is: when it has any labels. */
  lemma RouteWrittenIff(env: Env, w: World, p: Phare, k: RouteKind)
    requires RouteSpec(p, k).Some?
    ensures var s := env.others(w.clock, w.store);
      StepRoute(env, w, p, k).0.log != w.log <==>
        env.outcome(w.clock).Works? &&
        (Present(s, RouteOf(k)) ==>
          s.objects[RouteOf(k)].route != RouteSpec(p, k).value ||
          s.objects[RouteOf(k)].labels != if k.HTTPRoute? then MetadataLabels(p) else map[])
  {}

  lemma LabelledIsWritten(env: Env, p: Phare, s: Store, k: RouteKind)
    requires Ready(env, p) && RouteOk(p, s, k) && StillLabelled(p, s, k)
    ensures Wrote(RouteOf(k)) in RunLog(env, p, s)
  {
    RouteInLineLog(p, s, k);
    assert k == HTTPRoute || k == GCPBackendPolicy || k == HealthCheckPolicy;
    assert Wrote(RouteOf(k)) in RoutesLog(p, s);
    assert Wrote(RouteOf(k)) in SupportLog(env, p, s);
  }

  /** A policy that does not exist yet is created with the controller's labels; the second
      run patches it and leaves it without any; no later run touches it. */
  lemma PolicyLosesItsLabels(env: Env, w: World, p: Phare, q: Phare, k: RouteKind, n: nat)
    requires Calm(env) && Starts(env, w, p) && !k.HTTPRoute? && RouteSpec(p, k).Some? && !Present(w.store, RouteOf(k))
    requires Run(env, w, 1).store.phare == Some(q) && Ready(env, q)
    ensures Labelled(Run(env, w, 1).store, k, MetadataLabels(p))
    ensures Run(env, w, 2).log == Run(env, w, 1).log + RunLog(env, q, Run(env, w, 1).store)
    ensures Wrote(RouteOf(k)) in RunLog(env, q, Run(env, w, 1).store)
    ensures Labelled(Run(env, w, 2 + n).store, k, map[])
    ensures LogsOnly(Run(env, w, 2).log, Run(env, w, 2 + n).log, n, Wrote(WorkloadOf(WantedKind(q).value)))
  {
    NextConverges(env);
    EveryNextIsQuiet(env, q, Wrote(WorkloadOf(WantedKind(q).value)));
    PolicySteps(env, Next(env), w, p, q, k, n);
  }

  predicate Labelled(s: Store, k: RouteKind, labels: map<string, string>) {
    Present(s, RouteOf(k)) && s.objects[RouteOf(k)].labels == labels
  }

  lemma PolicySteps(env: Env, f: World -> World, w: World, p: Phare, q: Phare, k: RouteKind, n: nat)
    requires Converging(env, f) && Starts(env, w, p) && Iterate(f, w, 1).store.phare == Some(q) && Ready(env, q)
    requires !k.HTTPRoute? && RouteSpec(p, k).Some? && !Present(w.store, RouteOf(k))
    requires forall x :: StaysQuiet(env, x, f(x), q, Wrote(WorkloadOf(WantedKind(q).value)))
    ensures Labelled(Iterate(f, w, 1).store, k, MetadataLabels(p))
    ensures Iterate(f, w, 2).log == Iterate(f, w, 1).log + RunLog(env, q, Iterate(f, w, 1).store)
    ensures Wrote(RouteOf(k)) in RunLog(env, q, Iterate(f, w, 1).store)
    ensures Labelled(Iterate(f, w, 2 + n).store, k, map[])
    ensures LogsOnly(Iterate(f, w, 2).log, Iterate(f, w, 2 + n).log, n, Wrote(WorkloadOf(WantedKind(q).value)))
  {
    IterateTwice(f, w);
    TwoStepsRest(env, f, w, p, q);
    PolicyAfterTwo(env, w, p, f(w), q, f(f(w)), k);
    PolicyStaysBare(env, f, f(f(w)), q, k, n);
    IterateAdds(f, w, 2, n);
  }

  lemma PolicyAfterTwo(env: Env, w: World, p: Phare, x: World, q: Phare, y: World, k: RouteKind)
    requires Starts(env, w, p) && Converged(env, w, p, x) && x.store.phare == Some(q)
    requires Starts(env, x, q) && Converged(env, x, q, y)
    requires !k.HTTPRoute? && RouteSpec(p, k).Some? && !Present(w.store, RouteOf(k))
    ensures Labelled(x.store, k, MetadataLabels(p))
    ensures y.log == x.log + RunLog(env, q, x.store) && Wrote(RouteOf(k)) in RunLog(env, q, x.store)
  {
    FirstRunLabels(p, w.store, x.store, k);
    SupportAlike(env, p, q, x.store);
    EachRouteOk(q, x.store, k);
    LabelledIsWritten(env, q, x.store, k);
  }

  lemma PolicyStaysBare(env: Env, f: World -> World, y: World, q: Phare, k: RouteKind, n: nat)
    requires AtRest(env, y.store, q) && !k.HTTPRoute? && RouteSpec(q, k).Some?
    requires forall x :: StaysQuiet(env, x, f(x), q, Wrote(WorkloadOf(WantedKind(q).value)))
    ensures Labelled(Iterate(f, y, n).store, k, map[])
    ensures LogsOnly(y.log, Iterate(f, y, n).log, n, Wrote(WorkloadOf(WantedKind(q).value)))
  {
    QuietRuns(env, f, y, q, n, Wrote(WorkloadOf(WantedKind(q).value)));
    RestingPolicy(env, Iterate(f, y, n).store, q, k);
  }

  lemma FirstRunLabels(p: Phare, s: Store, t: Store, k: RouteKind)
    requires RoutesAsSent(p, s, t) && RouteSpec(p, k).Some? && !Present(s, RouteOf(k))
    ensures Present(t, RouteOf(k)) && t.objects[RouteOf(k)].labels == MetadataLabels(p) != map[]
  {
    assert RouteAsSent(p, s, t, k);
    assert "app" in MetadataLabels(p);
  }

  lemma EachRouteOk(p: Phare, s: Store, k: RouteKind)
    requires RoutesOk(p, s)
    ensures RouteOk(p, s, k)
  {
    assert k == HTTPRoute || k == GCPBackendPolicy || k == HealthCheckPolicy;
  }

  lemma RestingPolicy(env: Env, s: Store, p: Phare, k: RouteKind)
    requires AtRest(env, s, p) && !k.HTTPRoute? && RouteSpec(p, k).Some?
    ensures Present(s, RouteOf(k)) && s.objects[RouteOf(k)].labels == map[]
  {
    EachRouteOk(p, s, k);
    assert RouteLog(p, s, k) == [];
  }

  // ---------- templates that mention the version ----------

  /** The run after one that wrote the status: it rewrites the ConfigMap exactly when the
      configuration renders differently under the new version. */
  lemma SecondRunRewritesConfig(env: Env, w: World, p: Phare, q: Phare)
    requires Calm(env) && Starts(env, w, p) && Run(env, w, 1).store.phare == Some(q) && Ready(env, q)
    ensures Run(env, w, 2).log == Run(env, w, 1).log + RunLog(env, q, Run(env, w, 1).store)
    ensures Wrote(ConfigMapKind) in RunLog(env, q, Run(env, w, 1).store) <==>
      Config(p).Some? && Rendered(Config(p).value, env.render, q) != Rendered(Config(p).value, env.render, p)
  {
    NextConverges(env);
    SecondStepRewrites(env, Next(env), w, p, q);
  }

  lemma SecondStepRewrites(env: Env, f: World -> World, w: World, p: Phare, q: Phare)
    requires Converging(env, f) && Starts(env, w, p) && Iterate(f, w, 1).store.phare == Some(q) && Ready(env, q)
    ensures Iterate(f, w, 2).log == Iterate(f, w, 1).log + RunLog(env, q, Iterate(f, w, 1).store)
    ensures Wrote(ConfigMapKind) in RunLog(env, q, Iterate(f, w, 1).store) <==>
      Config(p).Some? && Rendered(Config(p).value, env.render, q) != Rendered(Config(p).value, env.render, p)
    ensures Config(p).Some? && Rendered(Config(p).value, env.render, q) != Rendered(Config(p).value, env.render, p) ==>
      !Settled(env, Iterate(f, w, 1).store, q)
  {
    IterateTwice(f, w);
    TwoStepsRest(env, f, w, p, q);
    ConfigMapWritten(env, q, f(w).store);
    if Config(p).Some? {
      ConfigMapAlike(env, p, q, f(w).store);
    }
    SettledAfterIff(env, w, p, f(w));
  }

  lemma ConfigMapAlike(env: Env, p: Phare, q: Phare, s: Store)
    requires SameSpec(p, q) && ConfigMapOk(env, p, s) && Config(p).Some?
    ensures ConfigMapOk(env, q, s) <==>
      Rendered(Config(p).value, env.render, q) == Rendered(Config(p).value, env.render, p)
  {}

  /** No other step writes the ConfigMap. */
  lemma ConfigMapWritten(env: Env, p: Phare, s: Store)
    requires Ready(env, p)
    ensures Wrote(ConfigMapKind) in RunLog(env, p, s) <==> Config(p).Some? && !ConfigMapOk(env, p, s)
  {
    assert Wrote(ConfigMapKind) !in WorkloadLog(env, p, s) && Wrote(ConfigMapKind) !in ServiceLog(p, s);
    forall k ensures Wrote(ConfigMapKind) !in RouteLog(p, s, k) {}
    assert Wrote(ConfigMapKind) !in RoutesLog(p, s);
  }

  /** A configuration that every new version changes is written by the first run and again by
      the second, so the store is not settled in between. */
  lemma VersionedConfigIsRewritten(env: Env, w: World, p: Phare)
    requires Calm(env) && Starts(env, w, p) && p.status != ACTIVE && VersionMatters(env, p)
    ensures RewrittenNext(env, Run(env, w, 1), Run(env, w, 2))
  {
    NextConverges(env);
    VersionIsNew(env, w, p);
    IterateTwice(Next(env), w);
    VersionedSteps(env, Next(env), w, p);
  }

  /** Not settled in `x`, and the next run writes the ConfigMap. */
  ghost predicate RewrittenNext(env: Env, x: World, y: World) {
    x.store.phare.Some? &&
    var q := x.store.phare.value;
    && Ready(env, q) && !Settled(env, x.store, q)
    && y.log == x.log + RunLog(env, q, x.store) && Wrote(ConfigMapKind) in RunLog(env, q, x.store)
  }

  lemma VersionedSteps(env: Env, f: World -> World, w: World, p: Phare)
    requires Converging(env, f) && Starts(env, w, p) && VersionMatters(env, p)
    requires f(w).store.phare.Some? && exists c :: f(w).store.phare.value.version == env.versions(c)
    ensures RewrittenNext(env, Iterate(f, w, 1), Iterate(f, w, 2))
  {
    assert Converged(env, w, p, f(w));
    IterateTwice(f, w);
    SecondStepRewrites(env, f, w, p, f(w).store.phare.value);
  }

  /** The Phare can be satisfied under every version, but its configuration quotes the one it
      is rendered under. */
  ghost predicate VersionMatters(env: Env, p: Phare) {
    && (forall q :: SameSpec(p, q) ==> Ready(env, q)) && Ready(env, p) && Config(p).Some?
    && forall q, c :: SameSpec(p, q) && q.version == env.versions(c) ==>
        Rendered(Config(p).value, env.render, q) != Rendered(Config(p).value, env.render, p)
  }

  const VERSION_TEMPLATE := "{{ .ResourceVersion }}"

  /** Renders that template as the version and everything else as it is. */
  function VersionRenderer(text: string, meta: Meta): Option<string> {
    Some(if text == VERSION_TEMPLATE then meta.version else text)
  }

  function VersionedPhare(): Phare {
    SmallPhare().(toolChain := Some(ToolChain(Some(map["a" := VERSION_TEMPLATE]), map[])))
  }

  /** An input like that: the configuration {a: "{{ .ResourceVersion }}"}. */
  lemma VersionedConfigHappens(sha: string -> string, errorText: nat -> string)
    ensures exists env: Env, p: Phare :: Calm(env) && p.status != ACTIVE && VersionMatters(env, p)
  {
    var env, p := PlainServer(VersionRenderer, sha, errorText, _ => "2"), VersionedPhare();
    forall q | SameSpec(p, q) ensures Ready(env, q) {
      VersionedIsReady(env, q);
    }
    assert SameSpec(p, p);
    forall q, c | SameSpec(p, q) && q.version == env.versions(c)
      ensures Rendered(Config(p).value, env.render, q) != Rendered(Config(p).value, env.render, p)
    {
      assert Rendered(Config(p).value, env.render, q)["a"] == "2";
      assert Rendered(Config(p).value, env.render, p)["a"] == "1";
    }
    assert VersionMatters(env, p);
  }

  lemma VersionedIsReady(env: Env, p: Phare)
    requires SameSpec(VersionedPhare(), p)
    ensures Ready(env, p)
  {
    var spec := NewWorkloadSpec(p, false, env.render);
    assert spec.Some? && |Elements(spec.value.template.spec.volumes)| == 1;
  }

  /** A run that writes the status gives the Phare a version of the server's making. */
  lemma VersionIsNew(env: Env, w: World, p: Phare)
    requires Calm(env) && Starts(env, w, p) && p.status != ACTIVE
    ensures var q := StepReconcile(env, w).0.store.phare; q.Some? && exists c :: q.value.version == env.versions(c)
  {
    ResourcesConverge(env, DoFetch(env, w).0, p);
    ReconcileShape(env, w, p);
    var c := StepResources(env, DoFetch(env, w).0, p).0.clock;
    assert StepReconcile(env, w).0.store.phare.value.version == env.versions(c);
  }

  // ---------- the patch that never ends ----------

  /** At rest, and stored without init containers. */
  ghost predicate RestsNil(env: Env, s: Store, p: Phare) {
    AtRest(env, s, p) && LivePod(s, p).initContainers.None?
  }

  /** A pod stored without init containers is patched by the next run. */
  lemma NilListIsPatchedEveryRun(env: Env, w: World, p: Phare)
    requires Calm(env) && RestsNil(env, w.store, p)
    ensures StepReconcile(env, w).0.log == w.log + [Wrote(WorkloadOf(WantedKind(p).value))]
  {
    SettledStaysQuiet(env, w, p);
  }

  /** The server stores an empty list of init containers as a nil one, as a server that keeps
      objects without their empty lists does. */
  ghost predicate DropsEmpty(env: Env) {
    forall k: Kind, o: Object :: o.Workload? && o.workload.template.spec.initContainers == Some([]) ==>
      env.admit(k, o).Workload? && env.admit(k, o).workload.template.spec.initContainers.None?
  }

  lemma NoNames(cs: seq<M.Container>)
    ensures M.ContainerNames(cs) == {} <==> cs == []
  {
    assert cs != [] ==> cs[0].name in M.ContainerNames(cs);
  }

  /** With nothing wanted and nothing there, the merge writes an empty list. */
  lemma NilBecomesEmpty(desired: W.WorkloadSpec, live: W.WorkloadSpec)
    requires W.Conforms(desired, live) && live.template.spec.initContainers.None?
    ensures W.Merged(desired, live).template.spec.initContainers == Some([])
  {
    NoNames(Elements(desired.template.spec.initContainers));
    NoNames([]);
  }

  lemma PatchIsDropped(env: Env, k: Kind, o: Object, desired: W.WorkloadSpec)
    requires DropsEmpty(env) && o.Workload? && W.Conforms(desired, o.workload)
    requires o.workload.template.spec.initContainers.None?
    ensures !W.NilsAgree(desired, o.workload)
    ensures var a := env.admit(k, o.(workload := W.Merged(desired, o.workload)));
      a.Workload? && a.workload.template.spec.initContainers.None?
  {
    NilBecomesEmpty(desired, o.workload);
  }

  /** The workload object that a run leaves. */
  lemma ReconcileStores(env: Env, w: World, p: Phare)
    requires Calm(env) && Settled(env, w.store, p)
    ensures var k := WantedKind(p).value; var t := StepReconcile(env, w).0;
      WorkloadOf(k) in t.store.objects &&
      t.store.objects[WorkloadOf(k)] == Applied(env, k, Desired(env, p), p.uid, w.store)
  {
    var u := DoFetch(env, w).0;
    assert u.store == w.store;
    ResourcesStore(env, u, p);
    ResourcesConverge(env, u, p);
    ReconcileShape(env, w, p);
  }

  lemma ResourcesStore(env: Env, u: World, p: Phare)
    requires Calm(env) && Typed(u.store) && Ready(env, p) && WorkloadOk(env, p, u.store)
    ensures var k := WantedKind(p).value; var t := StepResources(env, u, p).0;
      WorkloadOf(k) in t.store.objects &&
      t.store.objects[WorkloadOf(k)] == Applied(env, k, Desired(env, p), p.uid, u.store)
  {
    var x := ReachesApply(env, u, p);
    ApplyStores(env, x, WantedKind(p).value, Desired(env, p), p.uid);
    AppliedAlike(env, WantedKind(p).value, Desired(env, p), p.uid, u.store, x.store);
  }

  lemma ReachesApply(env: Env, u: World, p: Phare) returns (x: World)
    requires Calm(env) && Typed(u.store) && Ready(env, p) && WorkloadOk(env, p, u.store)
    ensures StepResources(env, u, p) == StepApply(env, x, WantedKind(p).value, Desired(env, p), p.uid)
    ensures Typed(x.store)
    ensures var k := WorkloadOf(WantedKind(p).value);
      k in x.store.objects && x.store.objects[k] == u.store.objects[k]
  {
    var r := SupportConverges(env, u, p);
    x := MicroServiceIsApplied(env, r.0, p);
    WantedUntouched(u.store, r.0.store, x.store, WantedKind(p).value);
  }

  lemma WantedUntouched(s: Store, t: Store, r: Store, k: WorkloadKind)
    requires SameBut(s, t, SUPPORT) && SameBut(t, r, {WorkloadOf(OtherKind(k))}) && WorkloadOf(k) in s.objects
    ensures WorkloadOf(k) in r.objects && r.objects[WorkloadOf(k)] == s.objects[WorkloadOf(k)]
  {
    assert WorkloadOf(k) !in {WorkloadOf(OtherKind(k))} && WorkloadOf(k) !in SUPPORT;
  }

  lemma AppliedAlike(env: Env, k: WorkloadKind, desired: W.WorkloadSpec, uid: string, s: Store, t: Store)
    requires Typed(s) && Typed(t) && WorkloadOf(k) in s.objects && WorkloadOf(k) in t.objects
    requires s.objects[WorkloadOf(k)] == t.objects[WorkloadOf(k)]
    ensures Applied(env, k, desired, uid, s) == Applied(env, k, desired, uid, t)
  {}

  lemma StaysNil(env: Env, w: World, p: Phare)
    requires Calm(env) && DropsEmpty(env) && RestsNil(env, w.store, p)
    ensures RestsNil(env, StepReconcile(env, w).0.store, p)
    ensures StepReconcile(env, w).0.log == w.log + [Wrote(WorkloadOf(WantedKind(p).value))]
  {
    SettledStaysQuiet(env, w, p);
    ReconcileStores(env, w, p);
    AppliedIsNil(env, p, w.store);
  }

  lemma AppliedIsNil(env: Env, p: Phare, s: Store)
    requires DropsEmpty(env) && Ready(env, p) && Typed(s) && WorkloadOk(env, p, s)
    requires LivePod(s, p).initContainers.None?
    ensures ApplyLog(env, p, s) == [Wrote(WorkloadOf(WantedKind(p).value))]
    ensures var a := Applied(env, WantedKind(p).value, Desired(env, p), p.uid, s);
      a.Workload? && a.workload.template.spec.initContainers.None?
  {
    var k := WorkloadOf(WantedKind(p).value);
    PatchIsDropped(env, k, s.objects[k], Desired(env, p));
  }

  ghost predicate Repeats(env: Env, x: World, y: World, p: Phare, e: Event) {
    RestsNil(env, x.store, p) ==> RestsNil(env, y.store, p) && y.log == x.log + [e]
  }

  lemma EveryNextPatches(env: Env, p: Phare, e: Event)
    requires Calm(env) && DropsEmpty(env) && WantedKind(p).Some? && e == Wrote(WorkloadOf(WantedKind(p).value))
    ensures forall x :: Repeats(env, x, Next(env)(x), p, e)
  {
    forall x ensures Repeats(env, x, Next(env)(x), p, e) {
      if RestsNil(env, x.store, p) {
        StaysNil(env, x, p);
      }
    }
  }

  /** On such a server the controller never stops: every one of n further runs sends the same
      patch once more and nothing else. */
  lemma PatchedForever(env: Env, w: World, p: Phare, n: nat)
    requires Calm(env) && DropsEmpty(env) && RestsNil(env, w.store, p)
    ensures RestsNil(env, Run(env, w, n).store, p)
    ensures Run(env, w, n).log == w.log + Times(n, Wrote(WorkloadOf(WantedKind(p).value)))
  {
    EveryNextPatches(env, p, Wrote(WorkloadOf(WantedKind(p).value)));
    PatchingRuns(env, Next(env), w, p, n, Wrote(WorkloadOf(WantedKind(p).value)));
  }

  lemma PatchingRuns(env: Env, f: World -> World, w: World, p: Phare, n: nat, e: Event)
    requires RestsNil(env, w.store, p) && forall x :: Repeats(env, x, f(x), p, e)
    ensures RestsNil(env, Iterate(f, w, n).store, p) && Iterate(f, w, n).log == w.log + Times(n, e)
  {
    var nil := (x: World) => RestsNil(env, x.store, p);
    forall x | nil(x) ensures nil(f(x)) && f(x).log == x.log + [e] {
      assert Repeats(env, x, f(x), p, e);
    }
    IterateRepeats(f, nil, w, n, e);
  }

  /** There is such a server, a Phare and a store at rest, so the loop is real. */
  lemma EndlessPatchHappens(
    render: Renderer, sha: string -> string, errorText: nat -> string, versions: nat -> string)
    ensures exists env: Env, s: Store, p: Phare :: Calm(env) && DropsEmpty(env) && RestsNil(env, s, p)
  {
    var env := DroppingServer(render, sha, errorText, versions);
    DroppingServerIsCalm(render, sha, errorText, versions);
    SmallPhareRestsNil(env);
    assert RestsNil(env, SmallStore(env), ActiveSmallPhare());
  }

  function ActiveSmallPhare(): Phare {
    SmallPhare().(status := ACTIVE)
  }

  /** The store right after the small Phare's workload was created as asked. */
  ghost function SmallStore(env: Env): Store
    requires Ready(env, ActiveSmallPhare())
  {
    Store(map[WorkloadOf(Deployment) := Workload(Desired(env, ActiveSmallPhare()), Some("uid"))],
          Some(ActiveSmallPhare()))
  }

  lemma SmallPhareRestsNil(env: Env)
    ensures Ready(env, ActiveSmallPhare()) && RestsNil(env, SmallStore(env), ActiveSmallPhare())
  {
    SmallPhareIsReady(env, ActiveSmallPhare());
    W.CreatedConforms(Desired(env, ActiveSmallPhare()));
  }

  function DroppingServer(
    render: Renderer, sha: string -> string, errorText: nat -> string, versions: nat -> string): Env
  {
    PlainServer(render, sha, errorText, versions).(admit := (_, o) => WithoutEmpty(o))
  }

  function WithoutEmpty(o: Object): Object {
    if o.Workload? && o.workload.template.spec.initContainers == Some([]) then
      o.(workload := o.workload.(template := o.workload.template.(
        spec := o.workload.template.spec.(initContainers := None))))
    else o
  }

  lemma DroppingServerIsCalm(
    render: Renderer, sha: string -> string, errorText: nat -> string, versions: nat -> string)
    ensures var env := DroppingServer(render, sha, errorText, versions); Calm(env) && DropsEmpty(env)
  {}
}
