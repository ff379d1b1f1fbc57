/** Convergence: one undisturbed reconcile brings any store into line with the Phare, a second
    one settles what the first could not know, and from then on every reconcile leaves the
    cluster alone but for one kind of patch. */
module ReconcileConvergence {
  import opened Options
  import opened Phares
  import opened Cluster
  import opened ReconcileSpec
  import opened ConfigData
  import opened CalmCluster
  import M = WorkloadMerge
  import W = Workloads

  // ---------- around the six steps ----------

  /** The Phare as it is stored after a run that succeeded: a status write gives it a new
      version. */
  function After(env: Env, clock: nat, p: Phare): Phare {
    if p.status == ACTIVE then p else p.(status := ACTIVE, version := env.versions(clock))
  }

  function StatusLog(p: Phare): seq<Event> {
    if p.status == ACTIVE then [] else [Recorded(Active)]
  }

  /** The fetch before, the status after. */
  lemma ReconcileShape(env: Env, w: World, p: Phare)
    requires Calm(env) && w.store.phare == Some(p)
    requires var (v, ok) := StepResources(env, DoFetch(env, w).0, p); ok && v.store.phare == Some(p)
    ensures var v := StepResources(env, DoFetch(env, w).0, p).0; var (t, ok) := StepReconcile(env, w);
      && ok && t.store == v.store.(phare := Some(After(env, v.clock, p)))
      && t.log == v.log + StatusLog(p)
  {
    var u := DoFetch(env, w).0;
    var (v, ok) := StepResources(env, u, p);
    assert DoFetch(env, w).1 == Found(p);
    StatusShape(env, v, p);
  }

  lemma StatusShape(env: Env, v: World, p: Phare)
    requires Calm(env) && v.store.phare == Some(p)
    ensures var (t, ok) := StepStatus(env, v, p, ACTIVE);
      && ok && t.store == v.store.(phare := Some(After(env, v.clock, p)))
      && t.log == v.log + StatusLog(p)
  {}

  // ---------- the same Phare under another version ----------

  /** Nothing but status and version may differ. */
  predicate SameSpec(p: Phare, q: Phare) {
    q == p.(status := q.status, version := q.version)
  }

  function ProbeOf(env: Env, p: Phare): Option<Option<M.Probe>> {
    RenderedProbe(p.microservice.livenessProbe, env.render, p)
  }

  /** The templates of the Phare make the same of both. */
  predicate RendersAlike(env: Env, p: Phare, q: Phare) {
    && (Config(p).Some? ==> Rendered(Config(p).value, env.render, p) == Rendered(Config(p).value, env.render, q))
    && ProbeOf(env, p) == ProbeOf(env, q)
  }

  lemma SpecAlike(env: Env, p: Phare, q: Phare, stateful: bool)
    requires SameSpec(p, q) && ProbeOf(env, p) == ProbeOf(env, q)
    ensures NewWorkloadSpec(q, stateful, env.render) == NewWorkloadSpec(p, stateful, env.render)
  {
    assert MainContainer(q) == MainContainer(p) && PodVolumes(q) == PodVolumes(p);
  }

  lemma DesiredAlike(env: Env, p: Phare, q: Phare)
    requires Ready(env, p) && SameSpec(p, q) && RendersAlike(env, p, q)
    ensures Ready(env, q) && Desired(env, q) == Desired(env, p)
  {
    SpecAlike(env, p, q, WantedKind(p).value.StatefulSet?);
  }

  lemma SupportAlike(env: Env, p: Phare, q: Phare, s: Store)
    requires SameSpec(p, q)
    ensures ServiceOk(q, s) <==> ServiceOk(p, s)
    ensures RoutesOk(q, s) <==> RoutesOk(p, s)
    ensures RoutesLog(q, s) == RoutesLog(p, s)
  {}

  /** The main container of a pod that conforms has the rendered probe. */
  lemma ProbeIsLive(env: Env, p: Phare, s: Store, i: nat)
    requires Ready(env, p) && WorkloadOk(env, p, s) && i < |LivePod(s, p).containers|
    requires LivePod(s, p).containers[i].name == p.name
    ensures ProbeOf(env, p).Some? && W.ProbesAlike(LivePod(s, p).containers[i].probe, ProbeOf(env, p).value)
  {
    var desired := Desired(env, p).template.spec.containers;
    DesiredIsUnique(env, p);
    W.UniqueLast(desired);
    assert desired[0].name == p.name;
  }

  lemma MainIsLive(env: Env, p: Phare, s: Store) returns (i: nat)
    requires Ready(env, p) && WorkloadOk(env, p, s)
    ensures i < |LivePod(s, p).containers| && LivePod(s, p).containers[i].name == p.name
  {
    var desired := Desired(env, p).template.spec.containers;
    assert desired[0].name == p.name;
    assert p.name in M.ContainerNames(desired);
    i :| 0 <= i < |LivePod(s, p).containers| && LivePod(s, p).containers[i].name == p.name;
  }

  function LivePod(s: Store, p: Phare): W.PodSpec
    requires WantedKind(p).Some? && Present(s, WorkloadOf(WantedKind(p).value))
  {
    s.objects[WorkloadOf(WantedKind(p).value)].workload.template.spec
  }

  /** What is in line with a Phare is in line with the same Phare under another version
      exactly when its templates make the same of both. */
  lemma InLineAlike(env: Env, p: Phare, q: Phare, s: Store)
    requires Ready(env, p) && SameSpec(p, q) && InLine(env, p, s)
    ensures Ready(env, q) && InLine(env, q, s) <==> RendersAlike(env, p, q)
  {
    SupportAlike(env, p, q, s);
    if RendersAlike(env, p, q) {
      DesiredAlike(env, p, q);
    }
    if Ready(env, q) && InLine(env, q, s) {
      var i := MainIsLive(env, p, s);
      ProbeIsLive(env, p, s, i);
      ProbeIsLive(env, q, s, i);
      EqualProbes(env, p, q, LivePod(s, p).containers[i].probe);
    }
  }

  lemma EqualProbes(env: Env, p: Phare, q: Phare, live: Option<M.Probe>)
    requires SameSpec(p, q) && ProbeOf(env, p).Some? && ProbeOf(env, q).Some?
    requires W.ProbesAlike(live, ProbeOf(env, p).value) && W.ProbesAlike(live, ProbeOf(env, q).value)
    ensures ProbeOf(env, p) == ProbeOf(env, q)
  {}

  // ---------- one reconcile ----------

  /** The stored Phare is reported Active and everything is as it asks. */
  ghost predicate Settled(env: Env, s: Store, p: Phare) {
    && s.phare == Some(p) && p.status == ACTIVE && Typed(s)
    && Ready(env, p) && InLine(env, p, s)
  }

  lemma InLineByObjects(env: Env, p: Phare, s: Store, t: Store)
    requires Ready(env, p) && s.objects == t.objects && InLine(env, p, s)
    ensures InLine(env, p, t)
  {}

  ghost predicate Starts(env: Env, w: World, p: Phare) {
    Typed(w.store) && w.store.phare == Some(p) && Ready(env, p)
  }

  /** What a run has made of `w`: it has sent exactly what was out of line, everything is as
      the Phare asked when it was fetched, and the Phare is Active. */
  ghost predicate Converged(env: Env, w: World, p: Phare, t: World)
    requires Ready(env, p)
  {
    && Typed(t.store) && InLine(env, p, t.store) && RoutesAsSent(p, w.store, t.store)
    && t.log == w.log + RunLog(env, p, w.store) + StatusLog(p)
    && t.store.phare.Some? && SameSpec(p, t.store.phare.value) && t.store.phare.value.status == ACTIVE
    && (p.status == ACTIVE ==> t.store.phare.value == p)
    && (p.status == ACTIVE && RunLog(env, p, w.store) == [] ==> t.store == w.store)
  }

  /** One reconcile, from any store, however far off. */
  lemma OneReconcileConverges(env: Env, w: World, p: Phare)
    requires Calm(env) && Starts(env, w, p)
    ensures var (t, ok) := StepReconcile(env, w); ok && Converged(env, w, p, t)
  {
    var u := DoFetch(env, w).0;
    ResourcesConverge(env, u, p);
    ReconcileShape(env, w, p);
    var v, t := StepResources(env, u, p).0, StepReconcile(env, w).0;
    InLineByObjects(env, p, v.store, t.store);
    SentByObjects(p, w.store, v.store, t.store);
  }

  /** So of a function that is one reconcile. */
  ghost predicate Converging(env: Env, f: World -> World) {
    forall w, p {:trigger Starts(env, w, p)} :: Starts(env, w, p) ==> Converged(env, w, p, f(w))
  }

  lemma NextConverges(env: Env)
    requires Calm(env)
    ensures Converging(env, Next(env))
  {
    forall w, p | Starts(env, w, p) ensures Converged(env, w, p, Next(env)(w)) {
      OneReconcileConverges(env, w, p);
    }
  }

  lemma SentByObjects(p: Phare, s0: Store, s: Store, t: Store)
    requires s.objects == t.objects && RoutesAsSent(p, s0, s)
    ensures RoutesAsSent(p, s0, t)
  {
    forall r ensures RouteAsSent(p, s0, t, r) {
      assert RouteAsSent(p, s0, s, r);
    }
  }

  /** The store is settled right after it, exactly when the new version that the status write
      gave the Phare makes no difference to the templates. */
  lemma SettledIffRendersAlike(env: Env, w: World, p: Phare)
    requires Calm(env) && Starts(env, w, p)
    ensures var q := StepReconcile(env, w).0.store.phare;
      q.Some? && (Settled(env, StepReconcile(env, w).0.store, q.value) <==> RendersAlike(env, p, q.value))
  {
    OneReconcileConverges(env, w, p);
    SettledAfterIff(env, w, p, StepReconcile(env, w).0);
  }

  lemma SettledAfterIff(env: Env, w: World, p: Phare, t: World)
    requires Starts(env, w, p) && Converged(env, w, p, t)
    ensures Settled(env, t.store, t.store.phare.value) <==> RendersAlike(env, p, t.store.phare.value)
  {
    InLineAlike(env, p, t.store.phare.value, t.store);
  }

  // ---------- a settled store ----------

  /** A policy that carries labels.  Only the run after its creation finds it like that. */
  predicate StillLabelled(p: Phare, s: Store, k: RouteKind) {
    !k.HTTPRoute? && RouteSpec(p, k).Some? && Present(s, RouteOf(k)) && s.objects[RouteOf(k)].labels != map[]
  }

  lemma RouteInLineLog(p: Phare, s: Store, k: RouteKind)
    requires RouteOk(p, s, k)
    ensures RouteLog(p, s, k) == if StillLabelled(p, s, k) then [Wrote(RouteOf(k))] else []
  {}

  /** What a settled store still provokes: policies that carry labels lose them, and the
      workload is patched when it has a nil list that the merge turns into an empty one. */
  lemma SettledLog(env: Env, s: Store, p: Phare)
    requires Settled(env, s, p)
    ensures RunLog(env, p, s) == RoutesLog(p, s) + ApplyLog(env, p, s)
    ensures forall k :: StillLabelled(p, s, k) <==> RouteLog(p, s, k) == [Wrote(RouteOf(k))]
    ensures forall k :: !StillLabelled(p, s, k) <==> RouteLog(p, s, k) == []
  {
    forall k
      ensures StillLabelled(p, s, k) <==> RouteLog(p, s, k) == [Wrote(RouteOf(k))]
      ensures !StillLabelled(p, s, k) <==> RouteLog(p, s, k) == []
    {
      assert k == HTTPRoute || k == GCPBackendPolicy || k == HealthCheckPolicy;
      RouteInLineLog(p, s, k);
    }
    assert ConfigMapLog(env, p, s) == [] && ServiceLog(p, s) == [];
    assert CleanUpLog(s, WorkloadOf(OtherKind(WantedKind(p).value)), p.uid) == [];
  }

  /** A settled store stays settled; the run sends exactly those patches, and without them
      changes nothing at all. */
  lemma SettledStaysQuiet(env: Env, w: World, p: Phare)
    requires Calm(env) && Settled(env, w.store, p)
    ensures var (t, ok) := StepReconcile(env, w);
      && ok && Settled(env, t.store, p)
      && t.log == w.log + RoutesLog(p, w.store) + ApplyLog(env, p, w.store)
      && RoutesLog(p, t.store) == []
      && (RoutesLog(p, w.store) == [] && ApplyLog(env, p, w.store) == [] ==> t.store == w.store)
  {
    OneReconcileConverges(env, w, p);
    SettledAfter(env, w, p, StepReconcile(env, w).0);
  }

  lemma SettledAfter(env: Env, w: World, p: Phare, t: World)
    requires Settled(env, w.store, p) && Converged(env, w, p, t)
    ensures Settled(env, t.store, p) && RoutesLog(p, t.store) == []
    ensures t.log == w.log + RoutesLog(p, w.store) + ApplyLog(env, p, w.store)
    ensures RoutesLog(p, w.store) == [] && ApplyLog(env, p, w.store) == [] ==> t.store == w.store
  {
    SettledLog(env, w.store, p);
    AllQuiet(p, w.store, t.store);
  }

  lemma AllQuiet(p: Phare, s: Store, t: Store)
    requires RoutesAsSent(p, s, t) && RoutesOk(p, s) && RoutesOk(p, t)
    ensures RoutesLog(p, t) == []
  {
    forall k ensures RouteLog(p, t, k) == [] {
      assert k == HTTPRoute || k == GCPBackendPolicy || k == HealthCheckPolicy;
      assert RouteAsSent(p, s, t, k);
    }
  }

  /** Settled, and no policy carries labels any more. */
  ghost predicate AtRest(env: Env, s: Store, p: Phare) {
    Settled(env, s, p) && RoutesLog(p, s) == []
  }

  /** Two reconciles bring any store to rest, provided that the Phare can still be satisfied
      under the version that the first one gave it. */
  lemma TwoReconcilesRest(env: Env, w: World, p: Phare, q: Phare)
    requires Calm(env) && Starts(env, w, p)
    requires Run(env, w, 1).store.phare == Some(q) && Ready(env, q)
    ensures AtRest(env, Run(env, w, 2).store, q)
  {
    NextConverges(env);
    IterateTwice(Next(env), w);
    TwoStepsRest(env, Next(env), w, p, q);
  }

  lemma TwoStepsRest(env: Env, f: World -> World, w: World, p: Phare, q: Phare)
    requires Converging(env, f) && Starts(env, w, p) && f(w).store.phare == Some(q) && Ready(env, q)
    ensures SameSpec(p, q) && q.status == ACTIVE && Starts(env, f(w), q)
    ensures Converged(env, w, p, f(w)) && Converged(env, f(w), q, f(f(w)))
    ensures AtRest(env, f(f(w)).store, q)
  {
    assert Converged(env, w, p, f(w));
    assert Starts(env, f(w), q);
    RestAfterTwo(env, w, p, f(w), q, f(f(w)));
  }

  lemma RestAfterTwo(env: Env, w: World, p: Phare, x: World, q: Phare, y: World)
    requires Starts(env, w, p) && Converged(env, w, p, x) && x.store.phare == Some(q)
    requires Starts(env, x, q) && Converged(env, x, q, y)
    ensures AtRest(env, y.store, q)
  {
    SupportAlike(env, p, q, x.store);
    AllQuiet(q, x.store, y.store);
  }

  ghost predicate StaysQuiet(env: Env, x: World, y: World, p: Phare, e: Event) {
    AtRest(env, x.store, p) ==> AtRest(env, y.store, p) && LogsOnly(x.log, y.log, 1, e)
  }

  lemma QuietOnce(env: Env, w: World, p: Phare, e: Event)
    requires Calm(env) && AtRest(env, w.store, p) && e == Wrote(WorkloadOf(WantedKind(p).value))
    ensures AtRest(env, StepReconcile(env, w).0.store, p) && LogsOnly(w.log, StepReconcile(env, w).0.log, 1, e)
  {
    SettledStaysQuiet(env, w, p);
    AtMostOnePatch(env, p, w.store);
  }

  lemma AtMostOnePatch(env: Env, p: Phare, s: Store)
    requires Ready(env, p)
    ensures ApplyLog(env, p, s) == [] || ApplyLog(env, p, s) == [Wrote(WorkloadOf(WantedKind(p).value))]
  {}

  lemma EveryNextIsQuiet(env: Env, p: Phare, e: Event)
    requires Calm(env) && WantedKind(p).Some? && e == Wrote(WorkloadOf(WantedKind(p).value))
    ensures forall x :: StaysQuiet(env, x, Next(env)(x), p, e)
  {
    forall x ensures StaysQuiet(env, x, Next(env)(x), p, e) {
      if AtRest(env, x.store, p) {
        QuietOnce(env, x, p, e);
      }
    }
  }

  lemma QuietRuns(env: Env, f: World -> World, w: World, p: Phare, n: nat, e: Event)
    requires AtRest(env, w.store, p) && forall x :: StaysQuiet(env, x, f(x), p, e)
    ensures AtRest(env, Iterate(f, w, n).store, p) && LogsOnly(w.log, Iterate(f, w, n).log, n, e)
  {
    var resting := (x: World) => AtRest(env, x.store, p);
    forall x | resting(x) ensures resting(f(x)) && LogsOnly(x.log, f(x).log, 1, e) {
      assert StaysQuiet(env, x, f(x), p, e);
    }
    IterateLogs(f, resting, w, n, e);
  }

  /** From rest on, over any number of further reconciles: no object is created or removed, no
      status is written, and the only calls are patches of the workload, at most one a run. */
  lemma QuietForever(env: Env, w: World, p: Phare, n: nat)
    requires Calm(env) && AtRest(env, w.store, p)
    ensures AtRest(env, Run(env, w, n).store, p)
    ensures LogsOnly(w.log, Run(env, w, n).log, n, Wrote(WorkloadOf(WantedKind(p).value)))
  {
    EveryNextIsQuiet(env, p, Wrote(WorkloadOf(WantedKind(p).value)));
    QuietRuns(env, Next(env), w, p, n, Wrote(WorkloadOf(WantedKind(p).value)));
  }

  /** Convergence is not vacuous: with a plain server, a small Phare on an empty store comes
      to rest. */
  lemma RestHappens(
    render: Renderer, sha: string -> string, errorText: nat -> string, versions: nat -> string)
    ensures exists env: Env, s: Store, p: Phare :: Calm(env) && AtRest(env, s, p)
  {
    var env := PlainServer(render, sha, errorText, versions);
    PlainServerIsCalm(render, sha, errorText, versions);
    NextConverges(env);
    var s, q := SmallPhareRests(env, Next(env));
  }

  lemma SmallPhareRests(env: Env, f: World -> World) returns (s: Store, q: Phare)
    requires Converging(env, f)
    ensures AtRest(env, s, q)
  {
    var w := World(Store(map[], Some(SmallPhare())), 0, [], []);
    SmallPhareIsReady(env, SmallPhare());
    assert Starts(env, w, SmallPhare());
    q := f(w).store.phare.value;
    SmallPhareIsReady(env, q);
    TwoStepsRest(env, f, w, SmallPhare(), q);
    s := f(f(w)).store;
  }

  function SmallPhare(): Phare {
    Phare("app", "uid", map[], map[], "", "1",
          MicroService("Deployment", 1, "registry/app", "1", [], [], None, [], None, None, [], None, [], map[], map[]),
          None, None, Status(NoPhase, ""))
  }

  lemma SmallPhareIsReady(env: Env, p: Phare)
    requires SameSpec(SmallPhare(), p)
    ensures Ready(env, p)
  {}

  // ---------- the checksum ----------

  /** The data that the configuration of a Phare renders to now. */
  function RenderedConfig(env: Env, p: Phare): map<string, string>
    requires HasConfig(p)
  {
    Rendered(Config(p).value, env.render, p)
  }

  /** The checksum in the live pod template is that of the configuration as it renders now,
      whatever the hash and the configuration. */
  lemma ChecksumIsFresh(env: Env, s: Store, p: Phare)
    requires Settled(env, s, p) && HasConfig(p)
    ensures LiveChecksum(s, p) == Some(env.sha(Encode(RenderedConfig(env, p))))
  {}

  /** So a configuration that renders differently rolls the pods, unless the hash collides on
      the two texts or a value goes on with a line that reads like a later entry. */
  lemma ChecksumTellsConfigsApart(env: Env, s: Store, p: Phare, t: Store, q: Phare)
    requires Settled(env, s, p) && Settled(env, t, q) && HasConfig(p) && HasConfig(q)
    requires var x, y := Encode(RenderedConfig(env, p)), Encode(RenderedConfig(env, q));
      env.sha(x) == env.sha(y) ==> x == y
    requires CleanKeys(Config(p).value) && CleanKeys(Config(q).value)
    requires !RunsOn(RenderedConfig(env, p), RenderedConfig(env, q))
    requires !RunsOn(RenderedConfig(env, q), RenderedConfig(env, p))
    ensures LiveChecksum(s, p) == LiveChecksum(t, q) <==> RenderedConfig(env, p) == RenderedConfig(env, q)
  {
    ChecksumIsFresh(env, s, p);
    ChecksumIsFresh(env, t, q);
    ChecksumFollowsData(env.sha, RenderedConfig(env, p), RenderedConfig(env, q));
  }

  function LiveChecksum(s: Store, p: Phare): Option<string> {
    match WantedKind(p)
    case None => None
    case Some(k) =>
      if !Present(s, WorkloadOf(k)) then None
      else
        var annotations := W.Pairs(s.objects[WorkloadOf(k)].workload.template.annotations);
        if CHECKSUM in annotations then Some(annotations[CHECKSUM]) else None
  }
}
