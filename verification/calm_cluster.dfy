/** One reconcile in an undisturbed cluster, step by step: what every step brings about, and
    exactly what it writes. */
module CalmCluster {
  import opened Options
  import opened Phares
  import opened Cluster
  import opened ReconcileSpec
  import opened ConfigData
  import W = Workloads
  import S = ServiceSpecs

  // ---------- an undisturbed cluster ----------

  /** What the server may do to an object on the way into the store. */
  ghost predicate Admits(o: Object, a: Object) {
    && a.owner == o.owner
    && match o
       case ConfigMap(data, _) => a.ConfigMap? && a.data == data
       case Service(spec, labels, annotations, _) =>
         a.Service? && S.Fills(spec, a.service) && a.labels == labels && a.annotations == annotations
       case Route(_, _, _) => a == o
       case Workload(spec, _) => a.Workload? && W.Admitted(spec, a.workload)
  }

  /** No call fails, nobody else writes, and the server changes objects only as `Admits`
      says: it fills in Services and workloads and injects into pods, and stores ConfigMaps
      and routes as they are. */
  ghost predicate Calm(env: Env) {
    && (forall n :: env.outcome(n).Works?)
    && (forall n, s :: env.others(n, s) == s)
    && (forall k, o :: OfKind(k, o) ==> Admits(o, env.admit(k, o)))
  }

  /** A server that stores what it is sent, with no other clients. */
  function PlainServer(
    render: Renderer, sha: string -> string, errorText: nat -> string, versions: nat -> string): Env
  {
    Env(_ => Works, (_, s) => s, (_, o) => o, render, sha, errorText, versions)
  }

  lemma PlainServerIsCalm(
    render: Renderer, sha: string -> string, errorText: nat -> string, versions: nat -> string)
    ensures Calm(PlainServer(render, sha, errorText, versions))
  {}

  predicate Typed(s: Store) {
    forall k :: k in s.objects ==> OfKind(k, s.objects[k])
  }

  // ---------- a Phare that can be satisfied ----------

  /** Node ports settle when they are preserved under unique identities, or all pinned. */
  predicate PortsSettle(p: Phare, spec: S.ServiceSpec) {
    if ShouldReallocateNodePorts(p) then forall i :: 0 <= i < |spec.ports| ==> spec.ports[i].nodePort != 0
    else S.UniqueKeys(spec.ports)
  }

  predicate Ready(env: Env, p: Phare) {
    && WantedKind(p).Some?
    && (p.service.Some? ==> PortsSettle(p, p.service.value))
    && var spec := NewWorkloadSpec(p, WantedKind(p).value.StatefulSet?, env.render);
       spec.Some? && W.UniqueNames(spec.value)
  }

  /** The desired workload with the checksum of the freshly rendered configuration. */
  ghost function Desired(env: Env, p: Phare): W.WorkloadSpec
    requires Ready(env, p)
  {
    var spec := NewWorkloadSpec(p, WantedKind(p).value.StatefulSet?, env.render).value;
    if HasConfig(p) then WithChecksum(spec, env.sha(Encode(Rendered(Config(p).value, env.render, p)))) else spec
  }

  // ---------- being in line ----------

  predicate ConfigMapOk(env: Env, p: Phare, s: Store) {
    match Config(p)
    case None => ConfigMapKind !in s.objects
    case Some(config) => Present(s, ConfigMapKind) && s.objects[ConfigMapKind].data == Rendered(config, env.render, p)
  }

  predicate ServiceConforms(p: Phare, o: Object, desired: S.ServiceSpec)
    requires o.Service?
  {
    && S.Conforms(o.service, desired, !ShouldReallocateNodePorts(p))
    && o.labels == ServiceLabels(p) && o.annotations == ServiceAnnotations(p)
  }

  predicate ServiceOk(p: Phare, s: Store) {
    match p.service
    case None => ServiceKind !in s.objects
    case Some(spec) =>
      Present(s, ServiceKind) && ServiceConforms(p, s.objects[ServiceKind], DesiredServiceSpec(p, spec))
  }

  /** A route carries the controller's labels.  A policy does so only until the run after its
      creation; then it has none. */
  predicate RouteLabelsOk(p: Phare, k: RouteKind, labels: map<string, string>) {
    labels == MetadataLabels(p) || (!k.HTTPRoute? && labels == map[])
  }

  predicate RouteOk(p: Phare, s: Store, k: RouteKind) {
    match RouteSpec(p, k)
    case None => !Controlled(s, RouteOf(k), p.uid)
    case Some(spec) =>
      && Present(s, RouteOf(k)) && s.objects[RouteOf(k)].route == spec
      && RouteLabelsOk(p, k, s.objects[RouteOf(k)].labels)
  }

  predicate RoutesOk(p: Phare, s: Store) {
    RouteOk(p, s, HTTPRoute) && RouteOk(p, s, GCPBackendPolicy) && RouteOk(p, s, HealthCheckPolicy)
  }

  /** The five steps before the workload. */
  predicate SupportOk(env: Env, p: Phare, s: Store) {
    ConfigMapOk(env, p, s) && ServiceOk(p, s) && RoutesOk(p, s)
  }

  ghost predicate WorkloadOk(env: Env, p: Phare, s: Store)
    requires Ready(env, p)
  {
    var k := WantedKind(p).value;
    && !Controlled(s, WorkloadOf(OtherKind(k)), p.uid)
    && Present(s, WorkloadOf(k)) && W.Conforms(Desired(env, p), s.objects[WorkloadOf(k)].workload)
  }

  /** Every object the Phare asks for is there as asked, and none it does not ask for. */
  ghost predicate InLine(env: Env, p: Phare, s: Store)
    requires Ready(env, p)
  {
    SupportOk(env, p, s) && WorkloadOk(env, p, s)
  }

  // ---------- what a run writes ----------

  function ConfigMapLog(env: Env, p: Phare, s: Store): seq<Event> {
    if ConfigMapOk(env, p, s) then []
    else if Config(p).Some? then [Wrote(ConfigMapKind)]
    else [Removed(ConfigMapKind, s.objects[ConfigMapKind].owner)]
  }

  function ServiceLog(p: Phare, s: Store): seq<Event> {
    if ServiceOk(p, s) then []
    else if p.service.Some? then [Wrote(ServiceKind)]
    else [Removed(ServiceKind, s.objects[ServiceKind].owner)]
  }

  /** The object is exactly what the comparison expects; for a policy that is: no labels. */
  predicate RouteQuiet(p: Phare, s: Store, k: RouteKind) {
    match RouteSpec(p, k)
    case None => !Controlled(s, RouteOf(k), p.uid)
    case Some(spec) =>
      && Present(s, RouteOf(k)) && s.objects[RouteOf(k)].route == spec
      && s.objects[RouteOf(k)].labels == ReadBackLabels(p, k)
  }

  function RouteLog(p: Phare, s: Store, k: RouteKind): seq<Event> {
    if RouteQuiet(p, s, k) then []
    else if RouteSpec(p, k).Some? then [Wrote(RouteOf(k))]
    else [Removed(RouteOf(k), Some(p.uid))]
  }

  function RoutesLog(p: Phare, s: Store): seq<Event> {
    RouteLog(p, s, HTTPRoute) + RouteLog(p, s, GCPBackendPolicy) + RouteLog(p, s, HealthCheckPolicy)
  }

  function CleanUpLog(s: Store, k: Kind, uid: string): seq<Event> {
    if Controlled(s, k, uid) then [Removed(k, Some(uid))] else []
  }

  /** Nothing is sent for a workload that conforms and has no nil list where the merge makes
      an empty one. */
  ghost function ApplyLog(env: Env, p: Phare, s: Store): seq<Event>
    requires Ready(env, p)
  {
    var k, desired := WorkloadOf(WantedKind(p).value), Desired(env, p);
    LogUnless(NothingToPatch(s, k, desired), k)
  }

  ghost predicate NothingToPatch(s: Store, k: Kind, desired: W.WorkloadSpec) {
    Present(s, k) && k.WorkloadOf? &&
    W.Conforms(desired, s.objects[k].workload) && W.NilsAgree(desired, s.objects[k].workload)
  }

  ghost function WorkloadLog(env: Env, p: Phare, s: Store): seq<Event>
    requires Ready(env, p)
  {
    CleanUpLog(s, WorkloadOf(OtherKind(WantedKind(p).value)), p.uid) + ApplyLog(env, p, s)
  }

  /** Everything that a run sends ahead of the status, in order. */
  ghost function RunLog(env: Env, p: Phare, s: Store): seq<Event>
    requires Ready(env, p)
  {
    SupportLog(env, p, s) + WorkloadLog(env, p, s)
  }

  function SupportLog(env: Env, p: Phare, s: Store): seq<Event> {
    ConfigMapLog(env, p, s) + ServiceLog(p, s) + RoutesLog(p, s)
  }

  // ---------- steps ----------

  /** Only the objects of the given kinds may differ. */
  predicate SameBut(s: Store, t: Store, kinds: set<Kind>) {
    && s.phare == t.phare
    && (forall k :: k in s.objects && k !in kinds ==> k in t.objects && t.objects[k] == s.objects[k])
    && (forall k :: k in t.objects && k !in kinds ==> k in s.objects)
  }

  /** A step has succeeded, sent `log` for objects of the given kinds, and without that left
      the store alone. */
  predicate Stepped(w: World, r: Step, kinds: set<Kind>, log: seq<Event>) {
    && r.1 && Typed(r.0.store) && SameBut(w.store, r.0.store, kinds)
    && r.0.log == w.log + log && (log == [] ==> r.0.store == w.store)
  }

  lemma SteppedTransitively(
    w: World, r: Step, q: Step, kinds: set<Kind>, kinds': set<Kind>, log: seq<Event>, log': seq<Event>)
    requires Stepped(w, r, kinds, log) && Stepped(r.0, q, kinds', log')
    ensures Stepped(w, q, kinds + kinds', log + log')
  {}

  /** What a step leaves alone stays in line, or as it was, and is worth the same writes. */
  lemma StaysOk(env: Env, p: Phare, s: Store, t: Store, kinds: set<Kind>)
    requires SameBut(s, t, kinds)
    ensures ConfigMapKind !in kinds ==> (ConfigMapOk(env, p, s) <==> ConfigMapOk(env, p, t))
    ensures ServiceKind !in kinds ==> (ServiceOk(p, s) <==> ServiceOk(p, t)) && ServiceLog(p, s) == ServiceLog(p, t)
  {}

  lemma RouteStays(p: Phare, s: Store, t: Store, kinds: set<Kind>, r: RouteKind)
    requires SameBut(s, t, kinds) && RouteOf(r) !in kinds
    ensures RouteOk(p, s, r) <==> RouteOk(p, t, r)
    ensures RouteQuiet(p, s, r) <==> RouteQuiet(p, t, r)
    ensures RouteLog(p, s, r) == RouteLog(p, t, r)
  {}

  lemma RoutesStay(p: Phare, s: Store, t: Store, kinds: set<Kind>)
    requires SameBut(s, t, kinds) && forall r: RouteKind :: RouteOf(r) !in kinds
    ensures RoutesOk(p, s) <==> RoutesOk(p, t)
    ensures RoutesLog(p, s) == RoutesLog(p, t)
    ensures forall r :: RouteQuiet(p, s, r) <==> RouteQuiet(p, t, r)
  {
    forall r: RouteKind
      ensures RouteOk(p, s, r) <==> RouteOk(p, t, r)
      ensures RouteQuiet(p, s, r) <==> RouteQuiet(p, t, r)
      ensures RouteLog(p, s, r) == RouteLog(p, t, r)
    {
      RouteStays(p, s, t, kinds, r);
    }
  }

  lemma WorkloadStays(env: Env, p: Phare, s: Store, t: Store, kinds: set<Kind>)
    requires Ready(env, p) && SameBut(s, t, kinds) && forall k: WorkloadKind :: WorkloadOf(k) !in kinds
    ensures WorkloadLog(env, p, s) == WorkloadLog(env, p, t)
  {}

  // ---------- the ConfigMap and the Service ----------

  lemma ConfigMapConverges(env: Env, w: World, p: Phare)
    requires Calm(env) && Typed(w.store)
    ensures Stepped(w, StepConfigMap(env, w, p), {ConfigMapKind}, ConfigMapLog(env, p, w.store))
    ensures ConfigMapOk(env, p, StepConfigMap(env, w, p).0.store)
  {}

  lemma ServiceSettles(env: Env, p: Phare, o: Object, desired: S.ServiceSpec, live: S.ServiceSpec)
    requires PortsSettle(p, desired) && o.Service?
    requires var preserve := !ShouldReallocateNodePorts(p);
      S.Fills(desired, o.service) || S.Fills(S.Merged(live, desired, preserve), o.service)
    requires o.labels == ServiceLabels(p) && o.annotations == ServiceAnnotations(p)
    ensures ServiceConforms(p, o, desired)
  {
    S.NoDriftIffConforms(o.service, desired, !ShouldReallocateNodePorts(p));
    if ShouldReallocateNodePorts(p) {
      S.ReallocationDrifts(live, desired, o.service);
    } else {
      S.NoUpdateLoop(live, desired, o.service);
    }
  }

  lemma ServiceConverges(env: Env, w: World, p: Phare)
    requires Calm(env) && Typed(w.store) && (p.service.Some? ==> PortsSettle(p, p.service.value))
    ensures Stepped(w, StepService(env, w, p), {ServiceKind}, ServiceLog(p, w.store))
    ensures ServiceOk(p, StepService(env, w, p).0.store)
  {
    var (u, got) := DoGet(env, w, ServiceKind);
    if p.service.Some? {
      var desired := DesiredServiceSpec(p, p.service.value);
      assert PortsSettle(p, desired);
      if got.Missing? {
        var o := Service(desired, ServiceLabels(p), ServiceAnnotations(p), Some(p.uid));
        assert Admits(o, env.admit(ServiceKind, o));
        ServiceSettles(env, p, env.admit(ServiceKind, o), desired, desired);
      } else {
        S.NoDriftIffConforms(got.value.service, desired, !ShouldReallocateNodePorts(p));
        var o := UpdatedService(p, got.value, desired);
        assert Admits(o, env.admit(ServiceKind, o));
        ServiceSettles(env, p, env.admit(ServiceKind, o), desired, got.value.service);
      }
    }
  }

  // ---------- the routes ----------

  lemma DeleteOwnedConverges(env: Env, w: World, k: Kind, uid: string)
    requires Calm(env) && Typed(w.store)
    ensures Stepped(w, StepDeleteOwned(env, w, k, uid), {k}, CleanUpLog(w.store, k, uid))
    ensures !Controlled(StepDeleteOwned(env, w, k, uid).0.store, k, uid)
  {}

  predicate RouteStepped(p: Phare, w: World, r: Step, k: RouteKind) {
    && Stepped(w, r, {RouteOf(k)}, RouteLog(p, w.store, k))
    && RouteOk(p, r.0.store, k)
    && RouteAsSent(p, w.store, r.0.store, k)
  }

  /** An object that was found is exactly as the comparison expects afterwards; one that was
      created carries the controller's labels. */
  predicate RouteAsSent(p: Phare, s: Store, t: Store, k: RouteKind) {
    if Present(s, RouteOf(k)) then RouteQuiet(p, t, k)
    else RouteSpec(p, k).Some? ==> Present(t, RouteOf(k)) && t.objects[RouteOf(k)].labels == MetadataLabels(p)
  }

  lemma RouteConverges(env: Env, w: World, p: Phare, k: RouteKind)
    requires Calm(env) && Typed(w.store)
    ensures RouteStepped(p, w, StepRoute(env, w, p, k), k)
  {
    DeleteOwnedConverges(env, w, RouteOf(k), p.uid);
  }

  predicate RoutesAsSent(p: Phare, s: Store, t: Store) {
    forall r :: RouteAsSent(p, s, t, r)
  }

  const ROUTES := {RouteOf(HTTPRoute), RouteOf(GCPBackendPolicy), RouteOf(HealthCheckPolicy)}

  lemma RoutesConverge(env: Env, w: World, p: Phare)
    requires Calm(env) && Typed(w.store)
    ensures Stepped(w, StepRoutes(env, w, p), ROUTES, RoutesLog(p, w.store))
    ensures RoutesOk(p, StepRoutes(env, w, p).0.store) && RoutesAsSent(p, w.store, StepRoutes(env, w, p).0.store)
  {
    var r1 := StepRoute(env, w, p, HTTPRoute);
    RouteConverges(env, w, p, HTTPRoute);
    var r2 := StepRoute(env, r1.0, p, GCPBackendPolicy);
    RouteConverges(env, r1.0, p, GCPBackendPolicy);
    var r3 := StepRoute(env, r2.0, p, HealthCheckPolicy);
    RouteConverges(env, r2.0, p, HealthCheckPolicy);
    RoutesCompose(p, w, r1, r2, r3);
  }

  lemma RoutesCompose(p: Phare, w: World, r1: Step, r2: Step, r3: Step)
    requires RouteStepped(p, w, r1, HTTPRoute)
    requires RouteStepped(p, r1.0, r2, GCPBackendPolicy)
    requires RouteStepped(p, r2.0, r3, HealthCheckPolicy)
    ensures Stepped(w, r3, ROUTES, RoutesLog(p, w.store))
    ensures RoutesOk(p, r3.0.store) && RoutesAsSent(p, w.store, r3.0.store)
  {
    var a, b, c := RouteOf(HTTPRoute), RouteOf(GCPBackendPolicy), RouteOf(HealthCheckPolicy);
    RouteStays(p, w.store, r1.0.store, {a}, GCPBackendPolicy);
    RouteStays(p, w.store, r1.0.store, {a}, HealthCheckPolicy);
    RouteStays(p, r1.0.store, r2.0.store, {b}, HTTPRoute);
    RouteStays(p, r1.0.store, r2.0.store, {b}, HealthCheckPolicy);
    RouteStays(p, r2.0.store, r3.0.store, {c}, HTTPRoute);
    RouteStays(p, r2.0.store, r3.0.store, {c}, GCPBackendPolicy);
    var l1, l2, l3 := RouteLog(p, w.store, HTTPRoute), RouteLog(p, w.store, GCPBackendPolicy),
      RouteLog(p, w.store, HealthCheckPolicy);
    SteppedTransitively(w, r1, r2, {a}, {b}, l1, l2);
    SteppedTransitively(w, r2, r3, {a} + {b}, {c}, l1 + l2, l3);
    assert ROUTES == {a} + {b} + {c};
    forall r ensures RouteAsSent(p, w.store, r3.0.store, r) {
      assert r == HTTPRoute || r == GCPBackendPolicy || r == HealthCheckPolicy;
    }
  }

  // ---------- the workload ----------

  lemma CreatedIsAdmitted(env: Env, k: WorkloadKind, desired: W.WorkloadSpec, uid: string)
    requires Calm(env) && W.UniqueNames(desired)
    ensures var o := Workload(desired, Some(uid)); var a := env.admit(WorkloadOf(k), o);
      a.Workload? && W.Conforms(desired, a.workload)
  {
    var o := Workload(desired, Some(uid));
    assert Admits(o, env.admit(WorkloadOf(k), o));
    W.CreatedConforms(desired);
    W.AdmissionKeepsConforming(desired, desired, env.admit(WorkloadOf(k), o).workload);
  }

  lemma PatchedIsAdmitted(
    env: Env, k: WorkloadKind, desired: W.WorkloadSpec, live: W.WorkloadSpec, owner: Option<string>)
    requires Calm(env) && W.UniqueNames(desired)
    ensures var o := Workload(W.Merged(desired, live), owner); var a := env.admit(WorkloadOf(k), o);
      a.Workload? && W.Conforms(desired, a.workload)
  {
    var o := Workload(W.Merged(desired, live), owner);
    assert Admits(o, env.admit(WorkloadOf(k), o));
    W.UniqueNamesSettle(desired, live);
    W.MergedConforms(desired, live);
    W.AdmissionKeepsConforming(desired, o.workload, env.admit(WorkloadOf(k), o).workload);
  }

  lemma Creation(env: Env, w: World, k: Kind, o: Object)
    requires Calm(env) && k !in w.store.objects
    ensures var (t, r) := DoCreate(env, w, k, o);
      r.Done? && t.store == w.store.(objects := w.store.objects[k := env.admit(k, o)]) && t.log == w.log + [Wrote(k)]
  {}

  lemma Replacement(env: Env, w: World, k: Kind, o: Object)
    requires Calm(env) && Present(w.store, k) && w.store.objects[k].owner == o.owner
    ensures var (t, r) := DoReplace(env, w, k, o);
      r.Done? && t.store == w.store.(objects := w.store.objects[k := env.admit(k, o)]) && t.log == w.log + [Wrote(k)]
  {}

  /** The object that applying a workload leaves. */
  ghost function Applied(env: Env, k: WorkloadKind, desired: W.WorkloadSpec, uid: string, s: Store): Object
    requires Typed(s)
  {
    var n := WorkloadOf(k);
    if n !in s.objects then env.admit(n, Workload(desired, Some(uid)))
    else if NothingToPatch(s, n, desired) then s.objects[n]
    else env.admit(n, s.objects[n].(workload := W.Merged(desired, s.objects[n].workload)))
  }

  lemma ApplyStores(env: Env, w: World, k: WorkloadKind, desired: W.WorkloadSpec, uid: string)
    requires Calm(env) && Typed(w.store)
    ensures var (t, ok) := StepApply(env, w, k, desired, uid); var n := WorkloadOf(k);
      && ok && t.store == w.store.(objects := w.store.objects[n := Applied(env, k, desired, uid, w.store)])
      && t.log == w.log + LogUnless(NothingToPatch(w.store, n, desired), n)
  {
    var (u, got) := DoGet(env, w, WorkloadOf(k));
    match got
    case Missing => Creation(env, u, WorkloadOf(k), Workload(desired, Some(uid)));
    case Unavailable => assert false;
    case Found(o) =>
      W.NoPatchIffConforms(desired, o.workload);
      Replacement(env, u, WorkloadOf(k), o.(workload := W.Merged(desired, o.workload)));
  }

  lemma PutIsStepped(w: World, r: Step, k: Kind, o: Object, log: seq<Event>)
    requires Typed(w.store) && OfKind(k, o)
    requires r.1 && r.0.store == w.store.(objects := w.store.objects[k := o]) && r.0.log == w.log + log
    requires log == [] ==> k in w.store.objects && w.store.objects[k] == o
    ensures Stepped(w, r, {k}, log) && Present(r.0.store, k) && r.0.store.objects[k] == o
  {
    assert log == [] ==> w.store.objects[k := o] == w.store.objects;
  }

  lemma AppliedConforms(env: Env, k: WorkloadKind, desired: W.WorkloadSpec, uid: string, s: Store)
    requires Calm(env) && Typed(s) && W.UniqueNames(desired)
    ensures var a := Applied(env, k, desired, uid, s); a.Workload? && W.Conforms(desired, a.workload)
  {
    if WorkloadOf(k) !in s.objects {
      CreatedIsAdmitted(env, k, desired, uid);
    } else {
      var o := s.objects[WorkloadOf(k)];
      PatchedIsAdmitted(env, k, desired, o.workload, o.owner);
    }
  }

  function LogUnless(quiet: bool, k: Kind): seq<Event> {
    if quiet then [] else [Wrote(k)]
  }

  lemma ApplyConverges(env: Env, w: World, k: WorkloadKind, desired: W.WorkloadSpec, uid: string)
    requires Calm(env) && Typed(w.store) && W.UniqueNames(desired)
    ensures var r, n := StepApply(env, w, k, desired, uid), WorkloadOf(k);
      && Stepped(w, r, {n}, LogUnless(NothingToPatch(w.store, n, desired), n))
      && Present(r.0.store, n) && W.Conforms(desired, r.0.store.objects[n].workload)
  {
    var n, a := WorkloadOf(k), Applied(env, k, desired, uid, w.store);
    var r := StepApply(env, w, k, desired, uid);
    ApplyStores(env, w, k, desired, uid);
    AppliedConforms(env, k, desired, uid, w.store);
    PutIsStepped(w, r, n, a, LogUnless(NothingToPatch(w.store, n, desired), n));
  }

  lemma DesiredIsRead(env: Env, w: World, p: Phare)
    requires Calm(env) && Ready(env, p) && ConfigMapOk(env, p, w.store)
    ensures var (t, desired) := StepDesired(env, w, p, WantedKind(p).value);
      t.store == w.store && t.log == w.log && desired == Some(Desired(env, p))
  {}

  lemma DesiredIsUnique(env: Env, p: Phare)
    requires Ready(env, p)
    ensures W.UniqueNames(Desired(env, p))
  {}

  lemma MicroServiceIsApplied(env: Env, w: World, p: Phare) returns (u: World)
    requires Calm(env) && Typed(w.store) && Ready(env, p) && ConfigMapOk(env, p, w.store)
    ensures var k := WantedKind(p).value; var other := WorkloadOf(OtherKind(k));
      && Stepped(w, (u, true), {other}, CleanUpLog(w.store, other, p.uid)) && !Controlled(u.store, other, p.uid)
      && StepMicroService(env, w, p) == StepApply(env, u, k, Desired(env, p), p.uid)
  {
    var k := WantedKind(p).value;
    var t := StepDeleteOwned(env, w, WorkloadOf(OtherKind(k)), p.uid).0;
    DeleteOwnedConverges(env, w, WorkloadOf(OtherKind(k)), p.uid);
    assert ConfigMapOk(env, p, t.store);
    DesiredIsRead(env, t, p);
    u := StepDesired(env, t, p, k).0;
  }

  const WORKLOADS := {WorkloadOf(Deployment), WorkloadOf(StatefulSet)}

  lemma MicroServiceConverges(env: Env, w: World, p: Phare)
    requires Calm(env) && Typed(w.store) && Ready(env, p) && ConfigMapOk(env, p, w.store)
    ensures Stepped(w, StepMicroService(env, w, p), WORKLOADS, WorkloadLog(env, p, w.store))
    ensures WorkloadOk(env, p, StepMicroService(env, w, p).0.store)
  {
    var k := WantedKind(p).value;
    var u := MicroServiceIsApplied(env, w, p);
    DesiredIsUnique(env, p);
    ApplyConverges(env, u, k, Desired(env, p), p.uid);
    ApplyLogStays(env, p, w.store, u.store);
    WorkloadComposes(env, p, w, u, StepApply(env, u, k, Desired(env, p), p.uid));
  }

  lemma WorkloadComposes(env: Env, p: Phare, w: World, u: World, r: Step)
    requires Ready(env, p)
    requires var other := WorkloadOf(OtherKind(WantedKind(p).value));
      Stepped(w, (u, true), {other}, CleanUpLog(w.store, other, p.uid)) && !Controlled(u.store, other, p.uid)
    requires var k := WorkloadOf(WantedKind(p).value);
      Stepped(u, r, {k}, ApplyLog(env, p, w.store)) && Present(r.0.store, k) &&
      W.Conforms(Desired(env, p), r.0.store.objects[k].workload)
    ensures Stepped(w, r, WORKLOADS, WorkloadLog(env, p, w.store)) && WorkloadOk(env, p, r.0.store)
  {
    var k := WantedKind(p).value;
    var other := WorkloadOf(OtherKind(k));
    SteppedTransitively(w, (u, true), r, {other}, {WorkloadOf(k)},
      CleanUpLog(w.store, other, p.uid), ApplyLog(env, p, w.store));
    assert WORKLOADS == {other} + {WorkloadOf(k)};
    OtherStaysGone(u.store, r.0.store, k, p.uid);
  }

  lemma ApplyLogStays(env: Env, p: Phare, s: Store, t: Store)
    requires Ready(env, p) && SameBut(s, t, {WorkloadOf(OtherKind(WantedKind(p).value))})
    ensures ApplyLog(env, p, s) == ApplyLog(env, p, t)
  {
    assert WorkloadOf(WantedKind(p).value) !in {WorkloadOf(OtherKind(WantedKind(p).value))};
  }

  lemma OtherStaysGone(s: Store, t: Store, k: WorkloadKind, uid: string)
    requires SameBut(s, t, {WorkloadOf(k)}) && !Controlled(s, WorkloadOf(OtherKind(k)), uid)
    ensures !Controlled(t, WorkloadOf(OtherKind(k)), uid)
  {
    assert WorkloadOf(OtherKind(k)) !in {WorkloadOf(k)};
  }

  // ---------- the six steps in a row ----------

  lemma ResourcesUnfold(env: Env, w: World, p: Phare)
    ensures var (w1, ok1) := StepConfigMap(env, w, p); var (w2, ok2) := StepService(env, w1, p);
      var (w3, ok3) := StepRoutes(env, w2, p);
      ok1 && ok2 && ok3 ==> StepResources(env, w, p) == StepMicroService(env, w3, p)
  {}

  const SUPPORT := {ConfigMapKind} + {ServiceKind} + ROUTES

  lemma WorkloadAfterSupport(env: Env, p: Phare, s: Store, t: Store)
    requires Ready(env, p) && SameBut(s, t, SUPPORT)
    ensures WorkloadLog(env, p, t) == WorkloadLog(env, p, s)
  {
    WorkloadStays(env, p, s, t, SUPPORT);
  }

  lemma SupportComposes(env: Env, p: Phare, w: World, r1: Step, r2: Step, r3: Step)
    requires Stepped(w, r1, {ConfigMapKind}, ConfigMapLog(env, p, w.store)) && ConfigMapOk(env, p, r1.0.store)
    requires Stepped(r1.0, r2, {ServiceKind}, ServiceLog(p, r1.0.store)) && ServiceOk(p, r2.0.store)
    requires Stepped(r2.0, r3, ROUTES, RoutesLog(p, r2.0.store)) && RoutesOk(p, r3.0.store)
    requires RoutesAsSent(p, r2.0.store, r3.0.store)
    ensures Stepped(w, r3, SUPPORT, SupportLog(env, p, w.store)) && SupportOk(env, p, r3.0.store)
    ensures RoutesAsSent(p, w.store, r3.0.store)
  {
    StaysOk(env, p, w.store, r1.0.store, {ConfigMapKind});
    StaysOk(env, p, r1.0.store, r2.0.store, {ServiceKind});
    StaysOk(env, p, r2.0.store, r3.0.store, ROUTES);
    RoutesStay(p, w.store, r1.0.store, {ConfigMapKind});
    RoutesStay(p, r1.0.store, r2.0.store, {ServiceKind});
    var l1, l2, l3 := ConfigMapLog(env, p, w.store), ServiceLog(p, w.store), RoutesLog(p, w.store);
    SteppedTransitively(w, r1, r2, {ConfigMapKind}, {ServiceKind}, l1, l2);
    SteppedTransitively(w, r2, r3, {ConfigMapKind} + {ServiceKind}, ROUTES, l1 + l2, l3);
    forall r ensures RouteAsSent(p, w.store, r3.0.store, r) {
      assert RouteAsSent(p, r2.0.store, r3.0.store, r);
    }
  }

  lemma SupportConverges(env: Env, w: World, p: Phare) returns (r: Step)
    requires Calm(env) && Typed(w.store) && Ready(env, p)
    ensures Stepped(w, r, SUPPORT, SupportLog(env, p, w.store)) && SupportOk(env, p, r.0.store)
    ensures RoutesAsSent(p, w.store, r.0.store)
    ensures StepResources(env, w, p) == StepMicroService(env, r.0, p)
  {
    var r1 := StepConfigMap(env, w, p);
    ConfigMapConverges(env, w, p);
    var r2 := StepService(env, r1.0, p);
    ServiceConverges(env, r1.0, p);
    r := StepRoutes(env, r2.0, p);
    RoutesConverge(env, r2.0, p);
    SupportComposes(env, p, w, r1, r2, r);
    ResourcesUnfold(env, w, p);
  }

  lemma ResourcesCompose(env: Env, p: Phare, w: World, r: Step, q: Step)
    requires Ready(env, p)
    requires Stepped(w, r, SUPPORT, SupportLog(env, p, w.store)) && SupportOk(env, p, r.0.store)
    requires Stepped(r.0, q, WORKLOADS, WorkloadLog(env, p, r.0.store)) && WorkloadOk(env, p, q.0.store)
    requires RoutesAsSent(p, w.store, r.0.store)
    ensures Stepped(w, q, SUPPORT + WORKLOADS, RunLog(env, p, w.store))
    ensures InLine(env, p, q.0.store) && RoutesAsSent(p, w.store, q.0.store)
  {
    WorkloadAfterSupport(env, p, w.store, r.0.store);
    SteppedTransitively(w, r, q, SUPPORT, WORKLOADS, SupportLog(env, p, w.store), WorkloadLog(env, p, w.store));
    SupportSurvives(env, p, w.store, r.0.store, q.0.store);
  }

  lemma SupportSurvives(env: Env, p: Phare, s0: Store, s: Store, t: Store)
    requires SupportOk(env, p, s) && SameBut(s, t, WORKLOADS) && RoutesAsSent(p, s0, s)
    ensures SupportOk(env, p, t) && RoutesAsSent(p, s0, t)
  {
    StaysOk(env, p, s, t, WORKLOADS);
    RoutesStay(p, s, t, WORKLOADS);
    forall r ensures RouteAsSent(p, s0, t, r) {
      assert RouteAsSent(p, s0, s, r);
    }
  }

  /** From any store, the six steps bring everything into line, and send exactly what was
      not. */
  lemma ResourcesConverge(env: Env, w: World, p: Phare)
    requires Calm(env) && Typed(w.store) && Ready(env, p)
    ensures Stepped(w, StepResources(env, w, p), SUPPORT + WORKLOADS, RunLog(env, p, w.store))
    ensures InLine(env, p, StepResources(env, w, p).0.store)
    ensures RoutesAsSent(p, w.store, StepResources(env, w, p).0.store)
  {
    var r := SupportConverges(env, w, p);
    MicroServiceConverges(env, r.0, p);
    ResourcesCompose(env, p, w, r, StepMicroService(env, r.0, p));
  }
}
