/** One reconcile as a function on worlds, sub-reconciler by sub-reconciler. */
module ReconcileSpec {
  import opened Options
  import opened Phares
  import opened Cluster
  import opened ConfigData
  import W = Workloads
  import S = ServiceSpecs

  /** The world afterwards, and whether the step returned without an error. */
  type Step = (World, bool)

  function NotFoundTolerated(r: (World, Called)): Step {
    (r.0, !r.1.Rejected?)
  }

  function MustWork(r: (World, Called)): Step {
    (r.0, r.1.Done?)
  }

  ghost function StepConfigMap(env: Env, w: World, p: Phare): Step {
    var (t, got) := DoGet(env, w, ConfigMapKind);
    match Config(p)
    case None =>
      (match got
       case Unavailable => (t, false)
       case Missing => (t, true)
       case Found(_) => NotFoundTolerated(DoDelete(env, t, ConfigMapKind)))
    case Some(config) =>
      var data := Rendered(config, env.render, p);
      match got
      case Unavailable => (t, false)
      case Missing => MustWork(DoCreate(env, t, ConfigMapKind, ConfigMap(data, Some(p.uid))))
      case Found(o) =>
        if o.data != data then MustWork(DoReplace(env, t, ConfigMapKind, o.(data := data))) else (t, true)
  }

  /** The Service as it is written over a live one. */
  function UpdatedService(p: Phare, live: Object, desired: S.ServiceSpec): Object
    requires live.Service?
  {
    Service(S.Merged(live.service, desired, !ShouldReallocateNodePorts(p)),
            ServiceLabels(p), ServiceAnnotations(p), live.owner)
  }

  predicate ServiceDrifts(p: Phare, live: Object, desired: S.ServiceSpec)
    requires live.Service?
  {
    || S.Differs(live.service, desired, !ShouldReallocateNodePorts(p))
    || live.labels != ServiceLabels(p)
    || live.annotations != ServiceAnnotations(p)
  }

  function StepService(env: Env, w: World, p: Phare): Step {
    var (t, got) := DoGet(env, w, ServiceKind);
    match p.service
    case None =>
      (match got
       case Missing => (t, true)
       case Unavailable => (t, false)
       case Found(_) => MustWork(DoDelete(env, t, ServiceKind)))
    case Some(spec) =>
      var desired := DesiredServiceSpec(p, spec);
      match got
      case Missing =>
        MustWork(DoCreate(env, t, ServiceKind, Service(desired, ServiceLabels(p), ServiceAnnotations(p), Some(p.uid))))
      case Unavailable => (t, false)
      case Found(o) =>
        if ServiceDrifts(p, o, desired) then MustWork(DoReplace(env, t, ServiceKind, UpdatedService(p, o, desired)))
        else (t, true)
  }

  /** Delete the object if it exists and this Phare controls it. */
  function StepDeleteOwned(env: Env, w: World, k: Kind, uid: string): Step {
    var (t, got) := DoGet(env, w, k);
    match got
    case Missing => (t, true)
    case Unavailable => (t, false)
    case Found(o) =>
      if o.owner != Some(uid) then (t, true) else NotFoundTolerated(DoDelete(env, t, k))
  }

  function StepRoute(env: Env, w: World, p: Phare, k: RouteKind): Step {
    match RouteSpec(p, k)
    case None => StepDeleteOwned(env, w, RouteOf(k), p.uid)
    case Some(spec) =>
      var (t, got) := DoGet(env, w, RouteOf(k));
      match got
      case Missing => MustWork(DoCreate(env, t, RouteOf(k), Route(spec, MetadataLabels(p), Some(p.uid))))
      case Unavailable => (t, false)
      case Found(o) =>
        if o.route != spec || o.labels != ReadBackLabels(p, k) then
          MustWork(DoReplace(env, t, RouteOf(k), o.(route := spec, labels := ReadBackLabels(p, k))))
        else (t, true)
  }

  /** The workload to be written, checksum included; reading the ConfigMap may fail. */
  ghost function StepDesired(env: Env, w: World, p: Phare, k: WorkloadKind): (World, Option<W.WorkloadSpec>) {
    match NewWorkloadSpec(p, k.StatefulSet?, env.render)
    case None => (w, None)
    case Some(spec) =>
      if !HasConfig(p) then (w, Some(spec))
      else
        var (t, got) := DoGet(env, w, ConfigMapKind);
        if got.Found? then (t, Some(WithChecksum(spec, env.sha(Encode(got.value.data)))))
        else (t, None)
  }

  function StepApply(env: Env, w: World, k: WorkloadKind, desired: W.WorkloadSpec, uid: string): Step {
    var (t, got) := DoGet(env, w, WorkloadOf(k));
    match got
    case Missing => MustWork(DoCreate(env, t, WorkloadOf(k), Workload(desired, Some(uid))))
    case Unavailable => (t, false)
    case Found(o) =>
      if !W.NoDifference(o.workload, W.Merged(desired, o.workload)) then
        MustWork(DoReplace(env, t, WorkloadOf(k), o.(workload := W.Merged(desired, o.workload))))
      else (t, true)
  }

  ghost function StepWorkload(env: Env, w: World, p: Phare, k: WorkloadKind): Step {
    var (t, desired) := StepDesired(env, w, p, k);
    match desired
    case None => (t, false)
    case Some(spec) => StepApply(env, t, k, spec, p.uid)
  }

  /** The kind a Phare asks for, and the other one. */
  function WantedKind(p: Phare): Option<WorkloadKind> {
    if p.microservice.kind == "Deployment" then Some(Deployment)
    else if p.microservice.kind == "StatefulSet" then Some(StatefulSet)
    else None
  }

  function OtherKind(k: WorkloadKind): WorkloadKind {
    if k.Deployment? then StatefulSet else Deployment
  }

  ghost function StepMicroService(env: Env, w: World, p: Phare): Step {
    match WantedKind(p)
    case None => (w, false)
    case Some(k) =>
      var (t, ok) := StepDeleteOwned(env, w, WorkloadOf(OtherKind(k)), p.uid);
      if !ok then (t, false) else StepWorkload(env, t, p, k)
  }

  function StepRoutes(env: Env, w: World, p: Phare): Step {
    var (w1, ok1) := StepRoute(env, w, p, HTTPRoute);
    if !ok1 then (w1, false) else
    var (w2, ok2) := StepRoute(env, w1, p, GCPBackendPolicy);
    if !ok2 then (w2, false) else
    StepRoute(env, w2, p, HealthCheckPolicy)
  }

  /** All six sub-reconcilers, stopping at the first error. */
  ghost function StepResources(env: Env, w: World, p: Phare): Step {
    var (w1, ok1) := StepConfigMap(env, w, p);
    if !ok1 then (w1, false) else
    var (w2, ok2) := StepService(env, w1, p);
    if !ok2 then (w2, false) else
    var (w3, ok3) := StepRoutes(env, w2, p);
    if !ok3 then (w3, false) else
    StepMicroService(env, w3, p)
  }

  /** The status is written only when it changes. */
  function StepStatus(env: Env, w: World, p: Phare, status: Status): Step {
    if p.status == status then (w, true) else MustWork(DoRecord(env, w, status))
  }

  const ACTIVE := Status(Active, "Successfully reconciled Phare resource")

  /** The whole of Reconcile. */
  ghost function StepReconcile(env: Env, w: World): Step {
    var (t, got) := DoFetch(env, w);
    match got
    case Unavailable => (t, false)
    case Missing => (t, true)
    case Found(p) =>
      var (u, ok) := StepResources(env, t, p);
      if ok then StepStatus(env, u, p, ACTIVE)
      else (StepStatus(env, u, p, Status(Failed, env.errorText(u.clock))).0, false)
  }

  ghost function Next(env: Env): World -> World {
    (w: World) => StepReconcile(env, w).0
  }

  function Iterate(f: World -> World, w: World, n: nat): World {
    if n == 0 then w else f(Iterate(f, w, n - 1))
  }

  /** Any number of reconciles, one after the other, with others acting throughout. */
  ghost function Run(env: Env, w: World, n: nat): World {
    Iterate(Next(env), w, n)
  }

  lemma {:induction false} IterateAdds(f: World -> World, w: World, m: nat, n: nat)
    ensures Iterate(f, w, m + n) == Iterate(f, Iterate(f, w, m), n)
  {
    if n > 0 {
      IterateAdds(f, w, m, n - 1);
    }
  }

  lemma IterateTwice(f: World -> World, w: World)
    ensures Iterate(f, w, 1) == f(w) && Iterate(f, w, 2) == f(f(w))
  {
    assert Iterate(f, w, 0) == w;
  }

  /** What every step keeps, every run keeps. */
  lemma {:induction false} IterateKeeps(f: World -> World, keeps: World -> bool, w: World, n: nat)
    requires keeps(w) && forall x :: keeps(x) ==> keeps(f(x))
    ensures keeps(Iterate(f, w, n))
  {
    if n > 0 {
      IterateKeeps(f, keeps, w, n - 1);
    }
  }

  /** The log goes on with at most n events, each of them `e`. */
  predicate LogsOnly(log: seq<Event>, next: seq<Event>, n: nat, e: Event) {
    |log| <= |next| <= |log| + n && next[..|log|] == log && forall i :: |log| <= i < |next| ==> next[i] == e
  }

  lemma {:induction false} IterateLogs(f: World -> World, keeps: World -> bool, w: World, n: nat, e: Event)
    requires keeps(w) && forall x :: keeps(x) ==> keeps(f(x)) && LogsOnly(x.log, f(x).log, 1, e)
    ensures keeps(Iterate(f, w, n)) && LogsOnly(w.log, Iterate(f, w, n).log, n, e)
  {
    if n > 0 {
      IterateLogs(f, keeps, w, n - 1, e);
      var v := Iterate(f, w, n - 1);
      assert f(v).log[..|w.log|] == f(v).log[..|v.log|][..|w.log|];
      forall i | |w.log| <= i < |f(v).log| ensures f(v).log[i] == e {
        if i < |v.log| {
          assert f(v).log[i] == f(v).log[..|v.log|][i];
        }
      }
    }
  }

  function Times(n: nat, e: Event): (log: seq<Event>)
    ensures |log| == n && forall i :: 0 <= i < n ==> log[i] == e
  {
    seq(n, _ => e)
  }

  lemma {:induction false} IterateRepeats(f: World -> World, keeps: World -> bool, w: World, n: nat, e: Event)
    requires keeps(w) && forall x :: keeps(x) ==> keeps(f(x)) && f(x).log == x.log + [e]
    ensures keeps(Iterate(f, w, n)) && Iterate(f, w, n).log == w.log + Times(n, e)
  {
    if n > 0 {
      IterateRepeats(f, keeps, w, n - 1, e);
    }
  }
}
