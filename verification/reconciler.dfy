/** The reconciler in the source's own form: methods that call the API server one call at a
    time and return early on errors, each proved against its step function. */
module Reconcilers {
  import opened Options
  import opened Phares
  import opened Cluster
  import opened ReconcileSpec
  import opened ConfigData
  import W = Workloads
  import S = ServiceSpecs

  class PhareReconciler {
    const api: Api

    constructor (api: Api)
      ensures this.api == api
    {
      this.api := api;
    }

    method Reconcile() returns (ok: bool)
      modifies api
      ensures (api.Now(), ok) == StepReconcile(api.env, old(api.Now()))
    {
      var got := api.Fetch();
      match got {
        case Unavailable => return false;
        case Missing => return true;
        case Found(p) =>
          ok := ReconcileResources(p);
          if !ok {
            // The write of the Failed status is best effort.
            var _ := UpdateStatus(p, Status(Failed, api.env.errorText(api.clock)));
            return false;
          }
          ok := UpdateStatus(p, ACTIVE);
      }
    }

    method ReconcileResources(p: Phare) returns (ok: bool)
      modifies api
      ensures (api.Now(), ok) == StepResources(api.env, old(api.Now()), p)
    {
      ok := ReconcileConfigMap(p);
      if !ok {
        return;
      }
      ok := ReconcileService(p);
      if !ok {
        return;
      }
      ok := HandleRoute(p, HTTPRoute);
      if !ok {
        return;
      }
      ok := HandleRoute(p, GCPBackendPolicy);
      if !ok {
        return;
      }
      ok := HandleRoute(p, HealthCheckPolicy);
      if !ok {
        return;
      }
      ok := ReconcileMicroService(p);
    }

    method UpdateStatus(p: Phare, status: Status) returns (ok: bool)
      modifies api
      ensures (api.Now(), ok) == StepStatus(api.env, old(api.Now()), p, status)
    {
      if p.status == status {
        return true;
      }
      var r := api.Record(status);
      ok := r == Done;
    }

    method ReconcileConfigMap(p: Phare) returns (ok: bool)
      modifies api
      ensures (api.Now(), ok) == StepConfigMap(api.env, old(api.Now()), p)
    {
      if p.toolChain.None? || p.toolChain.value.config.None? {
        var got := api.Get(ConfigMapKind);
        if got.Unavailable? {
          return false;
        }
        if got.Found? {
          var r := api.Delete(ConfigMapKind);
          return r != Rejected;
        }
        return true;
      }
      var data := GenerateData(p.toolChain.value.config.value, api.env.render, p);
      var got := api.Get(ConfigMapKind);
      match got {
        case Missing =>
          var r := api.Create(ConfigMapKind, ConfigMap(data, Some(p.uid)));
          return r == Done;
        case Unavailable => return false;
        case Found(o) =>
          if o.data != data {
            var r := api.Replace(ConfigMapKind, o.(data := data));
            return r == Done;
          }
          return true;
      }
    }

    method ReconcileService(p: Phare) returns (ok: bool)
      modifies api
      ensures (api.Now(), ok) == StepService(api.env, old(api.Now()), p)
    {
      var got := api.Get(ServiceKind);
      if p.service.None? && got.Missing? {
        return true;
      }
      if p.service.None? && got.Unavailable? {
        return false;
      }
      if p.service.None? {
        var r := api.Delete(ServiceKind);
        return r == Done;
      }
      var desired := DesiredServiceSpec(p, p.service.value);
      if got.Missing? {
        var r := api.Create(ServiceKind, Service(desired, ServiceLabels(p), ServiceAnnotations(p), Some(p.uid)));
        return r == Done;
      }
      if got.Unavailable? {
        return false;
      }
      var existing := got.value;
      var preserve := !ShouldReallocateNodePorts(p);
      var differ := S.ServiceSpecsDiffer(existing.service, desired, preserve);
      if differ || existing.labels != ServiceLabels(p) || existing.annotations != ServiceAnnotations(p) {
        var spec := S.MergeServiceSpecPreservingImmutable(existing.service, desired, preserve);
        existing := Service(spec, ServiceLabels(p), ServiceAnnotations(p), existing.owner);
        var r := api.Replace(ServiceKind, existing);
        return r == Done;
      }
      return true;
    }

    /** deleteIfOwned and deleteIfExists: get, check the controller, delete. */
    method DeleteIfOwned(k: Kind, uid: string) returns (ok: bool)
      modifies api
      ensures (api.Now(), ok) == StepDeleteOwned(api.env, old(api.Now()), k, uid)
    {
      var got := api.Get(k);
      match got {
        case Missing => return true;
        case Unavailable => return false;
        case Found(o) =>
          if o.owner != Some(uid) {
            return true;
          }
          var r := api.Delete(k);
          return r != Rejected;
      }
    }

    method HandleRoute(p: Phare, k: RouteKind) returns (ok: bool)
      modifies api
      ensures (api.Now(), ok) == StepRoute(api.env, old(api.Now()), p, k)
    {
      var spec := RouteSpec(p, k);
      if spec.None? {
        ok := DeleteIfOwned(RouteOf(k), p.uid);
        return;
      }
      var got := api.Get(RouteOf(k));
      match got {
        case Missing =>
          var r := api.Create(RouteOf(k), Route(spec.value, MetadataLabels(p), Some(p.uid)));
          return r == Done;
        case Unavailable => return false;
        case Found(existing) =>
          var labels := ReadBackLabels(p, k);
          if existing.route != spec.value || existing.labels != labels {
            var r := api.Replace(RouteOf(k), existing.(route := spec.value, labels := labels));
            return r == Done;
          }
          return true;
      }
    }

    method ReconcileMicroService(p: Phare) returns (ok: bool)
      modifies api
      ensures (api.Now(), ok) == StepMicroService(api.env, old(api.Now()), p)
    {
      var kind: WorkloadKind;
      if p.microservice.kind == "Deployment" {
        kind := Deployment;
      } else if p.microservice.kind == "StatefulSet" {
        kind := StatefulSet;
      } else {
        return false;
      }
      // Remove a workload of the other kind left over from an earlier spec.
      ok := DeleteIfOwned(WorkloadOf(OtherKind(kind)), p.uid);
      if !ok {
        return;
      }
      ok := ReconcileWorkload(p, kind);
    }

    method HashConfigMapData() returns (hash: Option<string>)
      modifies api
      ensures var (w, got) := DoGet(api.env, old(api.Now()), ConfigMapKind);
        api.Now() == w && hash == if got.Found? then Some(api.env.sha(Encode(got.value.data))) else None
    {
      var got := api.Get(ConfigMapKind);
      if !got.Found? {
        return None;
      }
      var text := HashInput(got.value.data);
      return Some(api.env.sha(text));
    }

    /** reconcileDeployment and reconcileStatefulSet. */
    method ReconcileWorkload(p: Phare, k: WorkloadKind) returns (ok: bool)
      modifies api
      ensures (api.Now(), ok) == StepWorkload(api.env, old(api.Now()), p, k)
    {
      var built := NewWorkload(p, k.StatefulSet?, api.env.render);
      if built.None? {
        return false;
      }
      var desired := built.value;
      if HasConfig(p) {
        var hash := HashConfigMapData();
        if hash.None? {
          return false;
        }
        desired := WithChecksum(desired, hash.value);
      }
      ok := ApplyWorkload(k, desired, p.uid);
    }

    method ApplyWorkload(k: WorkloadKind, desired: W.WorkloadSpec, uid: string) returns (ok: bool)
      modifies api
      ensures (api.Now(), ok) == StepApply(api.env, old(api.Now()), k, desired, uid)
    {
      var got := api.Get(WorkloadOf(k));
      match got {
        case Missing =>
          var r := api.Create(WorkloadOf(k), Workload(desired, Some(uid)));
          return r == Done;
        case Unavailable => return false;
        case Found(existing) =>
          var merged := W.MergeWorkload(desired, existing.workload);
          if !W.NoDifference(existing.workload, merged) {
            var r := api.Replace(WorkloadOf(k), existing.(workload := merged));
            return r == Done;
          }
          return true;
      }
    }
  }

  /** The manager's loop: reconcile again and again. */
  method RunController(r: PhareReconciler, n: nat)
    modifies r.api
    ensures r.api.Now() == Run(r.api.env, old(r.api.Now()), n)
  {
    for i := 0 to n
      invariant r.api.Now() == Run(r.api.env, old(r.api.Now()), i)
    {
      var _ := r.Reconcile();
    }
  }
}
