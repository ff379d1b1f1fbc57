/** What no run does, whatever fails and whatever other clients do in between: have a
    Deployment and a StatefulSet of the same Phare side by side, remove what the Phare does
    not control, or report Active after an error. */
module ReconcileSafety {
  import opened Options
  import opened Phares
  import opened Cluster
  import opened ReconcileSpec
  import W = Workloads

  // ---------- never two workloads ----------

  /** Other clients may do anything to workloads except make this Phare their controller. */
  ghost predicate NeverGrants(env: Env, uid: string) {
    forall n, s, k ::
      Controlled(env.others(n, s), WorkloadOf(k), uid) ==> Controlled(s, WorkloadOf(k), uid)
  }

  /** Admission never changes an object's controller. */
  ghost predicate KeepsOwner(env: Env) {
    forall k, o :: env.admit(k, o).owner == o.owner
  }

  predicate AtMostOne(s: Store, uid: string) {
    !(Controlled(s, WorkloadOf(Deployment), uid) && Controlled(s, WorkloadOf(StatefulSet), uid))
  }

  /** Not now and not at any earlier moment. */
  predicate NeverTwo(w: World, uid: string) {
    AtMostOne(w.store, uid) && forall i :: 0 <= i < |w.seen| ==> AtMostOne(w.seen[i].store, uid)
  }

  /** The calls other than creation keep it, and give the Phare no workload. */
  ghost predicate Harmless(w: World, t: World, uid: string) {
    && (NeverTwo(w, uid) ==> NeverTwo(t, uid))
    && forall k :: Controlled(t.store, WorkloadOf(k), uid) ==> Controlled(w.store, WorkloadOf(k), uid)
  }

  lemma TickHarmless(env: Env, w: World, uid: string)
    requires NeverGrants(env, uid)
    ensures Harmless(w, Tick(env, w), uid)
  {}

  lemma ReplaceHarmless(env: Env, w: World, k: Kind, o: Object, uid: string)
    requires NeverGrants(env, uid) && KeepsOwner(env)
    ensures Harmless(w, DoReplace(env, w, k, o).0, uid)
  {
    TickHarmless(env, w, uid);
  }

  lemma DeleteHarmless(env: Env, w: World, k: Kind, uid: string)
    requires NeverGrants(env, uid)
    ensures Harmless(w, DoDelete(env, w, k).0, uid)
  {
    TickHarmless(env, w, uid);
  }

  /** Creating an object is harmless unless it is this Phare's second workload. */
  lemma CreateKeeps(env: Env, w: World, k: Kind, o: Object, uid: string)
    requires NeverGrants(env, uid) && KeepsOwner(env) && NeverTwo(w, uid)
    requires k.WorkloadOf? && o.owner == Some(uid) ==> !Controlled(w.store, WorkloadOf(OtherKind(k.workload)), uid)
    ensures NeverTwo(DoCreate(env, w, k, o).0, uid)
  {
    TickHarmless(env, w, uid);
  }

  lemma CreateHarmless(env: Env, w: World, k: Kind, o: Object, uid: string)
    requires NeverGrants(env, uid) && KeepsOwner(env) && !k.WorkloadOf?
    ensures Harmless(w, DoCreate(env, w, k, o).0, uid)
  {
    TickHarmless(env, w, uid);
  }

  lemma RecordHarmless(env: Env, w: World, status: Status, uid: string)
    requires NeverGrants(env, uid)
    ensures Harmless(w, DoRecord(env, w, status).0, uid)
  {
    TickHarmless(env, w, uid);
  }

  lemma ConfigMapHarmless(env: Env, w: World, p: Phare, uid: string)
    requires NeverGrants(env, uid) && KeepsOwner(env)
    ensures Harmless(w, StepConfigMap(env, w, p).0, uid)
  {
    var (t, got) := DoGet(env, w, ConfigMapKind);
    TickHarmless(env, w, uid);
    DeleteHarmless(env, t, ConfigMapKind, uid);
    if Config(p).Some? {
      var data := Rendered(Config(p).value, env.render, p);
      CreateHarmless(env, t, ConfigMapKind, ConfigMap(data, Some(p.uid)), uid);
      if got.Found? {
        ReplaceHarmless(env, t, ConfigMapKind, got.value.(data := data), uid);
      }
    }
  }

  lemma ServiceHarmless(env: Env, w: World, p: Phare, uid: string)
    requires NeverGrants(env, uid) && KeepsOwner(env)
    ensures Harmless(w, StepService(env, w, p).0, uid)
  {
    var (t, got) := DoGet(env, w, ServiceKind);
    TickHarmless(env, w, uid);
    DeleteHarmless(env, t, ServiceKind, uid);
    if p.service.Some? {
      var desired := DesiredServiceSpec(p, p.service.value);
      CreateHarmless(env, t, ServiceKind, Service(desired, ServiceLabels(p), ServiceAnnotations(p), Some(p.uid)), uid);
      if got.Found? {
        ReplaceHarmless(env, t, ServiceKind, UpdatedService(p, got.value, desired), uid);
      }
    }
  }

  lemma DeleteOwnedHarmless(env: Env, w: World, k: Kind, owner: string, uid: string)
    requires NeverGrants(env, uid)
    ensures Harmless(w, StepDeleteOwned(env, w, k, owner).0, uid)
  {
    var (t, got) := DoGet(env, w, k);
    TickHarmless(env, w, uid);
    DeleteHarmless(env, t, k, uid);
  }

  /** After the clean-up has returned without error the object is not this Phare's. */
  lemma DeleteOwnedClears(env: Env, w: World, k: WorkloadKind, uid: string)
    requires NeverGrants(env, uid) && StepDeleteOwned(env, w, WorkloadOf(k), uid).1
    ensures !Controlled(StepDeleteOwned(env, w, WorkloadOf(k), uid).0.store, WorkloadOf(k), uid)
  {
    var (t, got) := DoGet(env, w, WorkloadOf(k));
    TickHarmless(env, w, uid);
    TickHarmless(env, t, uid);
  }

  lemma RouteHarmless(env: Env, w: World, p: Phare, k: RouteKind, uid: string)
    requires NeverGrants(env, uid) && KeepsOwner(env)
    ensures Harmless(w, StepRoute(env, w, p, k).0, uid)
  {
    DeleteOwnedHarmless(env, w, RouteOf(k), p.uid, uid);
    var (t, got) := DoGet(env, w, RouteOf(k));
    TickHarmless(env, w, uid);
    if RouteSpec(p, k).Some? {
      var spec := RouteSpec(p, k).value;
      CreateHarmless(env, t, RouteOf(k), Route(spec, MetadataLabels(p), Some(p.uid)), uid);
      if got.Found? {
        ReplaceHarmless(env, t, RouteOf(k), got.value.(route := spec, labels := ReadBackLabels(p, k)), uid);
      }
    }
  }

  lemma RoutesHarmless(env: Env, w: World, p: Phare, uid: string)
    requires NeverGrants(env, uid) && KeepsOwner(env)
    ensures Harmless(w, StepRoutes(env, w, p).0, uid)
  {
    var (w1, ok1) := StepRoute(env, w, p, HTTPRoute);
    RouteHarmless(env, w, p, HTTPRoute, uid);
    var (w2, ok2) := StepRoute(env, w1, p, GCPBackendPolicy);
    RouteHarmless(env, w1, p, GCPBackendPolicy, uid);
    RouteHarmless(env, w2, p, HealthCheckPolicy, uid);
  }

  lemma WorkloadKeeps(env: Env, w: World, p: Phare, k: WorkloadKind, uid: string)
    requires NeverGrants(env, uid) && KeepsOwner(env) && NeverTwo(w, uid)
    requires p.uid == uid ==> !Controlled(w.store, WorkloadOf(OtherKind(k)), uid)
    ensures NeverTwo(StepWorkload(env, w, p, k).0, uid)
  {
    var (t, desired) := StepDesired(env, w, p, k);
    TickHarmless(env, w, uid);
    if desired.Some? {
      var (u, got) := DoGet(env, t, WorkloadOf(k));
      TickHarmless(env, t, uid);
      CreateKeeps(env, u, WorkloadOf(k), Workload(desired.value, Some(p.uid)), uid);
      if got.Found? {
        var merged := W.Merged(desired.value, got.value.workload);
        ReplaceHarmless(env, u, WorkloadOf(k), got.value.(workload := merged), uid);
      }
    }
  }

  lemma MicroServiceKeeps(env: Env, w: World, p: Phare, uid: string)
    requires NeverGrants(env, uid) && KeepsOwner(env) && NeverTwo(w, uid)
    ensures NeverTwo(StepMicroService(env, w, p).0, uid)
  {
    match WantedKind(p)
    case None =>
    case Some(k) =>
      var (t, ok) := StepDeleteOwned(env, w, WorkloadOf(OtherKind(k)), p.uid);
      DeleteOwnedHarmless(env, w, WorkloadOf(OtherKind(k)), p.uid, uid);
      if ok {
        if p.uid == uid {
          DeleteOwnedClears(env, w, OtherKind(k), uid);
        }
        WorkloadKeeps(env, t, p, k, uid);
      }
  }

  lemma ResourcesKeep(env: Env, w: World, p: Phare, uid: string)
    requires NeverGrants(env, uid) && KeepsOwner(env) && NeverTwo(w, uid)
    ensures NeverTwo(StepResources(env, w, p).0, uid)
  {
    var (w1, ok1) := StepConfigMap(env, w, p);
    ConfigMapHarmless(env, w, p, uid);
    var (w2, ok2) := StepService(env, w1, p);
    ServiceHarmless(env, w1, p, uid);
    var (w3, ok3) := StepRoutes(env, w2, p);
    RoutesHarmless(env, w2, p, uid);
    MicroServiceKeeps(env, w3, p, uid);
  }

  lemma ReconcileKeeps(env: Env, w: World, uid: string)
    requires NeverGrants(env, uid) && KeepsOwner(env) && NeverTwo(w, uid)
    ensures NeverTwo(StepReconcile(env, w).0, uid)
  {
    var (t, got) := DoFetch(env, w);
    TickHarmless(env, w, uid);
    if got.Found? {
      var p := got.value;
      var (u, ok) := StepResources(env, t, p);
      ResourcesKeep(env, t, p, uid);
      RecordHarmless(env, u, if ok then ACTIVE else Status(Failed, env.errorText(u.clock)), uid);
    }
  }

  /** Over every run: with any failures, any changes of the Phare (its kind included) and any
      interference that does not hand it a workload, no state of the store ever holds both. */
  lemma NeverTwoWorkloads(env: Env, w: World, n: nat, uid: string)
    requires NeverGrants(env, uid) && KeepsOwner(env) && NeverTwo(w, uid)
    ensures NeverTwo(Run(env, w, n), uid)
  {
    var keeps := (x: World) => NeverTwo(x, uid);
    forall x | keeps(x) ensures keeps(Next(env)(x)) {
      ReconcileKeeps(env, x, uid);
    }
    IterateKeeps(Next(env), keeps, w, n);
  }
}
