/** What an update does to the optional fields of a live Service that the Phare omits. */
module ServiceUpdates {
  import opened Options
  import opened Phares
  import opened Cluster
  import opened ReconcileSpec
  import opened CalmCluster
  import opened ReconcileConvergence
  import opened StepFrames
  import opened EndlessWrites
  import S = ServiceSpecs

  ghost predicate StoresServices(env: Env) {
    Undisturbed(env) && forall o :: env.admit(ServiceKind, o) == o
  }

  /** The live Service after the step. */
  function LiveService(s: Store): S.ServiceSpec
    requires Present(s, ServiceKind)
  {
    s.objects[ServiceKind].service
  }

  lemma StepServiceStores(env: Env, w: World, p: Phare)
    requires StoresServices(env) && Present(w.store, ServiceKind) && p.service.Some?
    ensures Present(StepService(env, w, p).0.store, ServiceKind)
    ensures LiveService(StepService(env, w, p).0.store) ==
      if ServiceDrifted(p, w.store) then
        S.Merged(LiveService(w.store), DesiredServiceSpec(p, p.service.value), !ShouldReallocateNodePorts(p))
      else LiveService(w.store)
  {
    if ServiceDrifted(p, w.store) {
      ServicePut(env, w, p);
    } else {
      GetTouches(env, w, ServiceKind);
    }
  }

  /** A live value of an optional field that the Phare omits survives the step exactly when
      nothing at all of the Service has drifted, or there was no value.  For each of the nine
      fields; nil and empty lists count as the same. */
  lemma OmittedFieldSurvivesIff(env: Env, w: World, p: Phare)
    requires StoresServices(env) && Present(w.store, ServiceKind) && p.service.Some?
    ensures Present(StepService(env, w, p).0.store, ServiceKind)
    ensures var asked, quiet := p.service.value, !ServiceDrifted(p, w.store);
      var had := S.Canonical(LiveService(w.store));
      var has := S.Canonical(LiveService(StepService(env, w, p).0.store));
      && (asked.externalIPs.None? ==>
           (has.externalIPs == had.externalIPs <==>
            quiet || had.externalIPs.None?))
      && (asked.loadBalancerSourceRanges.None? ==>
           (has.loadBalancerSourceRanges == had.loadBalancerSourceRanges <==>
            quiet || had.loadBalancerSourceRanges.None?))
      && (asked.sessionAffinityConfig.None? ==>
           (has.sessionAffinityConfig == had.sessionAffinityConfig <==>
            quiet || had.sessionAffinityConfig.None?))
      && (asked.internalTrafficPolicy.None? ==>
           (has.internalTrafficPolicy == had.internalTrafficPolicy <==>
            quiet || had.internalTrafficPolicy.None?))
      && (asked.allocateLoadBalancerNodePorts.None? ==>
           (has.allocateLoadBalancerNodePorts == had.allocateLoadBalancerNodePorts <==>
            quiet || had.allocateLoadBalancerNodePorts.None?))
      && (asked.sessionAffinity == "" ==>
           (has.sessionAffinity == had.sessionAffinity <==>
            quiet || had.sessionAffinity == ""))
      && (asked.externalTrafficPolicy == "" ==>
           (has.externalTrafficPolicy == had.externalTrafficPolicy <==>
            quiet || had.externalTrafficPolicy == ""))
      && (asked.loadBalancerIP == "" ==>
           (has.loadBalancerIP == had.loadBalancerIP <==>
            quiet || had.loadBalancerIP == ""))
      && (asked.externalName == "" ==>
           (has.externalName == had.externalName <==>
            quiet || had.externalName == ""))
  {
    StepServiceStores(env, w, p);
  }

  /** A run that loses one: the labels of the Service have drifted, and the update that puts
      them right takes the address of the load balancer away. */
  lemma LoadBalancerAddressIsLost(env: Env, w: World, spec: S.ServiceSpec, live: Object, p: Phare)
    requires StoresServices(env) && Typed(w.store) && w.store.phare == Some(p)
    requires p.service == Some(spec) && spec.loadBalancerIP == ""
    requires Present(w.store, ServiceKind) && w.store.objects[ServiceKind] == live
    requires live.service.loadBalancerIP != "" && live.labels != ServiceLabels(p)
    ensures Present(StepReconcile(env, w).0.store, ServiceKind)
    ensures LiveService(StepReconcile(env, w).0.store).loadBalancerIP == ""
  {
    ServiceIsRewritten(env, w, p);
  }

  /** With everything else about the Service as asked. */
  ghost predicate AboutToLose(env: Env, s: Store, p: Phare) {
    && StoresServices(env) && Typed(s) && s.phare == Some(p) && p.service.Some?
    && p.service.value.loadBalancerIP == "" && Present(s, ServiceKind)
    && s.objects[ServiceKind].labels != ServiceLabels(p) && LiveService(s).loadBalancerIP != ""
    && S.Conforms(LiveService(s), DesiredServiceSpec(p, p.service.value), true)
  }

  lemma AddressLossHappens(
    render: Renderer, sha: string -> string, errorText: nat -> string, versions: nat -> string)
    ensures exists env: Env, s: Store, p: Phare :: AboutToLose(env, s, p)
  {
    var env := PlainServer(render, sha, errorText, versions);
    var spec := S.ServiceSpec(
      "LoadBalancer", map["app" := "app"], [], false, "", [], [], None, 0, None,
      None, None, None, None, None, "", "", "", "");
    var p := SmallPhare().(service := Some(spec));
    var o := Service(spec.(loadBalancerIP := "10.0.0.1"), map[], map[], Some("uid"));
    var s := Store(map[ServiceKind := o], Some(p));
    assert ServiceLabels(p)["app"] == "app";
    assert AboutToLose(env, s, p);
  }
}
