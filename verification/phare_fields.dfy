/** What one undisturbed reconcile delivers, said of the fields of the Phare and of the live
    objects. */
module PhareFields {
  import opened Options
  import opened Phares
  import opened Cluster
  import opened ReconcileSpec
  import opened ConfigData
  import opened CalmCluster
  import opened ReconcileConvergence
  import opened WorkloadFields
  import M = WorkloadMerge
  import W = Workloads
  import S = ServiceSpecs

  // ---------- templates ----------

  /** What a template makes of the metadata of the Phare: all of it. */
  function TextFor(env: Env, p: Phare, template: string): Option<string> {
    env.render(template, Meta(p.name, p.uid, p.labels, p.annotations, p.rest, p.version))
  }

  /** `data` holds every entry of `config`, rendered where that works and as written where it
      does not, and nothing else. */
  predicate RenderedFrom(env: Env, p: Phare, config: map<string, string>, data: map<string, string>) {
    && data.Keys == config.Keys
    && forall k :: k in config ==>
        data[k] == if TextFor(env, p, config[k]).Some? then TextFor(env, p, config[k]).value else config[k]
  }

  predicate Configured(p: Phare) {
    p.toolChain.Some? && p.toolChain.value.config.Some? && p.toolChain.value.config.value != map[]
  }

  // ---------- what is there ----------

  predicate ConfigMapDelivered(env: Env, p: Phare, s: Store) {
    if p.toolChain.Some? && p.toolChain.value.config.Some? then
      Present(s, ConfigMapKind) &&
      RenderedFrom(env, p, p.toolChain.value.config.value, s.objects[ConfigMapKind].data)
    else ConfigMapKind !in s.objects
  }

  predicate RouteDelivered(p: Phare, s: Store, k: RouteKind) {
    if p.toolChain.Some? && k in p.toolChain.value.routes then
      Present(s, RouteOf(k)) && s.objects[RouteOf(k)].route == p.toolChain.value.routes[k]
    else !Controlled(s, RouteOf(k), p.uid)
  }

  /** The map holds the entries of `own`, for the other keys those of `defaults`, and nothing
      else. */
  predicate Overlaid(m: map<string, string>, defaults: map<string, string>, own: map<string, string>) {
    && m.Keys == defaults.Keys + own.Keys
    && (forall k :: k in own ==> m[k] == own[k])
    && (forall k :: k in defaults && k !in own ==> m[k] == defaults[k])
  }

  predicate ServicePortDelivered(want: S.ServicePort, has: S.ServicePort) {
    && has.name == want.name && has.protocol == want.protocol && has.port == want.port
    && has.targetPort == want.targetPort && (want.nodePort != 0 ==> has.nodePort == want.nodePort)
  }

  /** The optional fields that are asked for. */
  predicate OptionsDelivered(want: S.ServiceSpec, has: S.ServiceSpec) {
    && (want.externalIPs.Some? ==> Elements(has.externalIPs) == Elements(want.externalIPs))
    && (want.loadBalancerSourceRanges.Some? ==>
         Elements(has.loadBalancerSourceRanges) == Elements(want.loadBalancerSourceRanges))
    && (want.sessionAffinityConfig.Some? ==> has.sessionAffinityConfig == want.sessionAffinityConfig)
    && (want.internalTrafficPolicy.Some? ==> has.internalTrafficPolicy == want.internalTrafficPolicy)
    && (want.allocateLoadBalancerNodePorts.Some? ==>
         has.allocateLoadBalancerNodePorts == want.allocateLoadBalancerNodePorts)
    && (want.sessionAffinity != "" ==> has.sessionAffinity == want.sessionAffinity)
    && (want.externalTrafficPolicy != "" ==> has.externalTrafficPolicy == want.externalTrafficPolicy)
    && (want.loadBalancerIP != "" ==> has.loadBalancerIP == want.loadBalancerIP)
    && (want.externalName != "" ==> has.externalName == want.externalName)
  }

  predicate ServiceDelivered(p: Phare, s: Store) {
    match p.service
    case None => ServiceKind !in s.objects
    case Some(want) =>
      && Present(s, ServiceKind)
      && var o := s.objects[ServiceKind]; var has := o.service;
      && has.kind == (if want.kind == "" then "ClusterIP" else want.kind)
      && has.selector == map["app" := p.name]
      && has.publishNotReadyAddresses == want.publishNotReadyAddresses
      && OptionsDelivered(want, has)
      && |has.ports| == |want.ports|
      && (forall i :: 0 <= i < |want.ports| ==> ServicePortDelivered(want.ports[i], has.ports[i]))
      && Overlaid(o.labels, map["app" := p.name, "app.kubernetes.io/created-by" := "phare-controller"], p.labels)
      && o.annotations.Keys == p.annotations.Keys - {"phare.localcorp.internal/reallocate-nodeport"}
      && forall k :: k in o.annotations ==> o.annotations[k] == p.annotations[k]
  }

  /** The container runs what is asked for, whatever else it has. */
  predicate RunsAs(c: M.Container, want: M.Container) {
    && c.image == want.image && c.env == want.env && c.mounts == want.mounts
    && (c.probe.Some? <==> want.probe.Some?)
    && (c.probe.Some? ==> c.probe.value.path == want.probe.value.path)
  }

  predicate RunsMain(env: Env, p: Phare, c: M.Container) {
    var ms := p.microservice;
    && c.image == ms.repository + ":" + ms.tag && c.env == ms.env
    && (Configured(p) ==> c.mounts == [M.Mount("config-volume", "/etc/phare/config")] + ms.mounts)
    && (!Configured(p) ==> c.mounts == ms.mounts)
    && (c.probe.Some? <==> ms.livenessProbe.Some?)
    && (c.probe.Some? ==> TextFor(env, p, ms.livenessProbe.value.path) == Some(c.probe.value.path))
  }

  predicate HasContainer(cs: seq<M.Container>, name: string) {
    exists i :: 0 <= i < |cs| && cs[i].name == name
  }

  predicate MainDelivered(env: Env, p: Phare, cs: seq<M.Container>) {
    && HasContainer(cs, p.name)
    && forall i :: 0 <= i < |cs| && cs[i].name == p.name ==> RunsMain(env, p, cs[i])
  }

  predicate ContainersDelivered(wanted: seq<M.Container>, cs: seq<M.Container>) {
    && (forall x :: 0 <= x < |wanted| ==> HasContainer(cs, wanted[x].name))
    && forall x, i :: 0 <= x < |wanted| && 0 <= i < |cs| && cs[i].name == wanted[x].name ==> RunsAs(cs[i], wanted[x])
  }

  /** Secrets and ConfigMaps are mounted with mode 0644. */
  predicate MountedAs(source: M.VolumeSource, want: M.VolumeSource) {
    match want
    case SecretSource(secret, _) => source == M.SecretSource(secret, 420)
    case ConfigMapSource(configMap, _) => source == M.ConfigMapSource(configMap, 420)
    case OtherSource(_) => source == want
  }

  predicate VolumeDelivered(vs: seq<M.Volume>, name: string, want: M.VolumeSource) {
    && Named(vs, name)
    && forall i :: 0 <= i < |vs| && vs[i].name == name ==> MountedAs(vs[i].source, want)
  }

  predicate Attached(pod: W.PodSpec, name: string) {
    || (exists i :: 0 <= i < |pod.containers| && Attaches(pod.containers[i], name))
    || (exists i :: 0 <= i < |Elements(pod.initContainers)| && Attaches(Elements(pod.initContainers)[i], name))
  }

  predicate VolumesDelivered(p: Phare, pod: W.PodSpec) {
    var vs, wanted := Elements(pod.volumes), Elements(p.microservice.volumes);
    && (Configured(p) ==> VolumeDelivered(vs, "config-volume", M.ConfigMapSource(p.name + "-config", 420)))
    && (forall x :: 0 <= x < |wanted| ==> VolumeDelivered(vs, wanted[x].name, wanted[x].source))
    && forall i :: 0 <= i < |vs| ==>
        Named(wanted, vs[i].name) || (Configured(p) && vs[i].name == "config-volume") || Attached(pod, vs[i].name)
  }

  /** The annotations of the Phare, and the checksum of what the configuration renders to. */
  ghost predicate AnnotationsDelivered(env: Env, p: Phare, m: map<string, string>) {
    if Configured(p) then
      exists data :: RenderedFrom(env, p, p.toolChain.value.config.value, data) &&
        m == p.microservice.podAnnotations["checksum/config-files" := env.sha(Encode(data))]
    else m == p.microservice.podAnnotations
  }

  ghost predicate TemplateDelivered(env: Env, p: Phare, t: W.Template) {
    var ms, pod := p.microservice, t.spec;
    && Overlaid(t.labels, map["app" := p.name], ms.podLabels)
    && AnnotationsDelivered(env, p, W.Pairs(t.annotations))
    && MainDelivered(env, p, pod.containers)
    && ContainersDelivered(ms.extraContainers, pod.containers)
    && ContainersDelivered(Elements(ms.initContainers), Elements(pod.initContainers))
    && VolumesDelivered(p, pod)
    && pod.tolerations == ms.tolerations && pod.affinity == ms.affinity
  }

  /** The workload of the kind that is asked for, and none of the other kind. */
  ghost predicate WorkloadDelivered(env: Env, p: Phare, s: Store) {
    var stateful := p.microservice.kind == "StatefulSet";
    var wanted := WorkloadOf(if stateful then StatefulSet else Deployment);
    && !Controlled(s, WorkloadOf(if stateful then Deployment else StatefulSet), p.uid)
    && Present(s, wanted)
    && s.objects[wanted].workload.replicas == p.microservice.replicaCount
    && TemplateDelivered(env, p, s.objects[wanted].workload.template)
  }

  ghost predicate Delivered(env: Env, p: Phare, s: Store) {
    && ConfigMapDelivered(env, p, s)
    && ServiceDelivered(p, s)
    && (forall k :: RouteDelivered(p, s, k))
    && WorkloadDelivered(env, p, s)
  }

  // ---------- what is in line is delivered ----------

  lemma RenderedIs(env: Env, p: Phare, config: map<string, string>)
    ensures RenderedFrom(env, p, config, Rendered(config, env.render, p))
  {}

  lemma SupportDelivered(env: Env, p: Phare, s: Store)
    requires SupportOk(env, p, s)
    ensures ConfigMapDelivered(env, p, s) && forall k :: RouteDelivered(p, s, k)
  {
    forall k ensures RouteDelivered(p, s, k) {
      assert k == HTTPRoute || k == GCPBackendPolicy || k == HealthCheckPolicy;
    }
  }

  lemma PortIsDelivered(want: S.ServicePort, has: S.ServicePort, live: seq<S.ServicePort>, preserve: bool)
    requires S.PortConforms(want, has, live, preserve)
    ensures ServicePortDelivered(want, has)
  {
    var x, y := has.(nodePort := 0), want.(nodePort := 0);
    assert x.name == y.name && x.protocol == y.protocol && x.port == y.port && x.targetPort == y.targetPort;
  }

  lemma ServiceIsDelivered(p: Phare, s: Store)
    requires ServiceOk(p, s)
    ensures ServiceDelivered(p, s)
  {
    if p.service.Some? {
      var want, has := p.service.value, s.objects[ServiceKind].service;
      var desired := DesiredServiceSpec(p, want);
      forall i | 0 <= i < |want.ports| ensures ServicePortDelivered(want.ports[i], has.ports[i]) {
        PortIsDelivered(desired.ports[i], has.ports[i], has.ports, !ShouldReallocateNodePorts(p));
      }
    }
  }

  lemma MainIsDelivered(env: Env, p: Phare, cs: seq<M.Container>)
    requires Ready(env, p) && W.ContainersConform(Desired(env, p).template.spec.containers, cs)
    ensures MainDelivered(env, p, cs)
  {
    var desired := Desired(env, p).template.spec.containers;
    DesiredIsUnique(env, p);
    W.UniqueLast(desired);
    assert desired[0].name == p.name;
    assert p.name in M.ContainerNames(desired);
    forall i | 0 <= i < |cs| && cs[i].name == p.name ensures RunsMain(env, p, cs[i]) {
      assert W.ManagedAlike(cs[i], desired[0]);
      assert !Configured(p) ==> [] + p.microservice.mounts == p.microservice.mounts;
    }
  }

  lemma ContainersAreDelivered(wanted: seq<M.Container>, desired: seq<M.Container>, cs: seq<M.Container>)
    requires W.UniqueContainers(desired) && W.ContainersConform(desired, cs)
    requires forall x :: 0 <= x < |wanted| ==> wanted[x] in desired
    ensures ContainersDelivered(wanted, cs)
  {
    W.UniqueLast(desired);
    forall x | 0 <= x < |wanted| ensures HasContainer(cs, wanted[x].name) {
      var y :| 0 <= y < |desired| && desired[y] == wanted[x];
      assert desired[y].name in M.ContainerNames(desired);
    }
    forall x, i | 0 <= x < |wanted| && 0 <= i < |cs| && cs[i].name == wanted[x].name
      ensures RunsAs(cs[i], wanted[x])
    {
      var y :| 0 <= y < |desired| && desired[y] == wanted[x];
      assert W.ManagedAlike(cs[i], desired[y]);
    }
  }

  lemma VolumeIsDelivered(desired: seq<M.Volume>, vs: seq<M.Volume>, used: set<string>, x: nat, want: M.Volume)
    requires W.VolumesConform(desired, vs, used) && x < |desired| && desired[x] == WithMode(want)
    requires forall i, j :: 0 <= i < j < |desired| ==> desired[i].name != desired[j].name
    ensures VolumeDelivered(vs, want.name, want.source)
  {
    assert desired[x].name in M.VolumeNames(desired);
    assert want.name in M.VolumeNames(vs);
    forall i | 0 <= i < |vs| && vs[i].name == want.name ensures MountedAs(vs[i].source, want.source) {
      LastVolumeIs(desired, x);
    }
  }

  lemma LastVolumeIs(vs: seq<M.Volume>, x: nat)
    requires x < |vs| && forall i, j :: 0 <= i < j < |vs| ==> vs[i].name != vs[j].name
    ensures M.LastVolume(vs, vs[x].name) == Some(vs[x])
  {
    LastVolumeCounts(vs, x);
  }

  lemma UsedIsAttached(pod: W.PodSpec, name: string)
    ensures name in W.Used(pod) <==> Attached(pod, name)
  {
    PodAttachesIff(pod, name);
  }

  function OwnVolumes(p: Phare): seq<M.Volume> {
    (if HasConfig(p) then [ConfigVolume(p)] else []) + Elements(p.microservice.volumes)
  }

  lemma DesiredVolumes(env: Env, p: Phare)
    requires Ready(env, p)
    ensures Elements(Desired(env, p).template.spec.volumes) == WithModes(OwnVolumes(p))
    ensures Configured(p) <==> HasConfig(p)
  {
    assert !HasConfig(p) ==> OwnVolumes(p) == Elements(p.microservice.volumes);
  }

  lemma NamesOfOwn(p: Phare, name: string)
    ensures name in M.VolumeNames(WithModes(OwnVolumes(p))) <==>
      Named(Elements(p.microservice.volumes), name) || (HasConfig(p) && name == "config-volume")
  {
    PodVolumeNames(p);
    assert !HasConfig(p) ==> OwnVolumes(p) == Elements(p.microservice.volumes);
    assert Elements(PodVolumes(p)) == WithModes(OwnVolumes(p));
    NamedIff(Elements(p.microservice.volumes), name);
  }

  lemma WantedVolumesAreDelivered(p: Phare, vs: seq<M.Volume>, used: set<string>)
    requires W.VolumesConform(WithModes(OwnVolumes(p)), vs, used)
    requires var d := WithModes(OwnVolumes(p)); forall i, j :: 0 <= i < j < |d| ==> d[i].name != d[j].name
    ensures HasConfig(p) ==> VolumeDelivered(vs, "config-volume", M.ConfigMapSource(p.name + "-config", 420))
    ensures var own := Elements(p.microservice.volumes);
      forall x :: 0 <= x < |own| ==> VolumeDelivered(vs, own[x].name, own[x].source)
  {
    var all, own := OwnVolumes(p), Elements(p.microservice.volumes);
    if HasConfig(p) {
      VolumeIsDelivered(WithModes(all), vs, used, 0, ConfigVolume(p));
    }
    forall x | 0 <= x < |own| ensures VolumeDelivered(vs, own[x].name, own[x].source) {
      var y := |all| - |own| + x;
      assert all[y] == own[x];
      VolumeIsDelivered(WithModes(all), vs, used, y, own[x]);
    }
  }

  lemma VolumesAreDelivered(env: Env, p: Phare, pod: W.PodSpec)
    requires Ready(env, p)
    requires W.VolumesConform(Elements(Desired(env, p).template.spec.volumes), Elements(pod.volumes), W.Used(pod))
    ensures VolumesDelivered(p, pod)
  {
    DesiredIsUnique(env, p);
    DesiredVolumes(env, p);
    var vs := Elements(pod.volumes);
    WantedVolumesAreDelivered(p, vs, W.Used(pod));
    forall i | 0 <= i < |vs|
      ensures Named(Elements(p.microservice.volumes), vs[i].name) || Attached(pod, vs[i].name) ||
        (Configured(p) && vs[i].name == "config-volume")
    {
      UsedIsAttached(pod, vs[i].name);
      NamesOfOwn(p, vs[i].name);
    }
  }

  lemma AnnotationsAreDelivered(env: Env, p: Phare)
    requires Ready(env, p)
    ensures AnnotationsDelivered(env, p, W.Pairs(Desired(env, p).template.annotations))
  {
    if Configured(p) {
      RenderedIs(env, p, Config(p).value);
    }
  }

  lemma WorkloadIsDelivered(env: Env, p: Phare, s: Store)
    requires Ready(env, p) && WorkloadOk(env, p, s)
    ensures WorkloadDelivered(env, p, s)
  {
    var k := WantedKind(p).value;
    var desired, live := Desired(env, p).template, s.objects[WorkloadOf(k)].workload.template;
    var ms := p.microservice;
    DesiredIsUnique(env, p);
    MainIsDelivered(env, p, live.spec.containers);
    ContainersAreDelivered(ms.extraContainers, desired.spec.containers, live.spec.containers);
    ContainersAreDelivered(Elements(ms.initContainers), Elements(desired.spec.initContainers),
      Elements(live.spec.initContainers));
    VolumesAreDelivered(env, p, live.spec);
    AnnotationsAreDelivered(env, p);
  }

  /** One undisturbed reconcile, from any store, leaves the objects with what the fields of
      the Phare say. */
  lemma OneReconcileDelivers(env: Env, w: World, p: Phare)
    requires Calm(env) && Starts(env, w, p)
    ensures Delivered(env, p, StepReconcile(env, w).0.store)
  {
    OneReconcileConverges(env, w, p);
    InLineIsDelivered(env, p, StepReconcile(env, w).0.store);
  }

  lemma InLineIsDelivered(env: Env, p: Phare, s: Store)
    requires Ready(env, p) && InLine(env, p, s)
    ensures Delivered(env, p, s)
  {
    SupportDelivered(env, p, s);
    ServiceIsDelivered(p, s);
    WorkloadIsDelivered(env, p, s);
  }

  // ---------- volume claims ----------

  /** The claims go into a StatefulSet when it is created, whatever they are later; a
      Deployment has none. */
  lemma ClaimsOfTheCreated(env: Env, w: World, p: Phare)
    requires Calm(env) && Typed(w.store) && Ready(env, p)
    requires forall k, o :: OfKind(k, o) && o.Workload? ==> env.admit(k, o).workload.claims == o.workload.claims
    ensures var n := WorkloadOf(WantedKind(p).value); var t := StepApply(env, w, n.workload, Desired(env, p), p.uid).0;
      && Present(t.store, n)
      && (Present(w.store, n) ==> t.store.objects[n].workload.claims == w.store.objects[n].workload.claims)
      && (!Present(w.store, n) && p.microservice.kind == "StatefulSet" ==>
           t.store.objects[n].workload.claims == p.microservice.claims)
      && (!Present(w.store, n) && p.microservice.kind == "Deployment" ==> t.store.objects[n].workload.claims == [])
  {
    ApplyStores(env, w, WantedKind(p).value, Desired(env, p), p.uid);
  }

  // ---------- the reallocate annotation ----------

  predicate Blanks(s: string) {
    forall i :: 0 <= i < |s| ==> Space(s[i])
  }

  /** The same letters, in whatever case. */
  predicate Spells(s: string, word: string) {
    |s| == |word| && forall i :: 0 <= i < |s| ==>
      s[i] == word[i] || ('A' <= s[i] <= 'Z' && s[i] as int + 32 == word[i] as int)
  }

  predicate MeansYes(s: string) {
    Spells(s, "1") || Spells(s, "true") || Spells(s, "yes") || Spells(s, "on")
  }

  lemma {:induction false} LowerAt(s: string)
    ensures |Lower(s)| == |s| && forall i :: 0 <= i < |s| ==> Lower(s)[i] == LowerChar(s[i])
  {
    if s != "" {
      LowerAt(s[1..]);
    }
  }

  lemma LowerSpells(s: string, word: string)
    requires forall i :: 0 <= i < |word| ==> !('A' <= word[i] <= 'Z')
    ensures Lower(s) == word <==> Spells(s, word)
  {
    LowerAt(s);
  }

  lemma LowerMeansYes(s: string)
    ensures Lower(s) in {"1", "true", "yes", "on"} <==> MeansYes(s)
  {
    LowerSpells(s, "1");
    LowerSpells(s, "true");
    LowerSpells(s, "yes");
    LowerSpells(s, "on");
  }

  lemma {:induction false} TrimCuts(s: string) returns (a: nat, b: nat)
    ensures a <= b <= |s| && Trim(s) == s[a..b] && Blanks(s[..a]) && Blanks(s[b..])
    decreases |s|
  {
    if s == "" {
      a, b := 0, 0;
    } else if Space(s[0]) {
      var x, y := TrimCuts(s[1..]);
      a, b := x + 1, y + 1;
      assert s[1..][x..y] == s[a..b] && s[1..][y..] == s[b..];
      forall i | 0 <= i < a ensures Space(s[i]) {
        assert i > 0 ==> s[1..][..x][i-1] == s[i];
      }
    } else if Space(s[|s|-1]) {
      a, b := TrimCuts(s[..|s|-1]);
      assert s[..|s|-1][a..b] == s[a..b] && s[..|s|-1][..a] == s[..a];
      forall i | b <= i < |s| ensures Space(s[i]) {
        assert i < |s| - 1 ==> s[..|s|-1][b..][i-b] == s[i];
      }
    } else {
      a, b := 0, |s|;
    }
  }

  lemma {:induction false} PaddingIsTrimmed(s: string, a: nat, b: nat)
    requires a < b <= |s| && Blanks(s[..a]) && Blanks(s[b..]) && !Space(s[a]) && !Space(s[b-1])
    ensures Trim(s) == s[a..b]
    decreases |s|
  {
    if a > 0 {
      assert s[..a][0] == s[0];
      var t := s[1..];
      assert t[..a-1] == s[..a][1..] && t[b-1..] == s[b..] && t[a-1..b-1] == s[a..b];
      PaddingIsTrimmed(t, a - 1, b - 1);
    } else if b < |s| {
      assert s[b..][|s|-1-b] == s[|s|-1];
      var t := s[..|s|-1];
      assert t[b..] == s[b..][..|s|-1-b] && t[..a] == s[..a] && t[a..b] == s[a..b];
      PaddingIsTrimmed(t, a, b);
    } else {
      assert s[a..b] == s;
    }
  }

  predicate YesBetween(s: string, a: int, b: int) {
    0 <= a <= b <= |s| && Blanks(s[..a]) && MeansYes(s[a..b]) && Blanks(s[b..])
  }

  lemma YesIsSolid(s: string)
    requires MeansYes(s)
    ensures s != "" && !Space(s[0]) && !Space(s[|s|-1])
  {}

  /** Node ports are reallocated exactly when the annotation is there and says 1, true, yes or
      on, in whatever case, between any white space. */
  lemma ReallocatesIff(p: Phare)
    ensures ShouldReallocateNodePorts(p) <==>
      "phare.localcorp.internal/reallocate-nodeport" in p.annotations &&
      exists a, b :: YesBetween(p.annotations["phare.localcorp.internal/reallocate-nodeport"], a, b)
  {
    if REALLOCATE in p.annotations {
      var s := p.annotations[REALLOCATE];
      LowerMeansYes(Trim(s));
      var a, b := TrimCuts(s);
      assert MeansYes(Trim(s)) ==> YesBetween(s, a, b);
      forall x, y | YesBetween(s, x, y) ensures MeansYes(Trim(s)) {
        YesIsSolid(s[x..y]);
        PaddingIsTrimmed(s, x, y);
      }
    }
  }
}
